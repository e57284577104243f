/** The generic terrain plugin: a chunk spawner and a "last site wins"
    distance solver over any chunk-id type, with the layout's neighbour
    list and chunk distance supplied as functions. The application
    instantiates it with the i32 cubic layout. Its despawner has its
    removal commented out and changes no modelled state. */
module Terrain {
  import opened Wrappers
  import opened Seqs
  import opened Tracker
  import opened Streaming

  /** The default tracker's despawn threshold. */
  const DefaultMinDespawnDistance: int := 500

  /** The neighbour distance the spawner passes to the layout. */
  const SpawnDistance: int := 2

  /** The neighbours the spawner asks for: the layout's
      `get_chunk_neighbors(c, SpawnDistance)`. */
  function Neighborhood<C>(chunkNeighbors: (C, int) -> seq<C>): C -> seq<C> {
    c => chunkNeighbors(c, SpawnDistance)
  }

  /** The default tracker: nothing loaded. */
  function DefaultTracker<C>(): (t: TrackerState<C>)
    ensures t.loaded == {}
    ensures t.minDespawnDistance == DefaultMinDespawnDistance
  {
    TrackerState({}, 500)
  }

  datatype World<C> = World(tracker: TrackerState<C>, chunks: seq<Chunk<C>>, sites: seq<Site<C>>)

  /** Records and tracker agree, and every fresh site knows its chunk. */
  ghost predicate Valid<C(!new)>(w: World<C>) {
    Synced(w.tracker.loaded, ChunkIds(w.chunks)) && FreshHasChunk(w.sites)
  }

  /** `chunk_spawner`, given the layout's `get_chunk_neighbors`, which
      it asks for distance `SpawnDistance`. Moved sites try-spawn their
      chunk and its neighbours, each newly tracked chunk gets a record at
      distance 0 that is not loaded, and the moved sites become fresh. */
  function ChunkSpawner<C(!new)>(w: World<C>, chunkNeighbors: (C, int) -> seq<C>): (r: World<C>)
    ensures r.tracker.minDespawnDistance == w.tracker.minDespawnDistance
    ensures forall c :: c in r.tracker.loaded <==> c in w.tracker.loaded || Wanted(w.sites, Neighborhood(chunkNeighbors), c)
    ensures |w.chunks| <= |r.chunks| && r.chunks[..|w.chunks|] == w.chunks
    ensures forall k :: |w.chunks| <= k < |r.chunks| ==>
      r.chunks[k].distance == 0 && !r.chunks[k].loaded && r.chunks[k].id !in w.tracker.loaded
    ensures forall c :: c in ChunkIds(r.chunks[|w.chunks|..]) <==> c in r.tracker.loaded && c !in w.tracker.loaded
    ensures Distinct(ChunkIds(r.chunks[|w.chunks|..]))
    ensures |r.sites| == |w.sites|
    ensures forall i :: 0 <= i < |w.sites| ==>
      r.sites[i] == if Unmoved(w.sites[i]) then w.sites[i] else Moved(w.sites[i])
  {
    var s := SpawnSites(w.tracker.loaded, w.sites, Neighborhood(chunkNeighbors));
    var r := World(w.tracker.(loaded := s.0), w.chunks + NewRecords(s.1), s.2);
    assert r.chunks[|w.chunks|..] == NewRecords(s.1);
    r
  }

  /** A moved site ends up fresh, remembering its chunk, with that chunk
      and all its neighbours tracked. */
  lemma SpawnerLoadsAround<C(!new)>(w: World<C>, chunkNeighbors: (C, int) -> seq<C>, i: int, c: C)
    requires 0 <= i < |w.sites| && !Unmoved(w.sites[i])
    requires c in Around(w.sites[i], Neighborhood(chunkNeighbors))
    ensures var r := ChunkSpawner(w, chunkNeighbors);
      c in r.tracker.loaded && r.sites[i].isFresh && r.sites[i].lastLoaded == Some(w.sites[i].at)
  {
    MovedSiteLoaded(w.tracker.loaded, w.sites, Neighborhood(chunkNeighbors), i, c);
  }

  /** The spawner keeps records and tracker in agreement: no two records
      share an id. */
  lemma SpawnerKeepsValid<C(!new)>(w: World<C>, chunkNeighbors: (C, int) -> seq<C>)
    requires Valid(w)
    ensures Valid(ChunkSpawner(w, chunkNeighbors))
  {
    var s := SpawnSites(w.tracker.loaded, w.sites, Neighborhood(chunkNeighbors));
    assert ChunkIds(ChunkSpawner(w, chunkNeighbors).chunks) == ChunkIds(w.chunks) + s.1;
    SpawnKeepsSynced(w.tracker.loaded, ChunkIds(w.chunks), w.sites, Neighborhood(chunkNeighbors));
    SpawnKeepsFreshChunk(w.tracker.loaded, w.sites, Neighborhood(chunkNeighbors));
  }

  /** From the default tracker, the first tick of a lone new site creates
      one record per distinct chunk it asks for, and tracks exactly
      those. */
  lemma FirstSpawn<C(!new)>(site: Site<C>, chunkNeighbors: (C, int) -> seq<C>)
    requires site.lastLoaded.None?
    ensures var r := ChunkSpawner(World(DefaultTracker(), [], [site]), chunkNeighbors);
      && (forall c :: c in r.tracker.loaded <==> c in Around(site, Neighborhood(chunkNeighbors)))
      && (forall c :: c in ChunkIds(r.chunks) <==> c in Around(site, Neighborhood(chunkNeighbors)))
      && r.tracker.minDespawnDistance == DefaultMinDespawnDistance
  {
    SingleSiteSpawn(site, Neighborhood(chunkNeighbors));
    var s := SpawnSites({}, [site], Neighborhood(chunkNeighbors));
    assert ChunkIds(ChunkSpawner(World(DefaultTracker(), [], [site]), chunkNeighbors).chunks) == s.1;
  }

  /** `chunk_solver`: every site ends up settled and the last fresh site
      sets every record's distance to `get_chunk_distance(id, its chunk)`.
      A fresh site without a chunk panics (`None`) when there is a
      record. The tracker is untouched. */
  function ChunkSolver<C>(w: World<C>, dist: (C, C) -> int): (r: Option<World<C>>)
    ensures r.None? <==> w.chunks != [] && exists i :: 0 <= i < |w.sites| && w.sites[i].isFresh && w.sites[i].lastLoaded.None?
    ensures r.Some? ==> r.value.tracker == w.tracker && ChunkIds(r.value.chunks) == ChunkIds(w.chunks)
    ensures r.Some? ==> |r.value.sites| == |w.sites| && forall i :: 0 <= i < |w.sites| ==> r.value.sites[i] == Settled(w.sites[i])
    ensures r.Some? ==> forall k :: 0 <= k < |w.chunks| ==> r.value.chunks[k].loaded == w.chunks[k].loaded
    ensures r.Some? && w.chunks != [] ==> forall k :: 0 <= k < |w.chunks| ==>
      r.value.chunks[k].distance == match LastFresh(w.sites)
        case None => w.chunks[k].distance
        case Some(j) => dist(w.chunks[k].id, w.sites[j].lastLoaded.value)
  {
    match SolveLastWins(w.chunks, w.sites, dist)
    case None => None
    case Some(s) => Some(World(w.tracker, s.0, s.1))
  }

  /** The solver keeps the world valid. */
  lemma SolverKeepsValid<C(!new)>(w: World<C>, dist: (C, C) -> int)
    requires Valid(w)
    ensures ChunkSolver(w, dist).Some? && Valid(ChunkSolver(w, dist).value)
  {
  }
}
