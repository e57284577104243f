/** The draft generic voxel plugin: its own copy of the tracker, with a
    despawn threshold of 10, and a chunk spawner whose records also carry
    an optional voxel payload that starts out empty. The file is an
    unfinished draft; the model follows what its text evidently means. */
module VoxelDraft {
  import opened Wrappers
  import opened Seqs
  import opened Tracker
  import opened Streaming

  /** The default tracker's despawn threshold. */
  const DefaultMinDespawnDistance: int := 10

  /** The neighbour distance the spawner passes to the layout. */
  const SpawnDistance: int := 2

  /** The neighbours the spawner asks for: the layout's
      `get_chunk_neighbors(c, SpawnDistance)`. */
  function Neighborhood<C>(chunkNeighbors: (C, int) -> seq<C>): C -> seq<C> {
    c => chunkNeighbors(c, SpawnDistance)
  }

  /** The default tracker: nothing loaded. */
  function DefaultTracker<C>(): (t: TrackerState<C>)
    ensures t.loaded == {}
    ensures t.minDespawnDistance == DefaultMinDespawnDistance
  {
    TrackerState({}, 10)
  }

  /** A chunk record: the fields of the generic streaming record plus the
      chunk's voxels, once they exist. */
  datatype DraftChunk<C, V> = DraftChunk(id: C, distance: int, loaded: bool, voxels: Option<V>)

  datatype World<C, V> = World(tracker: TrackerState<C>, chunks: seq<DraftChunk<C, V>>, sites: seq<Site<C>>)

  function Ids<C, V>(cs: seq<DraftChunk<C, V>>): seq<C> {
    seq(|cs|, k requires 0 <= k < |cs| => cs[k].id)
  }

  lemma IdsConcat<C, V>(a: seq<DraftChunk<C, V>>, b: seq<DraftChunk<C, V>>)
    ensures Ids(a + b) == Ids(a) + Ids(b)
  {
  }

  /** Records and tracker agree, and every fresh site knows its chunk. */
  ghost predicate Valid<C(!new), V>(w: World<C, V>) {
    Synced(w.tracker.loaded, Ids(w.chunks)) && FreshHasChunk(w.sites)
  }

  /** One fresh record per newly spawned id: distance 0, not loaded, no
      voxels yet. */
  function NewDraftChunks<C, V>(ids: seq<C>): (r: seq<DraftChunk<C, V>>)
    ensures Ids(r) == ids
    ensures forall k :: 0 <= k < |r| ==> r[k].distance == 0 && !r[k].loaded && r[k].voxels.None?
  {
    seq(|ids|, k requires 0 <= k < |ids| => DraftChunk(ids[k], 0, false, None))
  }

  /** `chunk_spawner`, given the layout's `get_chunk_neighbors`, which
      it asks for distance `SpawnDistance`. Sites whose chunk is unchanged
      are skipped; the others try-spawn their chunk and its neighbours and
      become fresh. */
  function ChunkSpawner<C(!new), V>(w: World<C, V>, chunkNeighbors: (C, int) -> seq<C>): (r: World<C, V>)
    ensures r.tracker.minDespawnDistance == w.tracker.minDespawnDistance
    ensures forall c :: c in r.tracker.loaded <==> c in w.tracker.loaded || Wanted(w.sites, Neighborhood(chunkNeighbors), c)
    ensures |w.chunks| <= |r.chunks| && r.chunks[..|w.chunks|] == w.chunks
    ensures forall k :: |w.chunks| <= k < |r.chunks| ==>
      && r.chunks[k].distance == 0 && !r.chunks[k].loaded && r.chunks[k].voxels.None?
      && r.chunks[k].id !in w.tracker.loaded && r.chunks[k].id in r.tracker.loaded
    ensures forall c :: c in Ids(r.chunks[|w.chunks|..]) <==> c in r.tracker.loaded && c !in w.tracker.loaded
    ensures Distinct(Ids(r.chunks[|w.chunks|..]))
    ensures |r.sites| == |w.sites|
    ensures forall i :: 0 <= i < |w.sites| ==>
      r.sites[i] == if Unmoved(w.sites[i]) then w.sites[i] else Moved(w.sites[i])
  {
    var s := SpawnSites(w.tracker.loaded, w.sites, Neighborhood(chunkNeighbors));
    var r := World(w.tracker.(loaded := s.0), w.chunks + NewDraftChunks(s.1), s.2);
    assert r.chunks[|w.chunks|..] == NewDraftChunks(s.1);
    r
  }

  /** A site whose chunk is unchanged since its last load costs nothing:
      when every site is unmoved, the spawner changes nothing at all. */
  lemma SpawnerSkipsUnmoved<C(!new), V>(w: World<C, V>, chunkNeighbors: (C, int) -> seq<C>)
    requires forall i :: 0 <= i < |w.sites| ==> Unmoved(w.sites[i])
    ensures ChunkSpawner(w, chunkNeighbors) == w
  {
    UnmovedSpawnNothing(w.tracker.loaded, w.sites, Neighborhood(chunkNeighbors));
  }

  /** A moved site ends up fresh, remembering its chunk, with that chunk
      and all its neighbours tracked. */
  lemma SpawnerLoadsAround<C(!new), V>(w: World<C, V>, chunkNeighbors: (C, int) -> seq<C>, i: int, c: C)
    requires 0 <= i < |w.sites| && !Unmoved(w.sites[i])
    requires c in Around(w.sites[i], Neighborhood(chunkNeighbors))
    ensures var r := ChunkSpawner(w, chunkNeighbors);
      c in r.tracker.loaded && r.sites[i].isFresh && r.sites[i].lastLoaded == Some(w.sites[i].at)
  {
    MovedSiteLoaded(w.tracker.loaded, w.sites, Neighborhood(chunkNeighbors), i, c);
  }

  /** The spawner keeps records and tracker in agreement: no two records
      share an id. */
  lemma SpawnerKeepsValid<C(!new), V>(w: World<C, V>, chunkNeighbors: (C, int) -> seq<C>)
    requires Valid(w)
    ensures Valid(ChunkSpawner(w, chunkNeighbors))
  {
    var s := SpawnSites(w.tracker.loaded, w.sites, Neighborhood(chunkNeighbors));
    IdsConcat(w.chunks, NewDraftChunks<C, V>(s.1));
    SpawnKeepsSynced(w.tracker.loaded, Ids(w.chunks), w.sites, Neighborhood(chunkNeighbors));
    SpawnKeepsFreshChunk(w.tracker.loaded, w.sites, Neighborhood(chunkNeighbors));
  }

  /** From the default tracker, the first tick of a lone new site creates
      one record per distinct chunk it asks for, tracks exactly those, and
      makes the site fresh. */
  lemma FirstSpawn<C(!new), V>(site: Site<C>, chunkNeighbors: (C, int) -> seq<C>)
    requires site.lastLoaded.None?
    ensures var r := ChunkSpawner(World<C, V>.World(DefaultTracker(), [], [site]), chunkNeighbors);
      && (forall c :: c in r.tracker.loaded <==> c in Around(site, Neighborhood(chunkNeighbors)))
      && (forall c :: c in Ids(r.chunks) <==> c in Around(site, Neighborhood(chunkNeighbors)))
      && Distinct(Ids(r.chunks))
      && r.sites == [Moved(site)]
  {
    SingleSiteSpawn(site, Neighborhood(chunkNeighbors));
    var s := SpawnSites({}, [site], Neighborhood(chunkNeighbors));
    IdsConcat([], NewDraftChunks<C, V>(s.1));
  }
}
