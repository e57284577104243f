/** The systems of the voxel terrain plugin as state steps over the
    chunk tracker, the chunk records and the spawner sites: the spawner
    loads the 5 x 5 chunk square around every site that moved, the solver
    stores each chunk's distance to the nearest fresh site, `load_voxels`
    sizes a chunk's voxel buffer, and the despawner drops far chunks.
    Chunk distances are `f32` in the plugin and are modelled as reals
    computed by an abstract distance function. */
module VoxelPlugin {
  import opened Wrappers
  import opened Seqs
  import opened Tracker
  import opened Streaming
  import opened Cubic

  /** `Chunk`: a chunk record and its distance to the nearest spawner. */
  datatype VoxelChunk = VoxelChunk(id: ChunkId, distance: real)

  /** The world the systems read and write: the tracker's set, the chunk
      records in query order, and the spawner sites in query order. */
  datatype World = World(loaded: set<ChunkId>, chunks: seq<VoxelChunk>, sites: seq<Site<ChunkId>>)

  /** `generator::VoxelType`, whose only variant is `Air`. */
  datatype VoxelType = Air

  /** The spawner loads neighbours up to this Chebyshev distance. */
  const SpawnDistance: int := 2

  /** The despawner drops chunks farther than this. */
  const DespawnDistance: real := 10000.0

  /** `std::f32::MAX`, the solver's starting minimum. */
  const F32Max: real := 340282346638528859811704183484516925440.0

  /** The default world: an empty tracker, no records, no sites. */
  const Empty: World := World({}, [], [])

  function Ids(chunks: seq<VoxelChunk>): (r: seq<ChunkId>)
    ensures |r| == |chunks| && forall k :: 0 <= k < |r| ==> r[k] == chunks[k].id
  {
    seq(|chunks|, k requires 0 <= k < |chunks| => chunks[k].id)
  }

  /** Records and tracker agree, and every fresh site knows its chunk. */
  ghost predicate Valid(w: World) {
    Synced(w.loaded, Ids(w.chunks)) && FreshHasChunk(w.sites)
  }

  /** The chunks `spawn_chunks` asks for besides a site's own. */
  function Neighborhood(c: ChunkId): seq<ChunkId> {
    Neighbors(c, SpawnDistance)
  }

  /** A fresh record for a newly spawned chunk, at distance 0. */
  function NewChunks(ids: seq<ChunkId>): (r: seq<VoxelChunk>)
    ensures Ids(r) == ids
    ensures forall k :: 0 <= k < |r| ==> r[k].distance == 0.0
  {
    seq(|ids|, k requires 0 <= k < |ids| => VoxelChunk(ids[k], 0.0))
  }

  /** `spawn_chunks`: sites that stayed in their chunk are skipped; every
      other site try-spawns its chunk and its neighbours, gets one record
      (distance 0) per chunk that was not tracked, and becomes fresh with
      its chunk remembered. Old records are kept in place. */
  function SpawnChunks(w: World): (r: World)
    ensures |r.sites| == |w.sites|
    ensures forall i :: 0 <= i < |w.sites| ==>
      r.sites[i] == if Unmoved(w.sites[i]) then w.sites[i] else Moved(w.sites[i])
    ensures forall c :: c in r.loaded <==> c in w.loaded || Wanted(w.sites, Neighborhood, c)
    ensures |w.chunks| <= |r.chunks| && r.chunks[..|w.chunks|] == w.chunks
    ensures forall k :: |w.chunks| <= k < |r.chunks| ==> r.chunks[k].distance == 0.0 && r.chunks[k].id !in w.loaded
    ensures forall c :: c in Ids(r.chunks[|w.chunks|..]) <==> c in r.loaded && c !in w.loaded
    ensures Distinct(Ids(r.chunks[|w.chunks|..]))
  {
    var s := SpawnSites(w.loaded, w.sites, Neighborhood);
    var r := World(s.0, w.chunks + NewChunks(s.1), s.2);
    assert r.chunks[|w.chunks|..] == NewChunks(s.1);
    r
  }

  /** The spawner keeps records and tracker in agreement and every fresh
      site's chunk known: no two records share an id. */
  lemma SpawnKeepsValid(w: World)
    requires Valid(w)
    ensures Valid(SpawnChunks(w))
  {
    var s := SpawnSites(w.loaded, w.sites, Neighborhood);
    assert Ids(SpawnChunks(w).chunks) == Ids(w.chunks) + s.1;
    SpawnKeepsSynced(w.loaded, Ids(w.chunks), w.sites, Neighborhood);
    SpawnKeepsFreshChunk(w.loaded, w.sites, Neighborhood);
  }

  /** After the spawner a moved site has every chunk within Chebyshev
      distance 2 of its own tracked, and is fresh with its chunk
      remembered. */
  lemma SpawnLoadsSquare(w: World, i: int, q: ChunkId)
    requires 0 <= i < |w.sites| && !Unmoved(w.sites[i])
    requires Chebyshev(ChunkSub(q, w.sites[i].at)) <= SpawnDistance
    ensures var r := SpawnChunks(w);
      q in r.loaded && r.sites[i].isFresh && r.sites[i].lastLoaded == Some(w.sites[i].at)
  {
    AroundIsSquare(w.sites[i], q);
    MovedSiteLoaded(w.loaded, w.sites, Neighborhood, i, q);
  }

  /** When no site moved the spawner changes nothing. */
  lemma SpawnSkipsUnmoved(w: World)
    requires forall i :: 0 <= i < |w.sites| ==> Unmoved(w.sites[i])
    ensures SpawnChunks(w) == w
  {
    UnmovedSpawnNothing(w.loaded, w.sites, Neighborhood);
    assert w.chunks + NewChunks([]) == w.chunks;
  }

  /** A site's own chunk and its neighbours are exactly the chunks
      within Chebyshev distance 2 of it, each listed once. */
  lemma AroundIsSquare(s: Site<ChunkId>, q: ChunkId)
    ensures q in Around(s, Neighborhood) <==> Chebyshev(ChunkSub(q, s.at)) <= SpawnDistance
    ensures Distinct(Around(s, Neighborhood))
  {
    var at := s.at;
    NeighborsWithinDistance(at, SpawnDistance, q);
    if Chebyshev(ChunkSub(q, at)) == 0 {
      assert ChunkSub(q, at) == ChunkId(0, 0);
      assert q == at;
    }
    NeighborsDistinct(at, SpawnDistance);
    NeighborsWithinDistance(at, SpawnDistance, at);
    assert at !in Neighborhood(at);
    DistinctConcat([at], Neighborhood(at));
  }

  /** Starting from the default tracker, the first tick of a new site
      creates exactly 25 records: its own chunk and the 24 around it. */
  lemma FirstSpawn(at: ChunkId)
    ensures var r := SpawnChunks(Empty.(sites := [Site(at, None, false)]));
      && |r.chunks| == 25
      && forall q :: q in r.loaded <==> Chebyshev(ChunkSub(q, at)) <= SpawnDistance
  {
    var site := Site(at, None, false);
    var w := Empty.(sites := [site]);
    var s := SpawnSites(w.loaded, w.sites, Neighborhood);
    var around := Around(site, Neighborhood);
    SingleSiteSpawn(site, Neighborhood);
    forall q ensures q in s.0 <==> Chebyshev(ChunkSub(q, at)) <= SpawnDistance {
      AroundIsSquare(site, q);
    }
    AroundIsSquare(site, at);
    SameElementsSameLength(s.1, around);
    assert |SpawnChunks(w).chunks| == |s.1|;
  }

  /** The chunks of the fresh sites, in site order; `None` when a fresh
      site has no chunk, which panics in `solve_chunks`. */
  function FreshChunks(sites: seq<Site<ChunkId>>): (r: Option<seq<ChunkId>>)
    ensures r.None? <==> exists i :: 0 <= i < |sites| && sites[i].isFresh && sites[i].lastLoaded.None?
    ensures r.Some? ==> forall c :: c in r.value <==>
      exists i :: 0 <= i < |sites| && sites[i].isFresh && sites[i].lastLoaded == Some(c)
  {
    if sites == [] then Some([])
    else
      var init := sites[..|sites| - 1];
      var last := sites[|sites| - 1];
      assert forall i :: 0 <= i < |init| ==> init[i] == sites[i];
      match FreshChunks(init)
      case None => None
      case Some(cs) =>
        if !last.isFresh then Some(cs)
        else if last.lastLoaded.None? then None
        else Some(cs + [last.lastLoaded.value])
  }

  function Min(a: real, b: real): real {
    if a <= b then a else b
  }

  /** The running minimum of `solve_chunks`, started at `f32::MAX`: the
      least distance from `id` to any of `targets`, capped at `f32::MAX`. */
  function Nearest(id: ChunkId, targets: seq<ChunkId>, dist: (ChunkId, ChunkId) -> real): (m: real)
    ensures m <= F32Max
    ensures forall k :: 0 <= k < |targets| ==> m <= dist(id, targets[k])
    ensures m == F32Max || exists k :: 0 <= k < |targets| && m == dist(id, targets[k])
  {
    if targets == [] then F32Max
    else Min(dist(id, targets[|targets| - 1]), Nearest(id, targets[..|targets| - 1], dist))
  }

  /** `solve_chunks`. With no fresh site it returns at once. Otherwise
      every record's distance becomes its distance to the nearest fresh
      site (capped at `f32::MAX`) and the fresh sites are settled. Both
      happen inside the record loop: with no records the sites stay
      fresh, and the `expect` on a fresh site without a chunk panics
      (`None`) only when there is a record. */
  method SolveChunks(w: World, dist: (ChunkId, ChunkId) -> real) returns (r: Option<World>)
    ensures r.None? <==> w.chunks != [] && FreshChunks(w.sites).None?
    ensures r.Some? && (w.chunks == [] || forall i :: 0 <= i < |w.sites| ==> !w.sites[i].isFresh) ==> r.value == w
    ensures r.Some? && w.chunks != [] && (exists i :: 0 <= i < |w.sites| && w.sites[i].isFresh) ==>
      && r.value.loaded == w.loaded
      && |r.value.chunks| == |w.chunks|
      && (forall k :: 0 <= k < |w.chunks| ==>
            r.value.chunks[k] == VoxelChunk(w.chunks[k].id, Nearest(w.chunks[k].id, FreshChunks(w.sites).value, dist)))
      && |r.value.sites| == |w.sites|
      && forall i :: 0 <= i < |w.sites| ==> r.value.sites[i] == Settled(w.sites[i])
  {
    var anyFresh := exists i :: 0 <= i < |w.sites| && w.sites[i].isFresh;
    if !anyFresh || w.chunks == [] {
      return Some(w);
    }
    var freshChunks := FreshChunks(w.sites);
    if freshChunks.None? {
      return None;
    }
    var targets := freshChunks.value;
    var solved: seq<VoxelChunk> := [];
    var k := 0;
    while k < |w.chunks|
      invariant 0 <= k <= |w.chunks|
      invariant |solved| == k
      invariant forall t :: 0 <= t < k ==> solved[t] == VoxelChunk(w.chunks[t].id, Nearest(w.chunks[t].id, targets, dist))
    {
      var id := w.chunks[k].id;
      var m := F32Max;
      var j := 0;
      while j < |targets|
        invariant 0 <= j <= |targets|
        invariant m == Nearest(id, targets[..j], dist)
      {
        assert targets[..j + 1][..j] == targets[..j];
        m := Min(dist(id, targets[j]), m);
        j := j + 1;
      }
      assert targets[..|targets|] == targets;
      solved := solved + [VoxelChunk(id, m)];
      k := k + 1;
    }
    var settled := seq(|w.sites|, i requires 0 <= i < |w.sites| => Settled(w.sites[i]));
    return Some(World(w.loaded, solved, settled));
  }

  /** `despawn_chunks`: in query order, a record farther than 10000 is
      dropped when `try_despawn` of its id succeeds; `try_despawn` is only
      tried for far records. */
  function Despawn(loaded: set<ChunkId>, chunks: seq<VoxelChunk>): (r: (set<ChunkId>, seq<VoxelChunk>))
    ensures r.0 <= loaded
    ensures forall x :: x in r.1 ==> x in chunks
    ensures forall k :: 0 <= k < |chunks| && chunks[k].distance <= DespawnDistance ==> chunks[k] in r.1
    ensures forall c :: c in loaded && c !in r.0 ==> exists k :: 0 <= k < |chunks| && chunks[k].id == c && chunks[k].distance > DespawnDistance
  {
    if chunks == [] then (loaded, [])
    else
      var init := chunks[..|chunks| - 1];
      var last := chunks[|chunks| - 1];
      var before := Despawn(loaded, init);
      assert forall k :: 0 <= k < |init| ==> init[k] == chunks[k];
      if last.distance > DespawnDistance then
        var t := TryDespawn(before.0, last.id);
        if t.0 then (t.1, before.1) else (before.0, before.1 + [last])
      else
        (before.0, before.1 + [last])
  }

  /** The records the despawner keeps when records and tracker agree. */
  function Near(chunks: seq<VoxelChunk>): (r: seq<VoxelChunk>)
    ensures forall x :: x in r <==> x in chunks && x.distance <= DespawnDistance
  {
    if chunks == [] then []
    else
      var init := Near(chunks[..|chunks| - 1]);
      var last := chunks[|chunks| - 1];
      assert chunks == chunks[..|chunks| - 1] + [last];
      if last.distance <= DespawnDistance then init + [last] else init
  }

  /** Some record of `c` is far enough to be despawned. */
  ghost predicate Far(chunks: seq<VoxelChunk>, c: ChunkId) {
    exists k :: 0 <= k < |chunks| && chunks[k].id == c && chunks[k].distance > DespawnDistance
  }

  lemma FarSplit(chunks: seq<VoxelChunk>, c: ChunkId)
    requires chunks != []
    ensures var init, last := chunks[..|chunks| - 1], chunks[|chunks| - 1];
      Far(chunks, c) <==> Far(init, c) || (last.id == c && last.distance > DespawnDistance)
  {
    var init := chunks[..|chunks| - 1];
    if Far(chunks, c) {
      var k :| 0 <= k < |chunks| && chunks[k].id == c && chunks[k].distance > DespawnDistance;
      if k < |init| {
        assert init[k] == chunks[k];
      }
    }
    if Far(init, c) {
      var k :| 0 <= k < |init| && init[k].id == c && init[k].distance > DespawnDistance;
      assert chunks[k] == init[k];
    }
  }

  /** The last record's id occurs in no earlier record. */
  lemma LastIdFresh(chunks: seq<VoxelChunk>)
    requires chunks != [] && Distinct(Ids(chunks))
    ensures var init, last := chunks[..|chunks| - 1], chunks[|chunks| - 1];
      Distinct(Ids(init)) && forall k :: 0 <= k < |init| ==> init[k].id != last.id
  {
    var init := chunks[..|chunks| - 1];
    assert Ids(init) == Ids(chunks)[..|init|];
    forall k | 0 <= k < |init| ensures init[k].id != chunks[|chunks| - 1].id {
      assert Ids(chunks)[k] != Ids(chunks)[|chunks| - 1];
    }
  }

  /** With distinct record ids, all tracked, the despawner keeps exactly
      the near records and untracks exactly the ids of far records. */
  lemma {:induction false} DespawnSynced(loaded: set<ChunkId>, chunks: seq<VoxelChunk>)
    requires Distinct(Ids(chunks)) && forall k :: 0 <= k < |chunks| ==> chunks[k].id in loaded
    ensures var r := Despawn(loaded, chunks);
      && r.1 == Near(chunks)
      && forall c :: c in r.0 <==> c in loaded && !Far(chunks, c)
  {
    if chunks != [] {
      var init := chunks[..|chunks| - 1];
      var last := chunks[|chunks| - 1];
      LastIdFresh(chunks);
      DespawnSynced(loaded, init);
      var before := Despawn(loaded, init);
      assert !Far(init, last.id);
      assert last.id in before.0;
      forall c ensures Far(chunks, c) <==> Far(init, c) || (last.id == c && last.distance > DespawnDistance) {
        FarSplit(chunks, c);
      }
    }
  }

  /** The near records of distinct ids have distinct ids: exactly the ids
      of near records. */
  lemma {:induction false} NearDistinct(chunks: seq<VoxelChunk>)
    requires Distinct(Ids(chunks))
    ensures Distinct(Ids(Near(chunks)))
    ensures forall c :: c in Ids(Near(chunks)) <==> c in Ids(chunks) && !Far(chunks, c)
  {
    if chunks != [] {
      var init := chunks[..|chunks| - 1];
      var last := chunks[|chunks| - 1];
      LastIdFresh(chunks);
      NearDistinct(init);
      assert Ids(chunks) == Ids(init) + [last.id];
      assert Ids(Near(init) + [last]) == Ids(Near(init)) + [last.id];
      assert last.id !in Ids(init);
      DistinctConcat(Ids(Near(init)), [last.id]);
      forall c ensures Far(chunks, c) <==> Far(init, c) || (last.id == c && last.distance > DespawnDistance) {
        FarSplit(chunks, c);
      }
      forall c | Far(init, c) ensures c in Ids(init) {
        var k :| 0 <= k < |init| && init[k].id == c && init[k].distance > DespawnDistance;
        assert Ids(init)[k] == c;
      }
    }
  }

  /** The despawner keeps records and tracker in agreement. */
  lemma DespawnKeepsSynced(loaded: set<ChunkId>, chunks: seq<VoxelChunk>)
    requires Synced(loaded, Ids(chunks))
    ensures var r := Despawn(loaded, chunks);
      Synced(r.0, Ids(r.1))
  {
    forall k | 0 <= k < |chunks| ensures chunks[k].id in loaded {
      assert Ids(chunks)[k] == chunks[k].id;
    }
    DespawnSynced(loaded, chunks);
    NearDistinct(chunks);
  }

  /** The buffer `load_voxels` builds for a chunk before the generator
      fills it: one `Air` entry for each voxel of the chunk, so it has
      `F * F * chunk_voxel_height` entries and its keys are exactly the
      voxels that `voxel_to_chunk` sends back to the chunk. */
  function VoxelBuffer(l: Layout, c: ChunkId): (m: map<VoxelId, VoxelType>)
    ensures forall v :: v in m <==> l.chunkVoxelLength >= 0 && VoxelToChunk(l, v) == c && 0 <= v.y < l.chunkVoxelHeight
    ensures forall v :: v in m ==> m[v] == Air
    ensures |m| == Nat(FullLength(l)) * (Nat(FullLength(l)) * Nat(l.chunkVoxelHeight))
  {
    var vs := ChunkVoxels(l, c);
    var m := map v | v in vs :: Air;
    assert m.Keys == set v | v in vs;
    DistinctCardinality(vs);
    m
  }
}
