/** The old hex terrain: chunks are hex coordinates, the spawner loads a
    site's chunk and its ring-1 neighbours, the solver measures
    `distance_step` from the last fresh site, two loaders mark records
    loaded, and the despawner drops far records. The despawner never
    tells the tracker, so a dropped chunk stays tracked and is never
    spawned again; `ChunkDespawnerCorrected` is the despawner that keeps
    the two in step. */
module TerrainOld {
  import opened Wrappers
  import opened Seqs
  import opened Tracker
  import opened Streaming
  import opened Hex

  /** The default tracker's despawn threshold. */
  const DefaultMinDespawnDistance: int := 5

  /** The neighbour distance the spawner asks for. */
  const SpawnDistance: int := 1

  /** The default tracker: nothing loaded. */
  function DefaultTracker(): (t: TrackerState<HexCoord>)
    ensures t.loaded == {}
    ensures t.minDespawnDistance == DefaultMinDespawnDistance
  {
    TrackerState({}, 5)
  }

  /** `HexVoxelChunkComponent`; its voxels, height and radius are not
      modelled. */
  datatype VoxelComponent = VoxelComponent(loaded: bool)

  /** A chunk entity: its `ChunkComponent` and its voxel component. */
  datatype Entity = Entity(chunk: Chunk<HexCoord>, voxel: VoxelComponent)

  datatype World = World(tracker: TrackerState<HexCoord>, entities: seq<Entity>, sites: seq<Site<HexCoord>>)

  function Chunks(es: seq<Entity>): (r: seq<Chunk<HexCoord>>)
    ensures |r| == |es| && forall k :: 0 <= k < |r| ==> r[k] == es[k].chunk
  {
    seq(|es|, k requires 0 <= k < |es| => es[k].chunk)
  }

  function Ids(es: seq<Entity>): (r: seq<HexCoord>)
    ensures |r| == |es| && forall k :: 0 <= k < |r| ==> r[k] == es[k].chunk.id
  {
    seq(|es|, k requires 0 <= k < |es| => es[k].chunk.id)
  }

  lemma IdsConcat(a: seq<Entity>, b: seq<Entity>)
    ensures Ids(a + b) == Ids(a) + Ids(b)
  {
  }

  /** Records and tracker agree, and every fresh site knows its chunk. */
  ghost predicate Valid(w: World) {
    Synced(w.tracker.loaded, Ids(w.entities)) && FreshHasChunk(w.sites)
  }

  /** The layout's neighbours of a chunk, `get_neighbors(c, 1)`, which
      adds the ring offsets with the hex `Add` as written. */
  function Neighborhood(c: HexCoord): seq<HexCoord> {
    GetNeighbors(c, SpawnDistance)
  }

  /** Entities for newly spawned chunks: a record at distance 0, not
      loaded, and a default (unloaded) voxel component. */
  function NewEntities(ids: seq<HexCoord>): (r: seq<Entity>)
    ensures Ids(r) == ids
    ensures forall k :: 0 <= k < |r| ==> r[k] == Entity(Chunk(ids[k], 0, false), VoxelComponent(false))
  {
    seq(|ids|, k requires 0 <= k < |ids| => Entity(Chunk(ids[k], 0, false), VoxelComponent(false)))
  }

  /** `chunk_spawner`. */
  function ChunkSpawner(w: World): (r: World)
    ensures r.tracker.minDespawnDistance == w.tracker.minDespawnDistance
    ensures forall c :: c in r.tracker.loaded <==> c in w.tracker.loaded || Wanted(w.sites, Neighborhood, c)
    ensures |w.entities| <= |r.entities| && r.entities[..|w.entities|] == w.entities
    ensures forall k :: |w.entities| <= k < |r.entities| ==>
      r.entities[k] == Entity(Chunk(r.entities[k].chunk.id, 0, false), VoxelComponent(false))
      && r.entities[k].chunk.id !in w.tracker.loaded
    ensures forall c :: c in Ids(r.entities[|w.entities|..]) <==> c in r.tracker.loaded && c !in w.tracker.loaded
    ensures Distinct(Ids(r.entities[|w.entities|..]))
    ensures |r.sites| == |w.sites|
    ensures forall i :: 0 <= i < |w.sites| ==>
      r.sites[i] == if Unmoved(w.sites[i]) then w.sites[i] else Moved(w.sites[i])
  {
    var s := SpawnSites(w.tracker.loaded, w.sites, Neighborhood);
    var r := World(w.tracker.(loaded := s.0), w.entities + NewEntities(s.1), s.2);
    assert r.entities[|w.entities|..] == NewEntities(s.1);
    r
  }

  /** A moved site ends up fresh, remembering its chunk, with that chunk
      and its six neighbours tracked. */
  lemma SpawnerLoadsAround(w: World, i: int, k: int)
    requires 0 <= i < |w.sites| && !Unmoved(w.sites[i])
    requires 0 <= k < |NeighborOffsets(SpawnDistance)|
    ensures var r := ChunkSpawner(w);
      && w.sites[i].at in r.tracker.loaded
      && Add(w.sites[i].at, NeighborOffsets(SpawnDistance)[k]) in r.tracker.loaded
      && r.sites[i].isFresh && r.sites[i].lastLoaded == Some(w.sites[i].at)
  {
    var at := w.sites[i].at;
    assert at in Around(w.sites[i], Neighborhood);
    MovedSiteLoaded(w.tracker.loaded, w.sites, Neighborhood, i, at);
    assert Neighborhood(at)[k] == Add(at, NeighborOffsets(SpawnDistance)[k]);
    assert Add(at, NeighborOffsets(SpawnDistance)[k]) in Around(w.sites[i], Neighborhood);
    MovedSiteLoaded(w.tracker.loaded, w.sites, Neighborhood, i, Add(at, NeighborOffsets(SpawnDistance)[k]));
  }

  /** Because of the hex `Add`, a site whose chunk has a non-zero third
      coordinate tracks neighbours that are not hex coordinates at all. */
  lemma SpawnerNeighborsOffGrid(w: World, i: int, k: int)
    requires 0 <= i < |w.sites| && ZeroSum(w.sites[i].at) && w.sites[i].at.z != 0
    requires 0 <= k < |NeighborOffsets(SpawnDistance)|
    requires NeighborOffsets(SpawnDistance)[k].z != w.sites[i].at.z
    ensures !ZeroSum(Add(w.sites[i].at, NeighborOffsets(SpawnDistance)[k]))
  {
  }

  /** The spawner keeps records and tracker in agreement. */
  lemma SpawnerKeepsValid(w: World)
    requires Valid(w)
    ensures Valid(ChunkSpawner(w))
  {
    var s := SpawnSites(w.tracker.loaded, w.sites, Neighborhood);
    IdsConcat(w.entities, NewEntities(s.1));
    SpawnKeepsSynced(w.tracker.loaded, Ids(w.entities), w.sites, Neighborhood);
    SpawnKeepsFreshChunk(w.tracker.loaded, w.sites, Neighborhood);
  }

  /** The solver's distance: `last_loaded.distance_step(center)`. */
  function SiteDistance(center: HexCoord, site: HexCoord): int {
    DistanceStep(site, center)
  }

  /** `chunk_solver`: the last fresh site sets every record's distance to
      its hex distance from the record's chunk; every site is settled; a
      fresh site without a chunk panics (`None`) when there is a record.
      Tracker and voxel components are untouched. */
  function ChunkSolver(w: World): (r: Option<World>)
    ensures r.None? <==> w.entities != [] && exists i :: 0 <= i < |w.sites| && w.sites[i].isFresh && w.sites[i].lastLoaded.None?
    ensures r.Some? ==> r.value.tracker == w.tracker && |r.value.entities| == |w.entities|
    ensures r.Some? ==> forall k :: 0 <= k < |w.entities| ==>
      && r.value.entities[k].voxel == w.entities[k].voxel
      && r.value.entities[k].chunk.id == w.entities[k].chunk.id
      && r.value.entities[k].chunk.loaded == w.entities[k].chunk.loaded
      && r.value.entities[k].chunk.distance == match LastFresh(w.sites)
        case None => w.entities[k].chunk.distance
        case Some(j) => DistanceStep(w.sites[j].lastLoaded.value, w.entities[k].chunk.id)
    ensures r.Some? ==> |r.value.sites| == |w.sites| && forall i :: 0 <= i < |w.sites| ==> r.value.sites[i] == Settled(w.sites[i])
  {
    match SolveLastWins(Chunks(w.entities), w.sites, SiteDistance)
    case None => None
    case Some(s) =>
      var es := seq(|w.entities|, k requires 0 <= k < |w.entities| => w.entities[k].(chunk := s.0[k]));
      Some(World(w.tracker, es, s.1))
  }

  /** The solver keeps the world valid. */
  lemma SolverKeepsValid(w: World)
    requires Valid(w)
    ensures ChunkSolver(w).Some? && Valid(ChunkSolver(w).value)
  {
    var r := ChunkSolver(w).value;
    assert Ids(r.entities) == Ids(w.entities);
  }

  /** `chunk_voxel_loader`: every voxel component not yet loaded is marked
      loaded; nothing else changes. */
  function ChunkVoxelLoader(w: World): (r: World)
    ensures r.tracker == w.tracker && r.sites == w.sites && |r.entities| == |w.entities|
    ensures forall k :: 0 <= k < |w.entities| ==>
      r.entities[k].chunk == w.entities[k].chunk && r.entities[k].voxel.loaded
  {
    var es := seq(|w.entities|, k requires 0 <= k < |w.entities| =>
      if w.entities[k].voxel.loaded then w.entities[k] else w.entities[k].(voxel := VoxelComponent(true)));
    w.(entities := es)
  }

  /** Running the voxel loader twice is running it once. */
  lemma ChunkVoxelLoaderIdempotent(w: World)
    ensures ChunkVoxelLoader(ChunkVoxelLoader(w)) == ChunkVoxelLoader(w)
  {
    var once := ChunkVoxelLoader(w);
    assert ChunkVoxelLoader(once).entities == once.entities;
  }

  /** `chunk_loader`: every record not yet loaded is marked loaded;
      nothing else changes. */
  function ChunkLoader(w: World): (r: World)
    ensures r.tracker == w.tracker && r.sites == w.sites && |r.entities| == |w.entities|
    ensures forall k :: 0 <= k < |w.entities| ==>
      && r.entities[k].voxel == w.entities[k].voxel
      && r.entities[k].chunk == w.entities[k].chunk.(loaded := true)
  {
    var es := seq(|w.entities|, k requires 0 <= k < |w.entities| =>
      if w.entities[k].chunk.loaded then w.entities[k] else w.entities[k].(chunk := w.entities[k].chunk.(loaded := true)));
    w.(entities := es)
  }

  /** Running the loader twice is running it once. */
  lemma ChunkLoaderIdempotent(w: World)
    ensures ChunkLoader(ChunkLoader(w)) == ChunkLoader(w)
  {
    var once := ChunkLoader(w);
    assert ChunkLoader(once).entities == once.entities;
  }

  /** The entities the despawner keeps: those not farther than the
      threshold. */
  function Keep(es: seq<Entity>, limit: int): (r: seq<Entity>)
    ensures forall e :: e in r <==> e in es && e.chunk.distance <= limit
  {
    if es == [] then []
    else
      var init := Keep(es[..|es| - 1], limit);
      var last := es[|es| - 1];
      assert es == es[..|es| - 1] + [last];
      if last.chunk.distance <= limit then init + [last] else init
  }

  /** `chunk_despawner` as written: when the despawn timer has finished,
      entities farther than `min_despawn_distance` are despawned, but
      their ids stay in the tracker. */
  function ChunkDespawner(w: World, timerFinished: bool): (r: World)
    ensures r.tracker == w.tracker && r.sites == w.sites
    ensures forall e :: e in r.entities <==> e in w.entities && (!timerFinished || e.chunk.distance <= w.tracker.minDespawnDistance)
  {
    if timerFinished then w.(entities := Keep(w.entities, w.tracker.minDespawnDistance)) else w
  }

  /** Once the despawner dropped a far chunk, the chunk stays tracked
      without a record, and no later spawner tick gives it a record
      again, whatever the sites do. */
  lemma DespawnedChunkLost(w: World, k: int)
    requires Valid(w) && 0 <= k < |w.entities|
    requires w.entities[k].chunk.distance > w.tracker.minDespawnDistance
    ensures var c, d := w.entities[k].chunk.id, ChunkDespawner(w, true);
      && c in d.tracker.loaded
      && c !in Ids(d.entities)
      && c !in Ids(ChunkSpawner(d).entities)
  {
    var c := w.entities[k].chunk.id;
    var d := ChunkDespawner(w, true);
    assert Ids(w.entities)[k] == c;
    assert c !in Ids(d.entities) by {
      forall j | 0 <= j < |d.entities| ensures Ids(d.entities)[j] != c {
        var e := d.entities[j];
        assert e in w.entities;
        var m :| 0 <= m < |w.entities| && w.entities[m] == e;
        assert Ids(w.entities)[m] == e.chunk.id;
        assert m != k;
      }
    }
    var r := ChunkSpawner(d);
    forall j | 0 <= j < |r.entities| ensures Ids(r.entities)[j] != c {
      if j < |d.entities| {
        assert r.entities[j] == d.entities[j];
        assert Ids(d.entities)[j] == r.entities[j].chunk.id;
      }
    }
  }

  /** The despawner as evidently intended (the form the generic terrain
      plugin has commented out): a far entity is despawned together with
      its id. */
  function ChunkDespawnerCorrected(w: World, timerFinished: bool): (r: World)
    ensures r.sites == w.sites && r.tracker.minDespawnDistance == w.tracker.minDespawnDistance
    ensures forall e :: e in r.entities <==> e in w.entities && (!timerFinished || e.chunk.distance <= w.tracker.minDespawnDistance)
    ensures r.tracker.loaded <= w.tracker.loaded
  {
    if !timerFinished then w
    else
      var kept := Keep(w.entities, w.tracker.minDespawnDistance);
      var far := set e | e in w.entities && e.chunk.distance > w.tracker.minDespawnDistance :: e.chunk.id;
      World(w.tracker.(loaded := w.tracker.loaded - far), kept, w.sites)
  }

  /** The corrected despawner keeps records and tracker in agreement, so
      a site coming back respawns the chunk. */
  lemma CorrectedKeepsValid(w: World, timerFinished: bool)
    requires Valid(w)
    ensures Valid(ChunkDespawnerCorrected(w, timerFinished))
  {
    if timerFinished {
      var r := ChunkDespawnerCorrected(w, true);
      KeepDistinct(w.entities, w.tracker.minDespawnDistance);
      forall c ensures c in r.tracker.loaded <==> c in Ids(r.entities) {
        if c in Ids(r.entities) {
          KeptIsTracked(w, c);
        }
        if c in r.tracker.loaded {
          TrackedIsKept(w, c);
        }
      }
    }
  }

  lemma KeptIsTracked(w: World, c: HexCoord)
    requires Valid(w)
    requires c in Ids(ChunkDespawnerCorrected(w, true).entities)
    ensures c in ChunkDespawnerCorrected(w, true).tracker.loaded
  {
    var limit := w.tracker.minDespawnDistance;
    var r := ChunkDespawnerCorrected(w, true);
    var ids := Ids(w.entities);
    var j :| 0 <= j < |r.entities| && Ids(r.entities)[j] == c;
    var e := r.entities[j];
    var m :| 0 <= m < |w.entities| && w.entities[m] == e;
    assert ids[m] == c;
    forall e' | e' in w.entities && e'.chunk.distance > limit ensures e'.chunk.id != c {
      var m' :| 0 <= m' < |w.entities| && w.entities[m'] == e';
      assert ids[m'] == e'.chunk.id;
    }
  }

  lemma TrackedIsKept(w: World, c: HexCoord)
    requires Valid(w)
    requires c in ChunkDespawnerCorrected(w, true).tracker.loaded
    ensures c in Ids(ChunkDespawnerCorrected(w, true).entities)
  {
    var r := ChunkDespawnerCorrected(w, true);
    var m :| 0 <= m < |w.entities| && Ids(w.entities)[m] == c;
    var e := w.entities[m];
    assert e in r.entities;
    var j :| 0 <= j < |r.entities| && r.entities[j] == e;
    assert Ids(r.entities)[j] == c;
  }

  /** Kept entities of distinct ids have distinct ids. */
  lemma {:induction false} KeepDistinct(es: seq<Entity>, limit: int)
    requires Distinct(Ids(es))
    ensures Distinct(Ids(Keep(es, limit)))
  {
    if es != [] {
      var init := es[..|es| - 1];
      var last := es[|es| - 1];
      var ids := Ids(es);
      assert Ids(init) == ids[..|init|];
      KeepDistinct(init, limit);
      if last.chunk.distance <= limit {
        var kept := Keep(init, limit);
        assert Ids(kept + [last]) == Ids(kept) + [last.chunk.id];
        assert last.chunk.id !in Ids(kept) by {
          forall j | 0 <= j < |kept| ensures Ids(kept)[j] != last.chunk.id {
            assert kept[j] in init;
            var m :| 0 <= m < |init| && init[m] == kept[j];
            assert ids[m] != ids[|es| - 1];
          }
        }
        DistinctConcat(Ids(kept), [last.chunk.id]);
      }
    }
  }
}
