/** The per-tick chunk-streaming steps shared by the terrain plugins:
    the chunk spawner, which loads the neighbourhood of every site that
    entered a new chunk, and the "last site wins" distance solver of the
    generic terrain plugin and of the old hex terrain. Chunk ids are
    generic; each plugin supplies its layout's neighbourhood and distance
    as functions. */
module Streaming {
  import opened Wrappers
  import opened Seqs
  import opened Tracker

  /** A chunk site (`ChunkSpawner` / `ChunkSiteComponent`). `at` is the
      chunk under the site's transform, as the layout's `space_to_chunk`
      computes it this tick. */
  datatype Site<C> = Site(at: C, lastLoaded: Option<C>, isFresh: bool)

  /** A chunk record (`ChunkComponent`) of the generic and the old hex
      terrain. The creation instant is not modelled. */
  datatype Chunk<C> = Chunk(id: C, distance: int, loaded: bool)

  function ChunkIds<C>(chunks: seq<Chunk<C>>): (r: seq<C>)
    ensures |r| == |chunks| && forall k :: 0 <= k < |r| ==> r[k] == chunks[k].id
  {
    seq(|chunks|, k requires 0 <= k < |chunks| => chunks[k].id)
  }

  /** The records the spawner creates for newly spawned ids: distance 0,
      not loaded. */
  function NewRecords<C>(ids: seq<C>): (r: seq<Chunk<C>>)
    ensures ChunkIds(r) == ids
    ensures forall k :: 0 <= k < |r| ==> r[k].distance == 0 && !r[k].loaded
  {
    seq(|ids|, k requires 0 <= k < |ids| => Chunk(ids[k], 0, false))
  }

  /** The spawner skips a site that has not left the chunk it last loaded
      around; `fresh` plays no part in the test. */
  predicate Unmoved<C(==)>(s: Site<C>) {
    s.lastLoaded == Some(s.at)
  }

  /** A site after the spawner handled its move. */
  function Moved<C>(s: Site<C>): Site<C> {
    Site(s.at, Some(s.at), true)
  }

  /** The chunks a moved site asks for: its own chunk, then the layout's
      neighbours of it. */
  function Around<C>(s: Site<C>, neighbors: C -> seq<C>): seq<C> {
    [s.at] + neighbors(s.at)
  }

  /** Chunk `c` is asked for by some site that moved. */
  ghost predicate Wanted<C(!new)>(sites: seq<Site<C>>, neighbors: C -> seq<C>, c: C) {
    exists i :: 0 <= i < |sites| && !Unmoved(sites[i]) && c in Around(sites[i], neighbors)
  }

  /** A fresh site always knows the chunk it loaded around. */
  ghost predicate FreshHasChunk<C>(sites: seq<Site<C>>) {
    forall i :: 0 <= i < |sites| ==> sites[i].isFresh ==> sites[i].lastLoaded.Some?
  }

  /** `chunk_spawner`: visits the sites in order, try-spawning the
      neighbourhood of each moved one. The answer is the grown tracker,
      the ids that got a new record (in spawn order), and the updated
      sites: moved sites are marked fresh and remember their chunk, the
      others are left exactly as they were. */
  function SpawnSites<C(!new)>(loaded: set<C>, sites: seq<Site<C>>, neighbors: C -> seq<C>): (r: (set<C>, seq<C>, seq<Site<C>>))
    ensures |r.2| == |sites|
    ensures forall i :: 0 <= i < |sites| ==> r.2[i] == if Unmoved(sites[i]) then sites[i] else Moved(sites[i])
    ensures forall c :: c in r.0 <==> c in loaded || Wanted(sites, neighbors, c)
    ensures forall c :: c in r.1 <==> c in r.0 && c !in loaded
    ensures Distinct(r.1)
    decreases |sites|
  {
    if sites == [] then (loaded, [], [])
    else
      var init := sites[..|sites| - 1];
      var last := sites[|sites| - 1];
      var before := SpawnSites(loaded, init, neighbors);
      WantedSplit(sites, neighbors);
      if Unmoved(last) then
        (before.0, before.1, before.2 + [last])
      else
        var step := SpawnAll(before.0, Around(last, neighbors));
        DistinctConcat(before.1, step.1);
        (step.0, before.1 + step.1, before.2 + [Moved(last)])
  }

  /** Wanted by all sites is wanted by the earlier ones or by the last. */
  lemma WantedSplit<C(!new)>(sites: seq<Site<C>>, neighbors: C -> seq<C>)
    requires sites != []
    ensures var init, last := sites[..|sites| - 1], sites[|sites| - 1];
      forall c :: Wanted(sites, neighbors, c) <==>
        Wanted(init, neighbors, c) || (!Unmoved(last) && c in Around(last, neighbors))
  {
    var init, last := sites[..|sites| - 1], sites[|sites| - 1];
    forall c | Wanted(sites, neighbors, c)
      ensures Wanted(init, neighbors, c) || (!Unmoved(last) && c in Around(last, neighbors))
    {
      var i :| 0 <= i < |sites| && !Unmoved(sites[i]) && c in Around(sites[i], neighbors);
      if i < |init| {
        assert init[i] == sites[i];
      }
    }
    forall c | Wanted(init, neighbors, c) ensures Wanted(sites, neighbors, c) {
      var i :| 0 <= i < |init| && !Unmoved(init[i]) && c in Around(init[i], neighbors);
      assert sites[i] == init[i];
    }
  }

  /** After the spawner, every site that moved has its own chunk and all
      of its neighbours tracked, is fresh and remembers its chunk. */
  lemma MovedSiteLoaded<C(!new)>(loaded: set<C>, sites: seq<Site<C>>, neighbors: C -> seq<C>, i: int, c: C)
    requires 0 <= i < |sites| && !Unmoved(sites[i])
    requires c in Around(sites[i], neighbors)
    ensures var r := SpawnSites(loaded, sites, neighbors);
      c in r.0 && r.2[i].isFresh && r.2[i].lastLoaded == Some(sites[i].at)
  {
  }

  /** When no site moved the spawner touches neither the tracker nor the
      sites and spawns nothing. */
  lemma {:induction false} UnmovedSpawnNothing<C(!new)>(loaded: set<C>, sites: seq<Site<C>>, neighbors: C -> seq<C>)
    requires forall i :: 0 <= i < |sites| ==> Unmoved(sites[i])
    ensures SpawnSites(loaded, sites, neighbors) == (loaded, [], sites)
    decreases |sites|
  {
    if sites != [] {
      var init := sites[..|sites| - 1];
      UnmovedSpawnNothing(loaded, init, neighbors);
      assert init + [sites[|sites| - 1]] == sites;
    }
  }

  /** A lone site that moved, on an empty tracker, spawns exactly its
      own chunk and its neighbours. */
  lemma SingleSiteSpawn<C(!new)>(site: Site<C>, neighbors: C -> seq<C>)
    requires !Unmoved(site)
    ensures var r := SpawnSites({}, [site], neighbors);
      forall c :: c in r.1 <==> c in Around(site, neighbors)
  {
    var r := SpawnSites({}, [site], neighbors);
    forall c ensures c in r.1 <==> c in Around(site, neighbors) {
      if c in Around(site, neighbors) {
        assert !Unmoved([site][0]) && c in Around([site][0], neighbors);
      }
    }
  }

  /** The spawner keeps every fresh site's chunk known. */
  lemma SpawnKeepsFreshChunk<C(!new)>(loaded: set<C>, sites: seq<Site<C>>, neighbors: C -> seq<C>)
    requires FreshHasChunk(sites)
    ensures FreshHasChunk(SpawnSites(loaded, sites, neighbors).2)
  {
  }

  /** Spawning keeps the records in step with the tracker when one record
      is appended per newly spawned id. */
  lemma SpawnKeepsSynced<C(!new)>(loaded: set<C>, ids: seq<C>, sites: seq<Site<C>>, neighbors: C -> seq<C>)
    requires Synced(loaded, ids)
    ensures var r := SpawnSites(loaded, sites, neighbors);
      Synced(r.0, ids + r.1)
  {
    var r := SpawnSites(loaded, sites, neighbors);
    AppendSpawned(loaded, ids, r.0, r.1);
  }

  /** Index of the last fresh site, which decides the distances under
      "last site wins". */
  function LastFresh<C>(sites: seq<Site<C>>): (r: Option<nat>)
    ensures r.Some? ==> r.value < |sites| && sites[r.value].isFresh
    ensures r.Some? ==> forall j :: r.value < j < |sites| ==> !sites[j].isFresh
    ensures r.None? ==> forall j :: 0 <= j < |sites| ==> !sites[j].isFresh
  {
    if sites == [] then None
    else if sites[|sites| - 1].isFresh then Some(|sites| - 1)
    else LastFresh(sites[..|sites| - 1])
  }

  /** Every record's distance recomputed against `target`. */
  function Measure<C>(chunks: seq<Chunk<C>>, target: C, dist: (C, C) -> int): (r: seq<Chunk<C>>)
    ensures |r| == |chunks|
    ensures forall k :: 0 <= k < |r| ==> r[k] == chunks[k].(distance := dist(chunks[k].id, target))
  {
    seq(|chunks|, k requires 0 <= k < |chunks| => chunks[k].(distance := dist(chunks[k].id, target)))
  }

  /** The site after the solver looked at it. */
  function Settled<C>(s: Site<C>): Site<C> {
    s.(isFresh := false)
  }

  /** `chunk_solver` of the generic and the old hex terrain: for each
      fresh site in order, clear `fresh` and overwrite every record's
      distance with the distance to that site's chunk. The chunk is read
      with `unwrap` inside the record loop, so a fresh site without one
      panics (`None`) exactly when there is a record to measure.
      Otherwise every site ends up settled and the last fresh site alone
      decides every distance; with no fresh site nothing changes. */
  function SolveLastWins<C>(chunks: seq<Chunk<C>>, sites: seq<Site<C>>, dist: (C, C) -> int): (r: Option<(seq<Chunk<C>>, seq<Site<C>>)>)
    ensures r.None? <==> chunks != [] && exists i :: 0 <= i < |sites| && sites[i].isFresh && sites[i].lastLoaded.None?
    ensures r.Some? ==> |r.value.1| == |sites| && forall i :: 0 <= i < |sites| ==> r.value.1[i] == Settled(sites[i])
    ensures r.Some? ==> r.value.0 == match LastFresh(sites)
      case None => chunks
      case Some(j) => if chunks == [] then [] else Measure(chunks, sites[j].lastLoaded.value, dist)
    decreases |sites|
  {
    if sites == [] then Some((chunks, []))
    else
      var init := sites[..|sites| - 1];
      var last := sites[|sites| - 1];
      assert forall i :: 0 <= i < |init| ==> init[i] == sites[i];
      match SolveLastWins(chunks, init, dist)
      case None => None
      case Some(before) =>
        if !last.isFresh then
          Some((before.0, before.1 + [last]))
        else if before.0 != [] && last.lastLoaded.None? then
          None
        else if before.0 == [] then
          Some((before.0, before.1 + [Settled(last)]))
        else
          Some((Measure(before.0, last.lastLoaded.value, dist), before.1 + [Settled(last)]))
  }

  /** With every fresh site knowing its chunk the solver never panics, and
      afterwards no site is fresh. */
  lemma SolveLastWinsSettles<C>(chunks: seq<Chunk<C>>, sites: seq<Site<C>>, dist: (C, C) -> int)
    requires FreshHasChunk(sites)
    ensures var r := SolveLastWins(chunks, sites, dist);
      r.Some? && forall i :: 0 <= i < |r.value.1| ==> !r.value.1[i].isFresh
  {
  }

  /** The solver is not a minimum: with two fresh sites the later one
      sets the distance even when the earlier one is nearer. */
  lemma LastSiteWins<C>(chunk: Chunk<C>, near: C, far: C, dist: (C, C) -> int)
    requires dist(chunk.id, near) < dist(chunk.id, far)
    ensures var sites := [Site(near, Some(near), true), Site(far, Some(far), true)];
      var r := SolveLastWins([chunk], sites, dist);
      r.Some? && r.value.0[0].distance == dist(chunk.id, far) > dist(chunk.id, near)
  {
    var sites := [Site(near, Some(near), true), Site(far, Some(far), true)];
    assert LastFresh(sites) == Some(1);
  }
}
