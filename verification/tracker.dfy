/** `ChunkTracker`: the set of chunk ids that currently own a chunk
    record. Every copy of the tracker in the repository (the voxel crate,
    the generic terrain plugin, the old hex terrain and the draft plugin)
    performs the same set operations in its `try_spawn` and
    `try_despawn`. The copies differ in their defaults and in that the
    voxel crate's copy logs each change and takes ids by reference. */
module Tracker {
  import opened Seqs

  /** The tracker resource of the terrain plugins that also carry a
      despawn threshold. Their despawn timer is not modelled: the
      despawners take "the timer finished" as a parameter. */
  datatype TrackerState<C> = TrackerState(loaded: set<C>, minDespawnDistance: int)

  /** `try_spawn(c)`: inserts `c` when it is absent and answers whether it
      did. */
  function TrySpawn<C(!new)>(loaded: set<C>, c: C): (r: (bool, set<C>))
    ensures r.0 <==> c !in loaded
    ensures c in r.1
    ensures forall x :: x != c ==> (x in r.1 <==> x in loaded)
  {
    if c !in loaded then (true, loaded + {c}) else (false, loaded)
  }

  /** `try_despawn(c)`: removes `c` and answers whether it was present. */
  function TryDespawn<C(!new)>(loaded: set<C>, c: C): (r: (bool, set<C>))
    ensures r.0 <==> c in loaded
    ensures c !in r.1
    ensures forall x :: x != c ==> (x in r.1 <==> x in loaded)
  {
    (c in loaded, loaded - {c})
  }

  /** A second `try_spawn` of the same id answers false and changes
      nothing. */
  lemma SpawnTwice<C(!new)>(loaded: set<C>, c: C)
    ensures var once := TrySpawn(loaded, c).1;
      TrySpawn(once, c) == (false, once)
  {
  }

  /** Spawning an absent id and then despawning it restores the set. */
  lemma SpawnThenDespawn<C(!new)>(loaded: set<C>, c: C)
    requires c !in loaded
    ensures TryDespawn(TrySpawn(loaded, c).1, c) == (true, loaded)
  {
  }

  /** Despawning a present id and then spawning it restores the set. */
  lemma DespawnThenSpawn<C(!new)>(loaded: set<C>, c: C)
    requires c in loaded
    ensures TrySpawn(TryDespawn(loaded, c).1, c) == (true, loaded)
  {
    assert loaded - {c} + {c} == loaded;
  }

  /** The spawn loop of every chunk spawner: `try_spawn` each of `chunks`
      in order. The answer is the grown set and the ids that were newly
      spawned, in spawn order; those are exactly the ids of `chunks` that
      were absent, each once, however often `chunks` repeats them. */
  function SpawnAll<C(!new)>(loaded: set<C>, chunks: seq<C>): (r: (set<C>, seq<C>))
    ensures forall c :: c in r.0 <==> c in loaded || c in chunks
    ensures forall c :: c in r.1 <==> c in chunks && c !in loaded
    ensures Distinct(r.1)
    decreases |chunks|
  {
    if chunks == [] then (loaded, [])
    else
      var first := TrySpawn(loaded, chunks[0]);
      var rest := SpawnAll(first.1, chunks[1..]);
      assert forall c :: c in chunks <==> c == chunks[0] || c in chunks[1..] by {
        assert chunks == [chunks[0]] + chunks[1..];
      }
      if first.0 then
        DistinctConcat([chunks[0]], rest.1);
        (rest.0, [chunks[0]] + rest.1)
      else
        (rest.0, rest.1)
  }

  /** The membership invariant between the tracker and the chunk records:
      the record ids are pairwise distinct and are exactly the tracked
      ids. */
  ghost predicate Synced<C(!new)>(loaded: set<C>, ids: seq<C>) {
    Distinct(ids) && forall c :: c in loaded <==> c in ids
  }

  /** Appending one record for each newly spawned id keeps the records in
      step with the grown tracker. */
  lemma {:induction false} AppendSpawned<C(!new)>(loaded: set<C>, ids: seq<C>, grown: set<C>, spawned: seq<C>)
    requires Synced(loaded, ids)
    requires forall c :: c in grown <==> c in loaded || c in spawned
    requires forall c :: c in spawned ==> c !in loaded
    requires Distinct(spawned)
    ensures Synced(grown, ids + spawned)
  {
    DistinctConcat(ids, spawned);
  }
}
