/** The chunk layout over hexagonal tiles, after src/hex_layout.rs.

    A chunk of radius `R` is the hexagon of tiles within step distance `R`
    of its centre tile. Chunk centres are the tiles whose transposed key
    `x - z (3R + 1)` is a multiple of the period `P = 3R^2 + 3R + 1`, the
    number of tiles in one chunk. The source does not compile as it stands
    (mixed `u32`/`i32` arithmetic, a trailing `;` in `tile_to_chunk`, an
    immutable map being inserted into), so everything is modelled over
    unbounded integers. `CubeHexCoord`, `from_axis_coord`, `distance_step`
    and `Add` are the same as in src/terrain/hex.rs and are shared with
    the Hex module. */
module HexLayout {
  import opened Wrappers
  import opened Arith
  import opened Hex

  /** `from_xz(x, z)`: the valid hex with the given first and third
      components. */
  function FromXz(x: int, z: int): (h: HexCoord)
    ensures ZeroSum(h)
    ensures h.x == x && h.z == z
  {
    HexCoord(x, -(x + z), z)
  }

  // ---------------------------------------------------------------------
  // Period and keys

  /** `period = 3 R^2 + (3 R + 1)`: the number of tiles within step distance
      `R` of a centre. */
  function Period(r: nat): (p: nat)
    ensures p >= 2 * r + 1
  {
    3 * r * r + (3 * r + 1)
  }

  /** `half_period = (period - 1) / 2`. */
  function HalfPeriod(r: nat): nat {
    (Period(r) - 1) / 2
  }

  /** The period is odd, so halving `period - 1` loses nothing, and the
      half period is at least `R`. */
  lemma {:induction false} PeriodOdd(r: nat)
    ensures Period(r) % 2 == 1
    ensures 2 * HalfPeriod(r) + 1 == Period(r)
    ensures r <= HalfPeriod(r)
  {
    var m := 3 * r * r + 3 * r;
    ConsecutiveProductEven(r);
    assert Period(r) == m + 1;
    DivIsUnique(m, 2, m / 2, 0);
    assert m >= 2 * r;
  }

  /** The transposed key of `tile_to_chunk` before reduction:
      `x - z * (3 R + 1)`. */
  function Key(h: HexCoord, r: nat): int {
    h.x - h.z * (3 * r + 1)
  }

  /** The key is additive over the true sum and odd under negation. */
  lemma KeyLinear(a: HexCoord, b: HexCoord, r: nat)
    ensures Key(AddCorrected(a, b), r) == Key(a, r) + Key(b, r)
    ensures Key(Negate(a), r) == -Key(a, r)
  {
    assert (a.z + b.z) * (3 * r + 1) == a.z * (3 * r + 1) + b.z * (3 * r + 1);
    assert (-a.z) * (3 * r + 1) == -(a.z * (3 * r + 1));
  }

  /** Rust's `%` on signed integers: the remainder takes the sign of the
      dividend. */
  function TruncRem(a: int, b: int): (m: int)
    requires b > 0
    ensures a >= 0 ==> 0 <= m < b
    ensures a < 0 ==> -b < m <= 0
    ensures (a - m) % b == 0
  {
    if a >= 0 then
      RemainderRemoved(a, b);
      a % b
    else
      var m := -((-a) % b);
      assert (a - m) % b == 0 by {
        RemainderRemoved(-a, b);
        MultipleNegated(-a - (-a) % b, b);
      }
      m
  }

  /** The lookup key of `tile_to_chunk`: the transposed key reduced with
      Rust's `%` and lifted into range when negative. It is the Euclidean
      remainder modulo the period. */
  function TileKey(tile: HexCoord, r: nat): (k: int)
    ensures 0 <= k < Period(r)
    ensures k == Key(tile, r) % Period(r)
  {
    var p := Period(r);
    var raw := Key(tile, r);
    var closest := TruncRem(raw, p);
    var upper := if closest < 0 then closest + p else closest;
    assert upper == raw % p by {
      var q := (raw - closest) / p;
      assert raw - closest == q * p;
      if closest < 0 {
        DivIsUnique(raw, p, q - 1, upper);
      } else {
        DivIsUnique(raw, p, q, upper);
      }
    }
    upper
  }

  // ---------------------------------------------------------------------
  // The lookup table, first branch

  /** The key an entry of the table is stored under: `offset` when
      `phase == 1`, `period - offset` otherwise. */
  function LookupKey(phase: int, offset: int, p: int): int {
    if phase == 1 then offset else p - offset
  }

  predicate IsPhase(phase: int) {
    phase == 1 || phase == -1
  }

  /** Over the whole loop domain, two `(phase, offset)` pairs share a key
      exactly when they are equal. */
  lemma LookupKeysDistinct(r: nat, phase1: int, offset1: int, phase2: int, offset2: int)
    requires IsPhase(phase1) && 0 <= offset1 <= HalfPeriod(r)
    requires IsPhase(phase2) && 0 <= offset2 <= HalfPeriod(r)
    ensures LookupKey(phase1, offset1, Period(r)) == LookupKey(phase2, offset2, Period(r))
      <==> phase1 == phase2 && offset1 == offset2
  {
    PeriodOdd(r);
  }

  /** Every key `0..=period` is produced by the loop, from the pair
      returned here; the key `period` itself, from phase `-1` and offset
      `0`, lies outside the range `tile_to_chunk` looks up. */
  lemma LookupKeysCover(r: nat, k: int)
    requires 0 <= k <= Period(r)
    ensures var phase := if k <= HalfPeriod(r) then 1 else -1;
      var offset := if phase == 1 then k else Period(r) - k;
      && 0 <= offset <= HalfPeriod(r)
      && LookupKey(phase, offset, Period(r)) == k
      && (k == Period(r) <==> phase == -1 && offset == 0)
  {
    PeriodOdd(r);
  }

  /** The entries inserted by the first branch, `offset <= R`: each key
      maps to `from_xz(offset * phase, 0)`. */
  function FirstBranchTable(r: nat): (t: map<int, HexCoord>)
    ensures forall k :: k in t <==> 0 <= k <= r || Period(r) - r <= k <= Period(r)
  {
    PeriodOdd(r);
    var t := map phase, offset | phase in {-1, 1} && 0 <= offset <= r
      :: LookupKey(phase, offset, Period(r)) := FromXz(offset * phase, 0);
    assert forall k :: 0 <= k <= r || Period(r) - r <= k <= Period(r) ==> k in t by {
      forall k | 0 <= k <= r || Period(r) - r <= k <= Period(r) ensures k in t {
        LookupKeysCover(r, k);
      }
    }
    t
  }

  /** The entry stored for `(phase, offset)` is the valid hex
      `offset * phase` along the x axis, `offset <= R` steps from the
      origin, with a key congruent to its table key. */
  lemma FirstBranchEntry(r: nat, phase: int, offset: int)
    requires IsPhase(phase) && 0 <= offset <= r
    ensures var k := LookupKey(phase, offset, Period(r));
      var t := FirstBranchTable(r);
      && k in t
      && t[k] == FromXz(offset * phase, 0)
      && DistanceStep(t[k], Origin) == offset
      && (Key(t[k], r) - k) % Period(r) == 0
  {
    PeriodOdd(r);
    var p: int := Period(r);
    var k := LookupKey(phase, offset, p);
    var t := FirstBranchTable(r);
    forall phase', offset' | phase' in {-1, 1} && 0 <= offset' <= r && LookupKey(phase', offset', p) == k
      ensures phase' == phase && offset' == offset
    {
      LookupKeysDistinct(r, phase, offset, phase', offset');
    }
    if phase == 1 {
      DivIsUnique(0, p, 0, 0);
    } else {
      DivIsUnique(-p, p, -1, 0);
    }
  }

  /** Every entry of the first branch is a valid hex within `R` steps of
      the origin whose key is congruent to the key it is stored under. */
  lemma FirstBranchEntries(r: nat, k: int)
    requires 0 <= k <= r || Period(r) - r <= k <= Period(r)
    ensures k in FirstBranchTable(r)
    ensures var e := FirstBranchTable(r)[k];
      && ZeroSum(e) && e.z == 0
      && DistanceStep(e, Origin) <= r
      && (Key(e, r) - k) % Period(r) == 0
  {
    PeriodOdd(r);
    LookupKeysCover(r, k);
    var phase := if k <= HalfPeriod(r) then 1 else -1;
    var offset := if phase == 1 then k else Period(r) - k;
    FirstBranchEntry(r, phase, offset);
  }

  // ---------------------------------------------------------------------
  // tile_to_chunk

  /** A key the first branch fills: `[0, R]` or `[P - R, P)`. */
  predicate FirstBranchKey(k: int, r: nat) {
    0 <= k <= r || Period(r) - r <= k < Period(r)
  }

  /** `tile_to_chunk` as written: the tile plus the table entry for its
      key, with the written `Add`. `None` for keys outside the first
      branch, whose entries are not modelled. The entry lies on the x
      axis, so the result moves the tile along x and y by the entry and
      doubles its third coordinate: it is a valid hex only on the row
      `z == 0`, and there its key is twice the tile's, not a multiple of
      the period. */
  function TileToChunk(tile: HexCoord, r: nat): (c: Option<HexCoord>)
    ensures c.Some? <==> FirstBranchKey(TileKey(tile, r), r)
    ensures c.Some? ==> var e := FirstBranchTable(r)[TileKey(tile, r)];
      && e.z == 0 && ZeroSum(e) && DistanceStep(e, Origin) <= r
      && c.value == HexCoord(tile.x + e.x, tile.y + e.y, 2 * tile.z)
    ensures c.Some? && ZeroSum(tile) ==> (ZeroSum(c.value) <==> tile.z == 0)
    ensures c.Some? && tile.z == 0 ==> Key(c.value, r) % Period(r) == (2 * TileKey(tile, r)) % Period(r)
  {
    var k := TileKey(tile, r);
    var t := FirstBranchTable(r);
    if k in t then
      var e := t[k];
      FirstBranchEntries(r, k);
      assert tile.z == 0 ==> Key(Add(tile, e), r) % Period(r) == (2 * k) % Period(r) by {
        if tile.z == 0 {
          var p := Period(r);
          KeyLinear(tile, e, r);
          var a, b := Key(tile, r), Key(e, r);
          RemainderRemoved(a, p);
          ModOfSum(a - k, b - k, p);
          ModOfSum(2 * k, (a - k) + (b - k), p);
        }
      }
      Some(Add(tile, e))
    else
      None
  }

  /** `tile_to_chunk` with the entry subtracted, using the true sum: the
      result is a chunk centre (key a multiple of the period) at most `R`
      steps from the tile. */
  function TileToChunkCorrected(tile: HexCoord, r: nat): (c: Option<HexCoord>)
    ensures c.Some? <==> FirstBranchKey(TileKey(tile, r), r)
    ensures c.Some? ==> Key(c.value, r) % Period(r) == 0
    ensures c.Some? ==> DistanceStep(c.value, tile) <= r
    ensures c.Some? && ZeroSum(tile) ==> ZeroSum(c.value)
  {
    var k := TileKey(tile, r);
    var t := FirstBranchTable(r);
    if k in t then
      var e := t[k];
      var c := AddCorrected(tile, Negate(e));
      assert Key(c, r) % Period(r) == 0 by {
        CentreKey(tile, r);
      }
      assert DistanceStep(c, tile) <= r by {
        FirstBranchEntries(r, k);
        AddCorrectedDistance(tile, Negate(e));
        NegateDistance(e);
      }
      Some(c)
    else
      None
  }

  /** Subtracting an entry whose key matches the tile's reduced key leaves
      a multiple of the period. */
  lemma CentreKey(tile: HexCoord, r: nat)
    requires FirstBranchKey(TileKey(tile, r), r)
    ensures TileKey(tile, r) in FirstBranchTable(r)
    ensures var e := FirstBranchTable(r)[TileKey(tile, r)];
      Key(AddCorrected(tile, Negate(e)), r) % Period(r) == 0
  {
    var p := Period(r);
    var k := TileKey(tile, r);
    FirstBranchEntries(r, k);
    var e := FirstBranchTable(r)[k];
    KeyLinear(tile, Negate(e), r);
    KeyLinear(e, e, r);
    var a, b := Key(tile, r), Key(e, r);
    RemainderRemoved(a, p);
    MultipleNegated(b - k, p);
    ModOfSum(a - k, -(b - k), p);
  }

  lemma NegateDistance(h: HexCoord)
    ensures DistanceStep(Negate(h), Origin) == DistanceStep(h, Origin)
  {
  }

  /** As written, a tile of the row `z == 0` whose key is `k` in `1..=R`
      is sent to a hex of key `2 k`, which is not a chunk centre. For
      `R == 1`, tile `(1, -1, 0)` goes to `(2, -2, 0)` instead of the
      origin. */
  lemma TileToChunkMissesCentre(tile: HexCoord, r: nat)
    requires ZeroSum(tile) && tile.z == 0
    requires 1 <= TileKey(tile, r) <= r
    ensures TileToChunk(tile, r).Some?
    ensures Key(TileToChunk(tile, r).value, r) % Period(r) == 2 * TileKey(tile, r)
    ensures Key(TileToChunk(tile, r).value, r) % Period(r) != 0
  {
    var p := Period(r);
    var k := TileKey(tile, r);
    FirstBranchEntry(r, 1, k);
    var e := FirstBranchTable(r)[k];
    KeyLinear(tile, e, r);
    var a := Key(tile, r);
    assert Key(e, r) == k;
    RemainderRemoved(a, p);
    ModOfSum(2 * k, a - k, p);
    DivIsUnique(2 * k, p, 0, 2 * k);
  }

  // ---------------------------------------------------------------------
  // get_chunk_neighbors

  /** The index triple of step `i` of ring `ring`: the anchor
      `[-ring inc, R ring + ring, R ring]` moved `i` times by
      `[R, -inc, inc - R]`, with `inc = 2 R + 1`. Both sum to zero, and the
      keys of the triple and of its next two rotations are whole numbers
      of periods. */
  function ChunkIndexes(r: nat, ring: int, i: int): (t: HexCoord)
    ensures ZeroSum(t)
    ensures Key(t, r) == -(ring + i) * Period(r)
    ensures Key(HexCoord(-t.y, -t.z, -t.x), r) == (-2 * ring + i) * Period(r)
    ensures Key(HexCoord(t.z, t.x, t.y), r) == (-ring + 2 * i) * Period(r)
  {
    var t := HexCoord(-2 * (r * ring) - ring + i * r, r * ring + ring - 2 * (i * r) - i, r * ring + i * r + i);
    KeyRotations(r, ring, i);
    t
  }

  /** The products the three keys of `ChunkIndexes` expand to. */
  lemma KeyRotations(r: nat, ring: int, i: int)
    ensures var p := 3 * r * r + 3 * r + 1;
      && (r * ring + i * r + i) * (3 * r + 1) == ring * (3 * r * r + r) + i * (p + r)
      && (-2 * (r * ring) - ring + i * r) * (3 * r + 1) == -ring * (2 * p - r - 1) + i * (3 * r * r + r)
      && (r * ring + ring - 2 * (i * r) - i) * (3 * r + 1) == ring * (p + r) - i * (2 * p - r - 1)
  {
  }

  /** Rotation `rot` of the step, as an offset from the chunk: a valid hex
      whose key is `KeyCoefficient` periods, so it lands on a chunk
      centre. */
  function ChunkOffset(r: nat, ring: int, i: int, rot: nat): (h: HexCoord)
    requires rot < 6
    ensures ZeroSum(h)
    ensures Key(h, r) == KeyCoefficient(ring, i, rot) * Period(r)
  {
    var t := ChunkIndexes(r, ring, i);
    RotateIndexesShape(t.x, t.y, t.z);
    var h := RotateIndexes(t.x, t.y, t.z, rot);
    assert Key(h, r) == KeyCoefficient(ring, i, rot) * Period(r) by {
      if rot == 0 {
      } else if rot == 1 {
      } else if rot == 2 {
      } else {
        var low: nat := rot - 3;
        var g := RotateIndexes(t.x, t.y, t.z, low);
        assert h == Negate(g);
        KeyLinear(g, g, r);
        MulNegLeft(KeyCoefficient(ring, i, low), Period(r));
      }
    }
    h
  }

  /** Rotation `rot + 3` of a step negates rotation `rot`. */
  lemma ChunkOffsetHalfTurn(r: nat, ring: int, i: int, rot: nat)
    requires rot < 3
    ensures ChunkOffset(r, ring, i, rot + 3) == Negate(ChunkOffset(r, ring, i, rot))
  {
    var t := ChunkIndexes(r, ring, i);
    RotateIndexesShape(t.x, t.y, t.z);
  }

  /** The multiple of the period that each rotation's key is. */
  function KeyCoefficient(ring: int, i: int, rot: nat): int
    requires rot < 6
  {
    if rot == 0 then -(ring + i)
    else if rot == 1 then -2 * ring + i
    else if rot == 2 then -ring + 2 * i
    else -KeyCoefficient(ring, i, rot - 3)
  }

  /** Offsets of the first `ring` steps are never the chunk itself: each
      rotation carries the anchor's first index, which is negative. */
  lemma ChunkOffsetNonZero(r: nat, ring: int, i: int, rot: nat)
    requires 0 <= i < ring && rot < 6
    ensures ChunkOffset(r, ring, i, rot) != Origin
  {
    var t := ChunkIndexes(r, ring, i);
    AnchorNegative(r, ring, i);
    RotateIndexesShape(t.x, t.y, t.z);
    if rot == 0 {
      assert ChunkOffset(r, ring, i, 0).x == t.x;
      NonZeroComponent(ChunkOffset(r, ring, i, 0));
      assert ChunkOffset(r, ring, i, rot) != Origin;
    } else if rot == 1 {
      assert ChunkOffset(r, ring, i, 1).z == -t.x;
      NonZeroComponent(ChunkOffset(r, ring, i, 1));
      assert ChunkOffset(r, ring, i, rot) != Origin;
    } else if rot == 2 {
      assert ChunkOffset(r, ring, i, 2).y == t.x;
      NonZeroComponent(ChunkOffset(r, ring, i, 2));
      assert ChunkOffset(r, ring, i, rot) != Origin;
    } else {
      ChunkOffsetNonZero(r, ring, i, rot - 3);
      ChunkOffsetHalfTurn(r, ring, i, rot - 3);
      NegateNonZero(ChunkOffset(r, ring, i, rot - 3));
      assert ChunkOffset(r, ring, i, rot) != Origin;
    }
  }

  lemma NegateNonZero(h: HexCoord)
    requires h != Origin
    ensures Negate(h) != Origin
  {
    assert Origin == HexCoord(0, 0, 0);
  }

  lemma NonZeroComponent(h: HexCoord)
    requires h.x != 0 || h.y != 0 || h.z != 0
    ensures h != Origin
  {
  }

  /** The first index of every step of a ring is negative. */
  lemma AnchorNegative(r: nat, ring: int, i: int)
    requires 0 <= i < ring
    ensures ChunkIndexes(r, ring, i).x < 0
  {
    MulMonotone(i, ring, r);
    MulMonotone(0, i, r);
    assert ChunkIndexes(r, ring, i).x == -2 * (ring * r) - ring + i * r;
  }

  /** The six offsets of step `i`. */
  function ChunkStep(r: nat, ring: int, i: int): (b: seq<HexCoord>)
    ensures |b| == 6
  {
    seq(6, rot requires 0 <= rot < 6 => ChunkOffset(r, ring, i, rot))
  }

  /** Steps `0..n` of ring `ring`, in order. */
  function ChunkRing(r: nat, ring: int, n: nat): (s: seq<HexCoord>)
    ensures |s| == 6 * n
  {
    if n == 0 then [] else ChunkRing(r, ring, n - 1) + ChunkStep(r, ring, n - 1)
  }

  /** Entry `6 i + j` of a ring is rotation `j` of step `i`. */
  lemma {:induction false} ChunkRingIndex(r: nat, ring: int, n: nat, i: int, j: int)
    requires 0 <= i < n && 0 <= j < 6
    ensures ChunkRing(r, ring, n)[6 * i + j] == ChunkStep(r, ring, i)[j]
  {
    var m: nat := n - 1;
    assert ChunkRing(r, ring, n) == ChunkRing(r, ring, m) + ChunkStep(r, ring, m);
    if i < m {
      ChunkRingIndex(r, ring, m, i, j);
    }
  }

  /** Within one step, rotation `j + 3` negates rotation `j`. */
  lemma ChunkStepHalfTurn(r: nat, ring: int, i: int)
    ensures forall j :: 0 <= j < 3 ==> ChunkStep(r, ring, i)[j + 3] == Negate(ChunkStep(r, ring, i)[j])
  {
    forall j | 0 <= j < 3 ensures ChunkStep(r, ring, i)[j + 3] == Negate(ChunkStep(r, ring, i)[j]) {
      ChunkOffsetHalfTurn(r, ring, i, j);
    }
  }

  /** Each step is closed under negation. */
  lemma ChunkStepNegationClosed(r: nat, ring: int, i: int, o: HexCoord)
    requires o in ChunkStep(r, ring, i)
    ensures Negate(o) in ChunkStep(r, ring, i)
  {
    var s := ChunkStep(r, ring, i);
    var j :| 0 <= j < 6 && s[j] == o;
    ChunkStepHalfTurn(r, ring, i);
    if j < 3 {
      assert s[j + 3] == Negate(o);
    } else {
      NegateTwice(s[j - 3]);
      assert s[j - 3] == Negate(o);
    }
  }

  /** Each ring, step by step, is closed under negation: the negation of
      entry `k` is also an entry. */
  lemma {:induction false} ChunkRingNegationClosed(r: nat, ring: int, n: nat, k: int)
    requires 0 <= k < 6 * n
    ensures Negate(ChunkRing(r, ring, n)[k]) in ChunkRing(r, ring, n)
  {
    var m: nat := n - 1;
    var prev, step := ChunkRing(r, ring, m), ChunkStep(r, ring, m);
    assert ChunkRing(r, ring, n) == prev + step;
    if k < 6 * m {
      assert ChunkRing(r, ring, n)[k] == prev[k];
      ChunkRingNegationClosed(r, ring, m, k);
    } else {
      assert ChunkRing(r, ring, n)[k] == step[k - 6 * m];
      ChunkStepNegationClosed(r, ring, m, step[k - 6 * m]);
    }
  }

  lemma NegateTwice(h: HexCoord)
    ensures Negate(Negate(h)) == h
  {
  }

  /** Every entry of ring `ring` is a chunk centre other than the chunk
      itself. */
  lemma ChunkRingEntry(r: nat, ring: nat, k: int)
    requires 0 <= k < 6 * ring
    ensures var o := ChunkRing(r, ring, ring)[k];
      ZeroSum(o) && o != Origin && Key(o, r) % Period(r) == 0
  {
    var i, rot := k / 6, k % 6;
    assert k == 6 * i + rot;
    ChunkRingIndex(r, ring, ring, i, rot);
    assert ChunkStep(r, ring, i)[rot] == ChunkOffset(r, ring, i, rot);
    ChunkOffsetNonZero(r, ring, i, rot);
    DivIsUnique(KeyCoefficient(ring, i, rot) * Period(r), Period(r), KeyCoefficient(ring, i, rot), 0);
  }

  /** The offsets `get_chunk_neighbors(_, D)` adds to its chunk: rings
      `1..=D` of `6 ring` offsets each, `3 D^2 + 3 D` in all, every one a
      chunk centre other than the chunk itself. */
  function ChunkNeighborOffsets(r: nat, dist: int): (s: seq<HexCoord>)
    ensures |s| == if dist < 1 then 0 else 3 * dist * dist + 3 * dist
    ensures forall k :: 0 <= k < |s| ==> ZeroSum(s[k]) && s[k] != Origin && Key(s[k], r) % Period(r) == 0
    decreases dist
  {
    if dist < 1 then []
    else
      var prev := ChunkNeighborOffsets(r, dist - 1);
      var ring := ChunkRing(r, dist, dist);
      assert forall k :: 0 <= k < |ring| ==> ZeroSum(ring[k]) && ring[k] != Origin && Key(ring[k], r) % Period(r) == 0 by {
        forall k | 0 <= k < |ring|
          ensures ZeroSum(ring[k]) && ring[k] != Origin && Key(ring[k], r) % Period(r) == 0
        {
          ChunkRingEntry(r, dist, k);
        }
      }
      var s := prev + ring;
      NeighborCount(dist);
      assert forall k :: 0 <= k < |s| ==> ZeroSum(s[k]) && s[k] != Origin && Key(s[k], r) % Period(r) == 0 by {
        forall k | 0 <= k < |s|
          ensures ZeroSum(s[k]) && s[k] != Origin && Key(s[k], r) % Period(r) == 0
        {
          if k < |prev| {
            assert s[k] == prev[k];
          } else {
            assert s[k] == ring[k - |prev|];
          }
        }
      }
      s
  }

  /** The neighbour offsets are closed under negation: the negation of
      offset `k` is also an offset. */
  lemma {:induction false} ChunkNeighborsNegationClosed(r: nat, dist: int, k: int)
    requires 0 <= k < |ChunkNeighborOffsets(r, dist)|
    ensures Negate(ChunkNeighborOffsets(r, dist)[k]) in ChunkNeighborOffsets(r, dist)
    decreases dist
  {
    var prev := ChunkNeighborOffsets(r, dist - 1);
    var ring := ChunkRing(r, dist, dist);
    assert ChunkNeighborOffsets(r, dist) == prev + ring;
    if k < |prev| {
      assert ChunkNeighborOffsets(r, dist)[k] == prev[k];
      ChunkNeighborsNegationClosed(r, dist - 1, k);
    } else {
      assert ChunkNeighborOffsets(r, dist)[k] == ring[k - |prev|];
      ChunkRingNegationClosed(r, dist, dist, k - |prev|);
    }
  }

  /** `get_chunk_neighbors(chunk, D)` as written: each offset added with
      the written `Add`. Around a valid chunk, entry `k` is a valid hex
      exactly when its offset shares the chunk's third coordinate; such an
      entry is another chunk centre, its key a whole number of periods
      away from the chunk's. */
  function GetChunkNeighbors(chunk: HexCoord, r: nat, dist: int): (s: seq<HexCoord>)
    ensures |s| == if dist < 1 then 0 else 3 * dist * dist + 3 * dist
    ensures forall k :: 0 <= k < |s| ==> s[k] == Add(chunk, ChunkNeighborOffsets(r, dist)[k])
    ensures ZeroSum(chunk) ==> forall k :: 0 <= k < |s| ==>
      (ZeroSum(s[k]) <==> chunk.z == ChunkNeighborOffsets(r, dist)[k].z)
    ensures forall k :: 0 <= k < |s| && chunk.z == ChunkNeighborOffsets(r, dist)[k].z ==>
      s[k] != chunk && (Key(s[k], r) - Key(chunk, r)) % Period(r) == 0
  {
    var offsets := ChunkNeighborOffsets(r, dist);
    assert forall k :: 0 <= k < |offsets| ==>
      Key(AddCorrected(chunk, offsets[k]), r) - Key(chunk, r) == Key(offsets[k], r) by {
      forall k | 0 <= k < |offsets|
        ensures Key(AddCorrected(chunk, offsets[k]), r) - Key(chunk, r) == Key(offsets[k], r)
      {
        KeyLinear(chunk, offsets[k], r);
      }
    }
    seq(|offsets|, k requires 0 <= k < |offsets| => Add(chunk, offsets[k]))
  }
}
