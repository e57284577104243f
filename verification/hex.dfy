/** Cube coordinates for hexagonal tiles, after src/terrain/hex.rs.

    A hex is a triple `(x, y, z)`; the valid ones sum to zero. The ring of
    radius `d` is generated from the index triple `[i, d - i, -d]`, rotated
    six times by picking two of its entries and flipping the sign on odd
    rotations. `Add` is modelled as the source writes it, with a third
    component of `self.2 + self.2`; the ring and distance facts are stated
    on the generated offsets, and `AddCorrected` is the sum the rest of the
    algebra needs. */
module Hex {
  import opened Seqs

  datatype HexCoord = HexCoord(x: int, y: int, z: int)

  const Origin: HexCoord := HexCoord(0, 0, 0)

  function Abs(x: int): nat {
    if x < 0 then -x else x
  }

  /** The invariant of cube coordinates. */
  predicate ZeroSum(h: HexCoord) {
    h.x + h.y + h.z == 0
  }

  /** `from_axis_coord(q, r)`: the hex with axial coordinates `(q, r)`. */
  function FromAxisCoord(q: int, r: int): (h: HexCoord)
    ensures ZeroSum(h)
    ensures h.x == q && h.y == r
  {
    HexCoord(q, r, -(q + r))
  }

  /** `distance_step`: half the Manhattan distance of the triples. The sum
      is never negative, so Rust's truncating `/ 2` is Dafny's. Between
      two valid hexes it is the hex distance: the largest of the three
      coordinate differences in absolute value. */
  function DistanceStep(a: HexCoord, b: HexCoord): (d: int)
    ensures d >= 0
    ensures 2 * d <= Abs(a.x - b.x) + Abs(a.y - b.y) + Abs(a.z - b.z) <= 2 * d + 1
    ensures ZeroSum(a) && ZeroSum(b) ==>
      && Abs(a.x - b.x) <= d && Abs(a.y - b.y) <= d && Abs(a.z - b.z) <= d
      && (Abs(a.x - b.x) == d || Abs(a.y - b.y) == d || Abs(a.z - b.z) == d)
  {
    (Abs(a.x - b.x) + Abs(a.y - b.y) + Abs(a.z - b.z)) / 2
  }

  /** The hexes at step distance `d` from the origin. */
  predicate OnRing(q: HexCoord, d: int) {
    ZeroSum(q) && DistanceStep(q, Origin) == d
  }

  lemma DistanceStepSymmetric(a: HexCoord, b: HexCoord)
    ensures DistanceStep(a, b) == DistanceStep(b, a)
  {
  }

  /** On valid hexes the distance vanishes exactly on equal coordinates. */
  lemma DistanceStepZero(a: HexCoord, b: HexCoord)
    requires ZeroSum(a) && ZeroSum(b)
    ensures DistanceStep(a, b) == 0 <==> a == b
  {
  }

  /** The contract of `DistanceStep` read against the origin. */
  lemma DistanceIsMax(q: HexCoord)
    requires ZeroSum(q)
    ensures var m := DistanceStep(q, Origin);
      && Abs(q.x) <= m && Abs(q.y) <= m && Abs(q.z) <= m
      && (Abs(q.x) == m || Abs(q.y) == m || Abs(q.z) == m)
  {
    assert Origin == HexCoord(0, 0, 0);
  }

  /** Conversely, a valid hex whose largest absolute coordinate is `d`
      lies on ring `d`. */
  lemma MaxIsDistance(q: HexCoord, d: int)
    requires ZeroSum(q)
    requires Abs(q.x) <= d && Abs(q.y) <= d && Abs(q.z) <= d
    requires Abs(q.x) == d || Abs(q.y) == d || Abs(q.z) == d
    ensures OnRing(q, d)
  {
    DistanceIsMax(q);
  }

  /** Negation keeps a hex on its ring. */
  lemma NegateOnRing(q: HexCoord, d: int)
    ensures OnRing(Negate(q), d) <==> OnRing(q, d)
  {
    assert DistanceStep(Negate(q), Origin) == DistanceStep(q, Origin);
  }

  /** `CubeHexCoord + CubeHexCoord` as written: the third component is
      `self.2 + self.2`, so `other.2` is ignored. It is the true sum
      exactly when both third components agree, and on valid hexes it
      yields a valid hex exactly then. */
  function Add(a: HexCoord, b: HexCoord): (r: HexCoord)
    ensures r == AddCorrected(a, b) <==> a.z == b.z
    ensures ZeroSum(a) && ZeroSum(b) ==> (ZeroSum(r) <==> a.z == b.z)
  {
    HexCoord(a.x + b.x, a.y + b.y, a.z + a.z)
  }

  /** The component-wise sum. */
  function AddCorrected(a: HexCoord, b: HexCoord): (r: HexCoord)
    ensures ZeroSum(a) && ZeroSum(b) ==> ZeroSum(r)
  {
    HexCoord(a.x + b.x, a.y + b.y, a.z + b.z)
  }

  function Negate(h: HexCoord): HexCoord {
    HexCoord(-h.x, -h.y, -h.z)
  }

  /** The written `Add` never looks at the right operand's third
      component. */
  lemma AddIgnoresOtherZ(a: HexCoord, b: HexCoord, w: int)
    ensures Add(a, b) == Add(a, HexCoord(b.x, b.y, w))
  {
  }

  /** Two valid hexes whose written sum is not a hex: `(0, 1, -1)` plus
      `(1, -1, 0)` gives `(1, 0, -2)`, where the true sum is `(1, 0, -1)`. */
  lemma AddAsWrittenExample()
    ensures var a, b := HexCoord(0, 1, -1), HexCoord(1, -1, 0);
      && ZeroSum(a) && ZeroSum(b)
      && Add(a, b) == HexCoord(1, 0, -2) && !ZeroSum(Add(a, b))
      && AddCorrected(a, b) == HexCoord(1, 0, -1)
  {
  }

  /** The corrected sum moves a hex by exactly the offset's length. */
  lemma AddCorrectedDistance(c: HexCoord, o: HexCoord)
    ensures DistanceStep(AddCorrected(c, o), c) == DistanceStep(o, Origin)
  {
  }

  // ---------------------------------------------------------------------
  // The six-rotation index pattern

  /** One rotation of an index triple: rotation `rot` takes entries
      `rot % 3` and `(rot + 1) % 3` as axial coordinates, negated on odd
      rotations (the source multiplies by `m = -1`). */
  function RotateIndexes(a: int, b: int, c: int, rot: nat): (h: HexCoord)
    requires rot < 6
    ensures ZeroSum(h)
  {
    var q, r := Entry(a, b, c, rot % 3), Entry(a, b, c, (rot + 1) % 3);
    if rot % 2 == 1 then FromAxisCoord(-q, -r) else FromAxisCoord(q, r)
  }

  /** Entry `j` of the index array `[a, b, c]`. */
  function Entry(a: int, b: int, c: int, j: nat): int
    requires j < 3
  {
    if j == 0 then a else if j == 1 then b else c
  }

  /** On a zero-sum triple, rotation `rot + 3` negates rotation `rot`, and
      the six rotations are the six signed cyclic shifts of the triple. */
  lemma RotateIndexesShape(a: int, b: int, c: int)
    requires a + b + c == 0
    ensures RotateIndexes(a, b, c, 0) == HexCoord(a, b, c)
    ensures RotateIndexes(a, b, c, 1) == HexCoord(-b, -c, -a)
    ensures RotateIndexes(a, b, c, 2) == HexCoord(c, a, b)
    ensures forall rot :: 0 <= rot < 3 ==> RotateIndexes(a, b, c, rot + 3) == Negate(RotateIndexes(a, b, c, rot))
  {
  }

  // ---------------------------------------------------------------------
  // Rings

  /** The offset step `(i, rot)` of `get_ring(_, d)` contributes. */
  function RingOffset(d: int, i: int, rot: nat): (h: HexCoord)
    requires rot < 6
    ensures ZeroSum(h)
  {
    RotateIndexes(i, d - i, -d, rot)
  }

  /** The six offsets of step `i`. */
  function Block(d: int, i: int): (b: seq<HexCoord>)
    ensures |b| == 6
  {
    seq(6, rot requires 0 <= rot < 6 => RingOffset(d, i, rot))
  }

  /** Which rotation produces the ring hex `q`: the ring is cut into six
      sides, each holding one end point. */
  function Sector(q: HexCoord, d: int): nat {
    if q.z == -d && 0 <= q.x < d then 0
    else if q.y == d && q.x < 0 then 1
    else if q.x == -d && 0 <= q.y < d then 2
    else if q.z == d && q.x <= 0 then 3
    else if q.y == -d && q.x > 0 then 4
    else 5
  }

  /** The step index `i` that produces the ring hex `q`. */
  function SectorIndex(q: HexCoord, d: int): (i: int)
    ensures OnRing(q, d) && d >= 1 ==> 0 <= i < d
  {
    assert OnRing(q, d) ==> Abs(q.x) <= d && Abs(q.y) <= d && Abs(q.z) <= d by {
      if OnRing(q, d) { DistanceIsMax(q); }
    }
    var s := Sector(q, d);
    if s == 0 then q.x
    else if s == 1 then q.x + d
    else if s == 2 then q.y
    else if s == 3 then -q.x
    else if s == 4 then d - q.x
    else -q.y
  }

  /** The six offsets of step `i` written out. */
  lemma RingOffsetShape(d: int, i: int)
    ensures RingOffset(d, i, 0) == HexCoord(i, d - i, -d)
    ensures RingOffset(d, i, 1) == HexCoord(i - d, d, -i)
    ensures RingOffset(d, i, 2) == HexCoord(-d, i, d - i)
    ensures RingOffset(d, i, 3) == HexCoord(-i, i - d, d)
    ensures RingOffset(d, i, 4) == HexCoord(d - i, -d, i)
    ensures RingOffset(d, i, 5) == HexCoord(d, -i, i - d)
  {
    RotateIndexesShape(i, d - i, -d);
  }

  /** Each of the first `d` steps lands on the ring, in the side its
      rotation names, at its own index. */
  lemma RingOffsetClassified(d: int, i: int, rot: nat)
    requires d >= 1 && 0 <= i < d && rot < 6
    ensures var q := RingOffset(d, i, rot);
      OnRing(q, d) && Sector(q, d) == rot && SectorIndex(q, d) == i
  {
    RingOffsetShape(d, i);
    var q := RingOffset(d, i, rot);
    if rot == 0 {
      MaxIsDistance(q, d);
    } else if rot == 1 {
      MaxIsDistance(q, d);
    } else if rot == 2 {
      MaxIsDistance(q, d);
    } else if rot == 3 {
      MaxIsDistance(q, d);
    } else if rot == 4 {
      MaxIsDistance(q, d);
    } else {
      MaxIsDistance(q, d);
    }
  }

  /** Conversely, a ring hex is produced by the step and rotation its side
      and index name. */
  lemma RingHexProduced(d: int, q: HexCoord)
    requires d >= 1 && OnRing(q, d)
    ensures Sector(q, d) < 6 && RingOffset(d, SectorIndex(q, d), Sector(q, d)) == q
  {
    DistanceIsMax(q);
    RingOffsetShape(d, SectorIndex(q, d));
  }

  /** Steps `0..n` of the walk of ring `d`, in order. */
  function Blocks(d: int, n: nat): (r: seq<HexCoord>)
    ensures |r| == 6 * n
  {
    if n == 0 then [] else Blocks(d, n - 1) + Block(d, n - 1)
  }

  /** Entry `k` of the walk is rotation `k % 6` of step `k / 6`. */
  lemma {:induction false} BlocksIndex(d: int, n: nat, k: int)
    requires 0 <= k < 6 * n
    ensures Blocks(d, n)[k] == RingOffset(d, k / 6, k % 6)
  {
    var m: nat := n - 1;
    assert Blocks(d, n) == Blocks(d, m) + Block(d, m);
    if k < 6 * m {
      BlocksIndex(d, m, k);
    } else {
      assert k / 6 == m;
    }
  }

  /** The first `n <= d` steps emit each ring hex of index below `n`
      exactly once, and nothing else. */
  lemma BlocksCount(d: int, n: nat, q: HexCoord)
    requires 1 <= d && n <= d
    ensures multiset(Blocks(d, n))[q] == if OnRing(q, d) && SectorIndex(q, d) < n then 1 else 0
  {
    var s := Blocks(d, n);
    var hit := OnRing(q, d) && SectorIndex(q, d) < n;
    var k := if hit then 6 * SectorIndex(q, d) + Sector(q, d) else -1;
    forall j | 0 <= j < |s| ensures s[j] == q <==> j == k {
      BlocksIndex(d, n, j);
      RingOffsetClassified(d, j / 6, j % 6);
      if OnRing(q, d) {
        RingHexProduced(d, q);
      }
    }
    OccursAtOneIndex(s, q, k);
  }

  /** Every step `i` in `0..=d`, in every rotation, lands on ring `d`. */
  lemma RingOffsetOnRing(d: int, i: int, rot: nat)
    requires 0 <= i <= d && rot < 6
    ensures OnRing(RingOffset(d, i, rot), d)
  {
    RingOffsetShape(d, i);
    var q := RingOffset(d, i, rot);
    if rot == 0 {
      MaxIsDistance(q, d);
    } else if rot == 1 {
      MaxIsDistance(q, d);
    } else if rot == 2 {
      MaxIsDistance(q, d);
    } else if rot == 3 {
      MaxIsDistance(q, d);
    } else if rot == 4 {
      MaxIsDistance(q, d);
    } else {
      MaxIsDistance(q, d);
    }
  }

  /** The offsets `get_ring(_, d)` adds to its centre: steps `0..=d`, so
      `6 (d + 1)` hexes, all on ring `d`. */
  function RingOffsets(d: int): (r: seq<HexCoord>)
    ensures |r| == if d < 0 then 0 else 6 * (d + 1)
    ensures forall k :: 0 <= k < |r| ==> OnRing(r[k], d)
  {
    if d < 0 then []
    else
      var s := Blocks(d, d + 1);
      assert forall k :: 0 <= k < |s| ==> OnRing(s[k], d) by {
        forall k | 0 <= k < |s| ensures OnRing(s[k], d) {
          BlocksIndex(d, d + 1, k);
          RingOffsetOnRing(d, k / 6, k % 6);
        }
      }
      s
  }

  /** `get_ring(center, d)` as written: each offset added with `Add`.
      Around a valid centre, entry `k` is a valid hex exactly when its
      offset shares the centre's third coordinate, and such an entry is
      the true sum, `d` steps from the centre. */
  function GetRing(center: HexCoord, d: int): (r: seq<HexCoord>)
    ensures |r| == if d < 0 then 0 else 6 * (d + 1)
    ensures forall k :: 0 <= k < |r| ==> r[k] == Add(center, RingOffsets(d)[k])
    ensures ZeroSum(center) ==> forall k :: 0 <= k < |r| ==>
      (ZeroSum(r[k]) <==> center.z == RingOffsets(d)[k].z)
    ensures forall k :: 0 <= k < |r| && center.z == RingOffsets(d)[k].z ==>
      r[k] == AddCorrected(center, RingOffsets(d)[k]) && DistanceStep(r[k], center) == d
  {
    var offsets := RingOffsets(d);
    assert forall k :: 0 <= k < |offsets| && center.z == offsets[k].z ==>
      DistanceStep(AddCorrected(center, offsets[k]), center) == d by {
      forall k | 0 <= k < |offsets| && center.z == offsets[k].z
        ensures DistanceStep(AddCorrected(center, offsets[k]), center) == d
      {
        AddCorrectedDistance(center, offsets[k]);
      }
    }
    seq(|offsets|, k requires 0 <= k < |offsets| => Add(center, offsets[k]))
  }

  /** Every hex of ring `d >= 1` is among the ring offsets. */
  lemma RingComplete(d: int, q: HexCoord)
    requires d >= 1 && OnRing(q, d)
    ensures q in RingOffsets(d)
  {
    var w := Blocks(d, d);
    BlocksCount(d, d, q);
    assert multiset(w)[q] == 1;
    assert RingOffsets(d) == w + Block(d, d);
  }

  /** A hex is a ring offset exactly when it lies on the ring. */
  lemma RingOffsetsExact(d: int, q: HexCoord)
    requires d >= 1
    ensures q in RingOffsets(d) <==> OnRing(q, d)
  {
    if OnRing(q, d) {
      RingComplete(d, q);
    }
  }

  /** The last step repeats hexes of the first: the ring lists `6 d`
      distinct hexes, so six of its `6 (d + 1)` entries are repeats. */
  lemma RingDistinctCount(d: int)
    requires d >= 1
    ensures |set q | q in RingOffsets(d)| == 6 * d
  {
    var w := Blocks(d, d);
    forall q ensures multiset(w)[q] <= 1 {
      BlocksCount(d, d, q);
    }
    AtMostOnceIsDistinct(w);
    DistinctCardinality(w);
    forall q | q in RingOffsets(d) ensures q in w {
      var k :| 0 <= k < |RingOffsets(d)| && RingOffsets(d)[k] == q;
      assert OnRing(q, d);
      BlocksCount(d, d, q);
    }
    assert (set q | q in RingOffsets(d)) == (set q | q in w);
  }

  /** The ring offsets are closed under negation. */
  lemma RingNegationClosed(d: int, o: HexCoord)
    requires o in RingOffsets(d)
    ensures Negate(o) in RingOffsets(d)
  {
    RingOffsetsMember(d, o);
    if d >= 1 {
      NegateOnRing(o, d);
      RingOffsetsExact(d, Negate(o));
    } else {
      assert d == 0 && OnRing(o, 0);
      DistanceStepZero(o, Origin);
      assert o == Origin;
      NegateOrigin();
    }
  }

  lemma NegateOrigin()
    ensures Negate(Origin) == Origin
  {
    assert Origin == HexCoord(0, 0, 0);
  }

  /** Only hexes of ring `d` are ring offsets, and only for `d >= 0`. */
  lemma RingOffsetsMember(d: int, o: HexCoord)
    requires o in RingOffsets(d)
    ensures d >= 0 && OnRing(o, d)
  {
    var k :| 0 <= k < |RingOffsets(d)| && RingOffsets(d)[k] == o;
  }

  /** Rotation `rot + 3` of a step negates its rotation `rot`. */
  lemma RingOffsetHalfTurn(d: int, i: int, rot: nat)
    requires rot < 3
    ensures RingOffset(d, i, rot + 3) == Negate(RingOffset(d, i, rot))
  {
    RingOffsetShape(d, i);
  }

  /** With the corrected sum, every hex of the ring around `center` is at
      step distance `d` from it. */
  lemma RingAroundCentre(center: HexCoord, d: int, k: int)
    requires 0 <= k < |RingOffsets(d)|
    ensures DistanceStep(AddCorrected(center, RingOffsets(d)[k]), center) == d
  {
    AddCorrectedDistance(center, RingOffsets(d)[k]);
  }

  /** With the written `Add` the first hex of ring `d` around a valid
      `center` is `(x, y + d, 2 z)`: a valid hex only when `z == -d`, and
      then `d` steps away. Around `(0, 5, -5)` with `d == 1` it is
      `(0, 6, -10)`. */
  lemma RingAddAsWritten(center: HexCoord, d: int)
    requires ZeroSum(center) && d >= 0
    ensures GetRing(center, d)[0] == HexCoord(center.x, center.y + d, 2 * center.z)
    ensures ZeroSum(GetRing(center, d)[0]) <==> center.z == -d
  {
    BlocksIndex(d, d + 1, 0);
    RingOffsetShape(d, 0);
  }

  // ---------------------------------------------------------------------
  // Neighbourhoods

  /** The offsets `get_neighbors(_, D)` adds to its centre: the ring
      offsets of rings `1..=D` in order, `3 D^2 + 9 D` entries. */
  function NeighborOffsets(dist: int): (r: seq<HexCoord>)
    decreases dist
    ensures |r| == if dist < 1 then 0 else 3 * dist * dist + 9 * dist
    ensures forall k :: 0 <= k < |r| ==> ZeroSum(r[k]) && 1 <= DistanceStep(r[k], Origin) <= dist
  {
    if dist < 1 then []
    else NeighborOffsets(dist - 1) + RingOffsets(dist)
  }

  /** Every valid hex within step distance `1..=D` is a neighbour offset. */
  lemma {:induction false} NeighborOffsetsComplete(dist: int, q: HexCoord)
    requires ZeroSum(q) && 1 <= DistanceStep(q, Origin) <= dist
    ensures q in NeighborOffsets(dist)
    decreases dist
  {
    var ring := DistanceStep(q, Origin);
    if ring == dist {
      RingComplete(dist, q);
    } else {
      NeighborOffsetsComplete(dist - 1, q);
    }
  }

  /** `get_neighbors(hex, D)` as written. Around a valid hex, entry `k` is
      a valid hex exactly when its offset shares the hex's third
      coordinate, and such an entry is the true sum, `1..=D` steps away. */
  function GetNeighbors(h: HexCoord, dist: int): (r: seq<HexCoord>)
    ensures |r| == if dist < 1 then 0 else 3 * dist * dist + 9 * dist
    ensures forall k :: 0 <= k < |r| ==> r[k] == Add(h, NeighborOffsets(dist)[k])
    ensures ZeroSum(h) ==> forall k :: 0 <= k < |r| ==>
      (ZeroSum(r[k]) <==> h.z == NeighborOffsets(dist)[k].z)
    ensures forall k :: 0 <= k < |r| && h.z == NeighborOffsets(dist)[k].z ==>
      r[k] == AddCorrected(h, NeighborOffsets(dist)[k]) && 1 <= DistanceStep(r[k], h) <= dist
  {
    var offsets := NeighborOffsets(dist);
    assert forall k :: 0 <= k < |offsets| ==>
      DistanceStep(AddCorrected(h, offsets[k]), h) == DistanceStep(offsets[k], Origin) by {
      forall k | 0 <= k < |offsets|
        ensures DistanceStep(AddCorrected(h, offsets[k]), h) == DistanceStep(offsets[k], Origin)
      {
        AddCorrectedDistance(h, offsets[k]);
      }
    }
    seq(|offsets|, k requires 0 <= k < |offsets| => Add(h, offsets[k]))
  }
}
