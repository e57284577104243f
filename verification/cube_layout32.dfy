/** The 32-bit cubic layout of src/cube_layout.rs.

    The algorithm is the one of the unbounded `Cubic` model; what this
    twin adds is the width of the source's integers. Every `i32`
    operation that leaves the range panics (the overflow checks of a debug
    build, and `div_euclid` on `i32::MIN / -1`), and a panic is `None`.
    Each operation agrees with its `Cubic` counterpart whenever it does
    not panic, and the lemmas at the end say when it does not. */
module CubeLayout32 {
  import opened Wrappers
  import Cubic
  import Arith

  const I32Min: int := -0x8000_0000
  const I32Max: int := 0x7fff_ffff

  newtype i32 = x: int | -0x8000_0000 <= x < 0x8000_0000

  predicate InI32(x: int) {
    I32Min <= x <= I32Max
  }

  datatype ChunkCoord = ChunkCoord(x: i32, y: i32)

  datatype VoxelCoord = VoxelCoord(x: i32, y: i32, z: i32)

  /** The side length is an `f32` in the source; it is modelled by its
      integer value, which is all `space_to_voxel` uses. */
  datatype Layout = Layout(origin: ChunkCoord, voxelSideLength: i32, chunkVoxelLength: i32, chunkVoxelHeight: i32)

  /** `CubeLayout::default()`: origin `(0, 0)`, unit side, `L = 50`,
      height 10. */
  function DefaultLayout(): (l: Layout)
    ensures FullLength(l) == Some(101)
  {
    Layout(ChunkCoord(0, 0), 1, 50, 10)
  }

  // ---------------------------------------------------------------------
  // Widening to the unbounded model

  function WideChunk(c: ChunkCoord): Cubic.ChunkId {
    Cubic.ChunkId(c.x as int, c.y as int)
  }

  function WideVoxel(v: VoxelCoord): Cubic.VoxelId {
    Cubic.VoxelId(v.x as int, v.y as int, v.z as int)
  }

  function WideLayout(l: Layout): Cubic.Layout {
    Cubic.Layout(WideChunk(l.origin), l.voxelSideLength as int, l.chunkVoxelLength as int, l.chunkVoxelHeight as int)
  }

  predicate ChunkFits(c: Cubic.ChunkId) {
    InI32(c.x) && InI32(c.y)
  }

  predicate VoxelFits(v: Cubic.VoxelId) {
    InI32(v.x) && InI32(v.y) && InI32(v.z)
  }

  function NarrowChunks(s: seq<Cubic.ChunkId>): (r: seq<ChunkCoord>)
    requires forall i :: 0 <= i < |s| ==> ChunkFits(s[i])
    ensures |r| == |s|
    ensures forall i :: 0 <= i < |s| ==> WideChunk(r[i]) == s[i]
  {
    if s == [] then []
    else
      var last := s[|s| - 1];
      assert ChunkFits(last);
      NarrowChunks(s[..|s| - 1]) + [ChunkCoord(last.x as i32, last.y as i32)]
  }

  function NarrowVoxels(s: seq<Cubic.VoxelId>): (r: seq<VoxelCoord>)
    requires forall i :: 0 <= i < |s| ==> VoxelFits(s[i])
    ensures |r| == |s|
    ensures forall i :: 0 <= i < |s| ==> WideVoxel(r[i]) == s[i]
  {
    if s == [] then []
    else
      var last := s[|s| - 1];
      assert VoxelFits(last);
      NarrowVoxels(s[..|s| - 1]) + [VoxelCoord(last.x as i32, last.y as i32, last.z as i32)]
  }

  // ---------------------------------------------------------------------
  // Checked coordinate arithmetic

  /** `ChunkCoord + ChunkCoord`: panics exactly when a component sum leaves
      the `i32` range, and otherwise is the unbounded sum. */
  function ChunkAdd(a: ChunkCoord, b: ChunkCoord): (r: Option<ChunkCoord>)
    ensures r.Some? <==> ChunkFits(Cubic.ChunkAdd(WideChunk(a), WideChunk(b)))
    ensures r.Some? ==> WideChunk(r.value) == Cubic.ChunkAdd(WideChunk(a), WideChunk(b))
  {
    var x, y := a.x as int + b.x as int, a.y as int + b.y as int;
    if InI32(x) && InI32(y) then Some(ChunkCoord(x as i32, y as i32)) else None
  }

  /** `ChunkCoord - ChunkCoord`, with the same overflow behaviour. */
  function ChunkSub(a: ChunkCoord, b: ChunkCoord): (r: Option<ChunkCoord>)
    ensures r.Some? <==> ChunkFits(Cubic.ChunkSub(WideChunk(a), WideChunk(b)))
    ensures r.Some? ==> WideChunk(r.value) == Cubic.ChunkSub(WideChunk(a), WideChunk(b))
  {
    var x, y := a.x as int - b.x as int, a.y as int - b.y as int;
    if InI32(x) && InI32(y) then Some(ChunkCoord(x as i32, y as i32)) else None
  }

  /** `VoxelCoord + VoxelCoord`. */
  function VoxelAdd(a: VoxelCoord, b: VoxelCoord): (r: Option<VoxelCoord>)
    ensures r.Some? <==> VoxelFits(Cubic.VoxelAdd(WideVoxel(a), WideVoxel(b)))
    ensures r.Some? ==> WideVoxel(r.value) == Cubic.VoxelAdd(WideVoxel(a), WideVoxel(b))
  {
    var x, y, z := a.x as int + b.x as int, a.y as int + b.y as int, a.z as int + b.z as int;
    if InI32(x) && InI32(y) && InI32(z) then Some(VoxelCoord(x as i32, y as i32, z as i32)) else None
  }

  /** `VoxelCoord - VoxelCoord`. */
  function VoxelSub(a: VoxelCoord, b: VoxelCoord): (r: Option<VoxelCoord>)
    ensures r.Some? <==> VoxelFits(Cubic.VoxelSub(WideVoxel(a), WideVoxel(b)))
    ensures r.Some? ==> WideVoxel(r.value) == Cubic.VoxelSub(WideVoxel(a), WideVoxel(b))
  {
    var x, y, z := a.x as int - b.x as int, a.y as int - b.y as int, a.z as int - b.z as int;
    if InI32(x) && InI32(y) && InI32(z) then Some(VoxelCoord(x as i32, y as i32, z as i32)) else None
  }

  /** A chunk sum that does not overflow is undone by subtraction, which
      then cannot overflow either. */
  lemma ChunkAddSubRoundTrip(a: ChunkCoord, b: ChunkCoord)
    requires ChunkAdd(a, b).Some?
    ensures ChunkSub(ChunkAdd(a, b).value, b) == Some(a)
  {
  }

  /** The same for voxels. */
  lemma VoxelAddSubRoundTrip(a: VoxelCoord, b: VoxelCoord)
    requires VoxelAdd(a, b).Some?
    ensures VoxelSub(VoxelAdd(a, b).value, b) == Some(a)
  {
  }

  // ---------------------------------------------------------------------
  // Chunk geometry

  /** `chunk_voxel_full_length`: `1 + L * 2`, which panics when `L * 2`
      leaves the range, i.e. when `|L|` reaches `2^30`. */
  function FullLength(l: Layout): (r: Option<i32>)
    ensures r.Some? <==> -0x4000_0000 <= l.chunkVoxelLength as int < 0x4000_0000
    ensures r.Some? ==> r.value as int == Cubic.FullLength(WideLayout(l))
  {
    var twice := l.chunkVoxelLength as int * 2;
    if InI32(twice) then Some((1 + twice) as i32) else None
  }

  /** `i32::checked_mul` as a panic. */
  function Mul(a: i32, b: i32): (r: Option<i32>)
    ensures r.Some? <==> InI32(a as int * b as int)
    ensures r.Some? ==> r.value as int == a as int * b as int
  {
    if InI32(a as int * b as int) then Some((a as int * b as int) as i32) else None
  }

  /** The chunk side `F` and the products `c * F` of `get_center_voxel`
      all fit in `i32`. */
  predicate CentreFits(l: Layout, c: ChunkCoord) {
    var f := Cubic.FullLength(WideLayout(l));
    -0x4000_0000 <= l.chunkVoxelLength as int < 0x4000_0000 && InI32(c.x as int * f) && InI32(c.y as int * f)
  }

  /** `get_center_voxel`: panics exactly when `F` or one of the products
      `c * F` overflows. */
  function CenterVoxel(l: Layout, c: ChunkCoord): (r: Option<VoxelCoord>)
    ensures r.Some? <==> CentreFits(l, c)
    ensures r.Some? ==> WideVoxel(r.value) == Cubic.CenterVoxel(WideLayout(l), WideChunk(c))
  {
    match FullLength(l)
    case None => None
    case Some(f) =>
      match (Mul(c.x, f), Mul(c.y, f))
      case (Some(x), Some(z)) => Some(VoxelCoord(x, 0, z))
      case _ => None
  }

  /** `get_voxel`: the voxel at offset `(x, y, z)` from chunk `c`'s centre.
      It panics exactly when the centre does or when adding the offset
      leaves the range. */
  function GetVoxel(l: Layout, c: ChunkCoord, x: i32, y: i32, z: i32): (r: Option<VoxelCoord>)
    ensures var f := Cubic.FullLength(WideLayout(l));
      r.Some? <==> CentreFits(l, c) && InI32(x as int + c.x as int * f) && InI32(z as int + c.y as int * f)
    ensures r.Some? ==> WideVoxel(r.value) == Cubic.GetVoxel(WideLayout(l), WideChunk(c), x as int, y as int, z as int)
  {
    match FullLength(l)
    case None => None
    case Some(f) =>
      match (Mul(c.x, f), Mul(c.y, f))
      case (Some(cx), Some(cz)) =>
        if InI32(x as int + cx as int) && InI32(z as int + cz as int) then
          Some(VoxelCoord((x as int + cx as int) as i32, y, (z as int + cz as int) as i32))
        else None
      case _ => None
  }

  /** `i32::div_euclid`: panics on a zero divisor and on `i32::MIN / -1`,
      the one quotient outside the range. */
  function DivEuclid(a: i32, b: i32): (r: Option<i32>)
    ensures r.Some? <==> b != 0 && !(a as int == I32Min && b == -1)
    ensures r.Some? ==> r.value as int == a as int / b as int
  {
    if b == 0 then None
    else if a as int == I32Min && b == -1 then None
    else
      var q := a as int / b as int;
      assert InI32(q) by { QuotientFits(a as int, b as int); }
      Some(q as i32)
  }

  lemma QuotientFits(a: int, b: int)
    requires InI32(a) && b != 0 && !(a == I32Min && b == -1)
    ensures InI32(a / b)
  {
    Arith.DivBounds(a, if b < 0 then -b else b);
    if b < 0 {
      assert a / b == -(a / -b);
    }
  }

  /** `voxel_to_chunk`. For a non-negative `L` it panics exactly when
      `x + L`, `z + L` or `L * 2` overflows; the division itself then
      cannot. */
  function VoxelToChunk(l: Layout, v: VoxelCoord): (r: Option<ChunkCoord>)
    ensures r.Some? <==> ChunkOfFits(l, v)
    ensures r.Some? ==> WideChunk(r.value) == Cubic.VoxelToChunk(WideLayout(l), WideVoxel(v))
    ensures l.chunkVoxelLength >= 0 ==>
      (r.Some? <==>
        && InI32(v.x as int + l.chunkVoxelLength as int)
        && InI32(v.z as int + l.chunkVoxelLength as int)
        && l.chunkVoxelLength as int < 0x4000_0000)
  {
    var ax, az := v.x as int + l.chunkVoxelLength as int, v.z as int + l.chunkVoxelLength as int;
    if !InI32(ax) || !InI32(az) then None
    else
      match FullLength(l)
      case None => None
      case Some(f) =>
        match (DivEuclid(ax as i32, f), DivEuclid(az as i32, f))
        case (Some(x), Some(y)) => Some(ChunkCoord(x, y))
        case _ => None
  }

  /** No step of `voxel_to_chunk` panics: the sums `x + L` and `z + L` and
      `F` fit, and with `L == -1`, so `F == -1`, neither sum is
      `i32::MIN`. */
  predicate ChunkOfFits(l: Layout, v: VoxelCoord) {
    var len := l.chunkVoxelLength as int;
    && InI32(v.x as int + len) && InI32(v.z as int + len)
    && -0x4000_0000 <= len < 0x4000_0000
    && !(len == -1 && (v.x as int + len == I32Min || v.z as int + len == I32Min))
  }

  // ---------------------------------------------------------------------
  // Enumerations

  /** `get_chunk_neighbors(c, d)`. The ring bound `2 * ring` panics once a
      ring reaches `2^30`, and each neighbour `c + offset` panics when it
      leaves the range; the offsets themselves always fit. Whenever the
      whole list can be produced it is the unbounded list, element by
      element. */
  function Neighbors(c: ChunkCoord, d: i32): (r: Option<seq<ChunkCoord>>)
    ensures r.Some? <==>
      && d as int < 0x4000_0000
      && forall n <- Cubic.Neighbors(WideChunk(c), d as int) :: ChunkFits(n)
    ensures r.Some? ==>
      && |r.value| == |Cubic.Neighbors(WideChunk(c), d as int)|
      && forall i :: 0 <= i < |r.value| ==> WideChunk(r.value[i]) == Cubic.Neighbors(WideChunk(c), d as int)[i]
  {
    var s := Cubic.Neighbors(WideChunk(c), d as int);
    if d as int < 0x4000_0000 && forall i :: 0 <= i < |s| ==> ChunkFits(s[i]) then Some(NarrowChunks(s))
    else None
  }

  /** `get_chunk_voxels(c)`: `F` is computed even when the range is empty;
      each voxel is `get_voxel(c, x - L, y, z - L)`, which multiplies the
      chunk coordinates by `F` and adds an offset in `-L..=L`. */
  function ChunkVoxels(l: Layout, c: ChunkCoord): (r: Option<seq<VoxelCoord>>)
    ensures r.Some? <==>
      && FullLength(l).Some?
      && (l.chunkVoxelLength >= 0 && l.chunkVoxelHeight > 0 ==> ChunkVoxelsFit(l, c))
    ensures r.Some? ==>
      && |r.value| == |Cubic.ChunkVoxels(WideLayout(l), WideChunk(c))|
      && forall i :: 0 <= i < |r.value| ==> WideVoxel(r.value[i]) == Cubic.ChunkVoxels(WideLayout(l), WideChunk(c))[i]
  {
    var wl := WideLayout(l);
    var s := Cubic.ChunkVoxels(wl, WideChunk(c));
    if FullLength(l).None? then None
    else if l.chunkVoxelLength < 0 || l.chunkVoxelHeight <= 0 then
      assert |s| == 0 by {
        if l.chunkVoxelLength < 0 {
          assert Cubic.Nat(Cubic.FullLength(wl)) == 0;
        }
      }
      Some([])
    else if ChunkVoxelsFit(l, c) then
      forall i | 0 <= i < |s| ensures VoxelFits(s[i]) {
        assert s[i] in s;
      }
      Some(NarrowVoxels(s))
    else None
  }

  /** No step of `get_voxel` overflows for any voxel of chunk `c`: the
      products `c * F` and the extreme voxels `c * F - L`, `c * F + L`. */
  predicate ChunkVoxelsFit(l: Layout, c: ChunkCoord) {
    var f := Cubic.FullLength(WideLayout(l));
    var len := l.chunkVoxelLength as int;
    && InI32(c.x as int * f) && InI32(c.y as int * f)
    && InI32(c.x as int * f - len) && InI32(c.x as int * f + len)
    && InI32(c.y as int * f - len) && InI32(c.y as int * f + len)
  }

  // ---------------------------------------------------------------------
  // World space

  /** `voxel_to_space`, for integral positions: the voxel minus the origin
      chunk's centre, scaled by the side length. The subtraction is in
      `i32`; the scaling is in `f32` and is not range-checked. */
  function VoxelToSpace(l: Layout, v: VoxelCoord): (r: Option<Cubic.Space>)
    ensures r.Some? <==>
      && CentreFits(l, l.origin)
      && VoxelFits(Cubic.VoxelSub(WideVoxel(v), Cubic.CenterVoxel(WideLayout(l), WideChunk(l.origin))))
    ensures r.Some? ==> r.value == Cubic.VoxelToSpace(WideLayout(l), WideVoxel(v))
  {
    match CenterVoxel(l, l.origin)
    case None => None
    case Some(center) =>
      match VoxelSub(v, center)
      case None => None
      case Some(t) =>
        var s := l.voxelSideLength as int;
        Some(Cubic.Space(t.x as int * s, t.y as int * s, t.z as int * s))
  }

  /** `chunk_to_space`: panics exactly when either centre, the chunk's or
      the origin chunk's, overflows, or when their difference does. */
  function ChunkToSpace(l: Layout, c: ChunkCoord): (r: Option<Cubic.Space>)
    ensures r.Some? <==>
      && CentreFits(l, c) && CentreFits(l, l.origin)
      && VoxelFits(Cubic.VoxelSub(Cubic.CenterVoxel(WideLayout(l), WideChunk(c)), Cubic.CenterVoxel(WideLayout(l), WideChunk(l.origin))))
    ensures r.Some? ==> r.value == Cubic.ChunkToSpace(WideLayout(l), WideChunk(c))
  {
    match CenterVoxel(l, c)
    case None => None
    case Some(v) => VoxelToSpace(l, v)
  }

  /** `f32 as i32`: Rust's float-to-integer cast saturates. */
  function Saturate(x: int): (r: i32)
    ensures InI32(x) ==> r as int == x
    ensures x < I32Min ==> r as int == I32Min
    ensures x > I32Max ==> r as int == I32Max
  {
    if x < I32Min then -0x8000_0000 else if x > I32Max then 0x7fff_ffff else x as i32
  }

  /** `space_to_voxel` as written (y divided by the chunk height): each
      coordinate is cast with saturation, divided Euclidean-wise, and the
      origin chunk's centre is added back with overflow checks. On
      in-range points it agrees with the unbounded conversion; a zero side
      length or height panics. */
  function SpaceToVoxel(l: Layout, p: Cubic.Space): (r: Option<VoxelCoord>)
    ensures l.voxelSideLength == 0 || l.chunkVoxelHeight == 0 ==> r.None?
    ensures r.Some? <==>
      && CentreFits(l, l.origin)
      && DivFits(Saturate(p.x), l.voxelSideLength)
      && DivFits(Saturate(p.y), l.chunkVoxelHeight)
      && DivFits(Saturate(p.z), l.voxelSideLength)
      && VoxelFits(Cubic.VoxelAdd(SaturatedQuotient(l, p), Cubic.CenterVoxel(WideLayout(l), WideChunk(l.origin))))
    ensures r.Some? ==>
      WideVoxel(r.value) == Cubic.VoxelAdd(SaturatedQuotient(l, p), Cubic.CenterVoxel(WideLayout(l), WideChunk(l.origin)))
    ensures r.Some? && InI32(p.x) && InI32(p.y) && InI32(p.z) ==>
      Some(WideVoxel(r.value)) == Cubic.SpaceToVoxel(WideLayout(l), p)
  {
    match CenterVoxel(l, l.origin)
    case None => None
    case Some(center) =>
      match (DivEuclid(Saturate(p.x), l.voxelSideLength), DivEuclid(Saturate(p.y), l.chunkVoxelHeight), DivEuclid(Saturate(p.z), l.voxelSideLength))
      case (Some(x), Some(y), Some(z)) => VoxelAdd(VoxelCoord(x, y, z), center)
      case _ => None
  }

  /** `div_euclid` does not panic. */
  predicate DivFits(a: i32, b: i32) {
    b != 0 && !(a as int == I32Min && b == -1)
  }

  /** The three saturated, divided coordinates of `space_to_voxel`. */
  function SaturatedQuotient(l: Layout, p: Cubic.Space): Cubic.VoxelId
    requires DivFits(Saturate(p.x), l.voxelSideLength)
    requires DivFits(Saturate(p.y), l.chunkVoxelHeight)
    requires DivFits(Saturate(p.z), l.voxelSideLength)
  {
    Cubic.VoxelId(Saturate(p.x) as int / l.voxelSideLength as int,
      Saturate(p.y) as int / l.chunkVoxelHeight as int,
      Saturate(p.z) as int / l.voxelSideLength as int)
  }

  /** `space_to_chunk`: panics exactly when `space_to_voxel` does or when
      `voxel_to_chunk` does on its voxel. */
  function SpaceToChunk(l: Layout, p: Cubic.Space): (r: Option<ChunkCoord>)
    ensures l.voxelSideLength == 0 || l.chunkVoxelHeight == 0 ==> r.None?
    ensures r.Some? <==> SpaceToVoxel(l, p).Some? && ChunkOfFits(l, SpaceToVoxel(l, p).value)
    ensures r.Some? && InI32(p.x) && InI32(p.y) && InI32(p.z) && l.chunkVoxelLength >= 0 ==>
      Some(WideChunk(r.value)) == Cubic.SpaceToChunk(WideLayout(l), p)
  {
    match SpaceToVoxel(l, p)
    case None => None
    case Some(v) => VoxelToChunk(l, v)
  }

  // ---------------------------------------------------------------------
  // When nothing overflows

  /** Neighbours of `c` up to distance `d` can be listed whenever the box
      `c ± d` lies inside the `i32` range. */
  lemma NeighborsFit(c: ChunkCoord, d: i32)
    requires 0 <= d as int < 0x4000_0000
    requires InI32(c.x as int - d as int) && InI32(c.x as int + d as int)
    requires InI32(c.y as int - d as int) && InI32(c.y as int + d as int)
    ensures Neighbors(c, d).Some?
  {
    var s := Cubic.Neighbors(WideChunk(c), d as int);
    forall n <- s ensures ChunkFits(n) {
      Cubic.NeighborsWithinDistance(WideChunk(c), d as int, n);
    }
  }

  /** At the edge of the range the enumeration panics: a chunk on the
      upper x boundary has a neighbour beyond it at every distance. */
  lemma NeighborsOverflowAtEdge(c: ChunkCoord, d: i32)
    requires c.x as int == I32Max && 1 <= d
    ensures Neighbors(c, d) == None
  {
    var w := WideChunk(c);
    var n := Cubic.ChunkId(I32Max + 1, w.y);
    Cubic.NeighborsWithinDistance(w, d as int, n);
    assert n in Cubic.Neighbors(w, d as int) && !ChunkFits(n);
  }

  /** The ranges the source's `proptest` blocks draw from (voxels and chunk
      coordinates within `±10000`, `L` in `1..=50`, heights in `0..=50`,
      distances in `1..10`) never overflow, so each `i32` result is the
      unbounded one and the unbounded model's properties carry over. */
  lemma ProptestRangesDoNotOverflow(l: Layout, v: VoxelCoord, d: i32)
    requires 1 <= l.chunkVoxelLength <= 50 && 0 <= l.chunkVoxelHeight <= 50
    requires -10000 <= v.x as int <= 10000 && -10000 <= v.z as int <= 10000
    requires 1 <= d < 10
    ensures VoxelToChunk(l, v).Some?
    ensures var c := VoxelToChunk(l, v).value;
      && -10050 <= c.x as int <= 10050 && -10050 <= c.y as int <= 10050
      && Neighbors(c, d).Some?
      && ChunkVoxels(l, c).Some?
  {
    var wl := WideLayout(l);
    var f := Cubic.FullLength(wl);
    var c := VoxelToChunk(l, v).value;
    ChunkNear(v.x as int, l.chunkVoxelLength as int, f, c.x as int);
    ChunkNear(v.z as int, l.chunkVoxelLength as int, f, c.y as int);
    NeighborsFit(c, d);
    ProductBound(c.x as int, f);
    ProductBound(c.y as int, f);
  }

  /** Neighbourhood is mutual in `i32` too, on the proptest ranges: the
      neighbours of a voxel's chunk can themselves be enumerated without a
      panic, and the chunk occurs exactly once among the neighbours of each
      of them. */
  lemma ProptestNeighborsMutual(l: Layout, v: VoxelCoord, d: i32)
    requires 1 <= l.chunkVoxelLength <= 50 && 0 <= l.chunkVoxelHeight <= 50
    requires -10000 <= v.x as int <= 10000 && -10000 <= v.z as int <= 10000
    requires 1 <= d < 10
    ensures VoxelToChunk(l, v).Some? && Neighbors(VoxelToChunk(l, v).value, d).Some?
    ensures var c := VoxelToChunk(l, v).value;
      forall n <- Neighbors(c, d).value :: Neighbors(n, d).Some? && multiset(Neighbors(n, d).value)[c] == 1
  {
    ProptestRangesDoNotOverflow(l, v, d);
    var c := VoxelToChunk(l, v).value;
    forall n <- Neighbors(c, d).value ensures Neighbors(n, d).Some? && multiset(Neighbors(n, d).value)[c] == 1 {
      NeighborsMutualFit(c, d, n);
    }
  }

  /** Mutuality in `i32`: when the box `c ± 2d` lies inside the range,
      every neighbour of `c` has its own neighbours enumerated without a
      panic, and `c` occurs among them exactly once. */
  lemma NeighborsMutualFit(c: ChunkCoord, d: i32, n: ChunkCoord)
    requires 0 <= d as int < 0x2000_0000
    requires InI32(c.x as int - 2 * d as int) && InI32(c.x as int + 2 * d as int)
    requires InI32(c.y as int - 2 * d as int) && InI32(c.y as int + 2 * d as int)
    requires Neighbors(c, d).Some? && n in Neighbors(c, d).value
    ensures Neighbors(n, d).Some? && multiset(Neighbors(n, d).value)[c] == 1
  {
    NeighborNear(c, d, n);
    NeighborsFit(n, d);
    Cubic.NeighborsMutual(WideChunk(c), d as int, WideChunk(n));
    NarrowKeepsCount(Neighbors(n, d).value, Cubic.Neighbors(WideChunk(n), d as int), c);
  }

  /** Narrowing a list keeps the number of occurrences of each chunk. */
  lemma {:induction false} NarrowKeepsCount(r: seq<ChunkCoord>, s: seq<Cubic.ChunkId>, c: ChunkCoord)
    requires |r| == |s| && forall i :: 0 <= i < |r| ==> WideChunk(r[i]) == s[i]
    ensures multiset(r)[c] == multiset(s)[WideChunk(c)]
  {
    if r != [] {
      var k := |r| - 1;
      NarrowKeepsCount(r[..k], s[..k], c);
      assert r == r[..k] + [r[k]] && s == s[..k] + [s[k]];
      assert r[k] == c <==> s[k] == WideChunk(c);
    }
  }

  /** One step of the proptest's walk, `get_chunk_neighbors(chunk, 1)`,
      never panics near the origin and moves at most one chunk along each
      axis; fewer than 10 steps from `(0, 0)` thus stay within `±9`. */
  lemma ProptestWalkStep(c: ChunkCoord, m: int)
    requires 0 <= m < 10050 && -m <= c.x as int <= m && -m <= c.y as int <= m
    ensures Neighbors(c, 1).Some?
    ensures forall n <- Neighbors(c, 1).value ::
      -m - 1 <= n.x as int <= m + 1 && -m - 1 <= n.y as int <= m + 1
  {
    NeighborsFit(c, 1);
    var ns := Neighbors(c, 1).value;
    forall n <- ns ensures -m - 1 <= n.x as int <= m + 1 && -m - 1 <= n.y as int <= m + 1 {
      NeighborNear(c, 1, n);
    }
  }

  /** A listed neighbour lies within `d` of `c` along each axis. */
  lemma NeighborNear(c: ChunkCoord, d: i32, n: ChunkCoord)
    requires Neighbors(c, d).Some? && n in Neighbors(c, d).value
    ensures -(d as int) <= n.x as int - c.x as int <= d as int
    ensures -(d as int) <= n.y as int - c.y as int <= d as int
  {
    var ns := Neighbors(c, d).value;
    var i :| 0 <= i < |ns| && ns[i] == n;
    assert WideChunk(n) in Cubic.Neighbors(WideChunk(c), d as int);
    Cubic.NeighborsWithinDistance(WideChunk(c), d as int, WideChunk(n));
  }

  /** Every voxel `get_chunk_voxels(c)` lists resolves back to `c` through
      `voxel_to_chunk`, without a panic, for chunks within `±10050` (the
      walk's chunks and every voxel's own chunk on the proptest ranges). */
  lemma ProptestSameChunk(l: Layout, c: ChunkCoord)
    requires 1 <= l.chunkVoxelLength <= 50 && 0 <= l.chunkVoxelHeight <= 50
    requires -10050 <= c.x as int <= 10050 && -10050 <= c.y as int <= 10050
    ensures ChunkVoxels(l, c).Some?
    ensures forall v <- ChunkVoxels(l, c).value :: VoxelToChunk(l, v) == Some(c)
  {
    var wl := WideLayout(l);
    var f := Cubic.FullLength(wl);
    SmallProduct(c.x as int, f);
    SmallProduct(c.y as int, f);
    var vs := ChunkVoxels(l, c).value;
    var ws := Cubic.ChunkVoxels(wl, WideChunk(c));
    forall v <- vs ensures VoxelToChunk(l, v) == Some(c) {
      var i :| 0 <= i < |vs| && vs[i] == v;
      assert WideVoxel(v) in ws;
      assert Cubic.VoxelToChunk(wl, WideVoxel(v)) == WideChunk(c);
      Cubic.VoxelNearChunkCentre(wl, WideVoxel(v));
    }
  }

  /** The chunk of a voxel coordinate within `±10000` has its centre
      within `±10050`, hence its coordinate within `±10050` too. */
  lemma ChunkNear(x: int, len: int, f: int, q: int)
    requires 1 <= len <= 50 && f == 1 + len * 2 && -10000 <= x <= 10000
    requires -len <= x - q * f <= len
    ensures -10050 <= q <= 10050
    ensures -10050 <= q * f <= 10050
  {
    MulGrows(q, f);
  }

  /** Scaling by a positive factor moves away from zero. */
  lemma MulGrows(q: int, f: int)
    requires f >= 1
    ensures q >= 0 ==> q * f >= q
    ensures q <= 0 ==> q * f <= q
  {
    if q >= 0 {
      assert q * f == q + q * (f - 1);
    } else {
      assert q * f == q + q * (f - 1);
    }
  }

  lemma ProductBound(q: int, f: int)
    requires -10050 <= q * f <= 10050
    ensures InI32(q * f) && InI32(q * f - 50) && InI32(q * f + 50)
  {
  }

  /** Round trip in `i32`: with unit side length, a voxel on the ground
      layer whose position can be computed comes back unchanged. */
  lemma VoxelSpaceRoundTrip(l: Layout, v: VoxelCoord)
    requires l.voxelSideLength == 1 && l.chunkVoxelHeight != 0 && v.y == 0
    requires VoxelToSpace(l, v).Some?
    ensures SpaceToVoxel(l, VoxelToSpace(l, v).value) == Some(v)
  {
    var p := VoxelToSpace(l, v).value;
    Cubic.VoxelSpaceRoundTrip(WideLayout(l), WideVoxel(v));
    var r := SpaceToVoxel(l, p);
    assert r.Some?;
  }

  /** Round trip in `i32` for a chunk: its centre's position resolves back
      to the chunk. */
  lemma ChunkSpaceRoundTrip(l: Layout, c: ChunkCoord)
    requires l.voxelSideLength == 1 && l.chunkVoxelHeight != 0 && l.chunkVoxelLength >= 0
    requires ChunkToSpace(l, c).Some?
    requires var f := Cubic.FullLength(WideLayout(l));
      InI32(c.x as int * f + l.chunkVoxelLength as int) && InI32(c.y as int * f + l.chunkVoxelLength as int)
    ensures SpaceToChunk(l, ChunkToSpace(l, c).value) == Some(c)
  {
    var center := CenterVoxel(l, c).value;
    assert WideVoxel(center) == Cubic.CenterVoxel(WideLayout(l), WideChunk(c));
    VoxelSpaceRoundTrip(l, center);
    CenterResolves(l, c, center);
  }

  /** The layouts the space `proptest` blocks build: origin within
      `±10000`, unit side length, `L` in `1..=50`, and the height equal to
      `L`. */
  predicate ProptestLayout(l: Layout) {
    && -10000 <= l.origin.x as int <= 10000 && -10000 <= l.origin.y as int <= 10000
    && l.voxelSideLength == 1
    && 1 <= l.chunkVoxelLength <= 50 && l.chunkVoxelHeight == l.chunkVoxelLength
  }

  /** In those layouts the origin chunk's centre lies within `±1015050`. */
  lemma ProptestCentre(l: Layout)
    requires ProptestLayout(l)
    ensures CenterVoxel(l, l.origin).Some?
    ensures var o := CenterVoxel(l, l.origin).value;
      -1_015_050 <= o.x as int <= 1_015_050 && -1_015_050 <= o.z as int <= 1_015_050
  {
    var wl := WideLayout(l);
    var f := Cubic.FullLength(wl);
    var x, y := l.origin.x as int, l.origin.y as int;
    SmallProduct(x, f);
    SmallProduct(y, f);
    assert CentreFits(l, l.origin);
    assert Cubic.CenterVoxel(wl, WideChunk(l.origin)) == Cubic.VoxelId(x * f, 0, y * f);
  }

  /** A coordinate within `±10050` times a chunk side of at most 101. */
  lemma SmallProduct(q: int, f: int)
    requires -10050 <= q <= 10050 && 1 <= f <= 101
    ensures -1_015_050 <= q * f <= 1_015_050
  {
    Arith.MulMonotone(q, 10050, f);
    Arith.MulMonotone(-10050, q, f);
    Arith.MulMonotone(f, 101, 10050);
  }

  /** `chunk_space_coordinates_should_be_zero_when_at_origin`: in the
      proptest layouts the origin chunk sits at position zero, with no
      panic on the way. */
  lemma ProptestOriginAtZero(l: Layout)
    requires ProptestLayout(l)
    ensures ChunkToSpace(l, l.origin) == Some(Cubic.Space(0, 0, 0))
  {
    ProptestCentre(l);
    Cubic.OriginChunkAtZero(WideLayout(l));
  }

  /** `voxel_space_coordinates_should_be_reversible`: for a ground voxel
      within `±10000` in a proptest layout, `voxel_to_space` does not
      panic and `space_to_voxel` gives the voxel back. */
  lemma ProptestVoxelSpaceRoundTrip(l: Layout, v: VoxelCoord)
    requires ProptestLayout(l)
    requires -10000 <= v.x as int <= 10000 && v.y == 0 && -10000 <= v.z as int <= 10000
    ensures VoxelToSpace(l, v).Some?
    ensures SpaceToVoxel(l, VoxelToSpace(l, v).value) == Some(v)
  {
    ProptestCentre(l);
    VoxelSpaceRoundTrip(l, v);
  }

  /** `chunk_space_coordinates_should_be_reversible`: the chunk of such a
      voxel survives `chunk_to_space` and `space_to_chunk` without a
      panic. */
  lemma ProptestChunkSpaceRoundTrip(l: Layout, v: VoxelCoord)
    requires ProptestLayout(l)
    requires -10000 <= v.x as int <= 10000 && v.y == 0 && -10000 <= v.z as int <= 10000
    ensures VoxelToChunk(l, v).Some?
    ensures ChunkToSpace(l, VoxelToChunk(l, v).value).Some?
    ensures SpaceToChunk(l, ChunkToSpace(l, VoxelToChunk(l, v).value).value) == VoxelToChunk(l, v)
  {
    ProptestRangesDoNotOverflow(l, v, 1);
    var c := VoxelToChunk(l, v).value;
    var f := Cubic.FullLength(WideLayout(l));
    ProptestCentre(l);
    SmallProduct(c.x as int, f);
    SmallProduct(c.y as int, f);
    ChunkSpaceRoundTrip(l, c);
  }

  /** `voxel_should_resolve_to_same_chunk_in_space`: such a voxel's
      position resolves, without a panic, to the voxel's own chunk. */
  lemma ProptestVoxelChunkViaSpace(l: Layout, v: VoxelCoord)
    requires ProptestLayout(l)
    requires -10000 <= v.x as int <= 10000 && v.y == 0 && -10000 <= v.z as int <= 10000
    ensures VoxelToSpace(l, v).Some? && VoxelToChunk(l, v).Some?
    ensures SpaceToChunk(l, VoxelToSpace(l, v).value) == VoxelToChunk(l, v)
  {
    ProptestVoxelSpaceRoundTrip(l, v);
    ProptestRangesDoNotOverflow(l, v, 1);
  }

  /** The centre of a chunk resolves to the chunk when `c * F + L` fits. */
  lemma CenterResolves(l: Layout, c: ChunkCoord, center: VoxelCoord)
    requires l.chunkVoxelLength >= 0 && CenterVoxel(l, c) == Some(center)
    requires var f := Cubic.FullLength(WideLayout(l));
      InI32(c.x as int * f + l.chunkVoxelLength as int) && InI32(c.y as int * f + l.chunkVoxelLength as int)
    ensures VoxelToChunk(l, center) == Some(c)
  {
    var r := VoxelToChunk(l, center);
    assert r.Some?;
    assert WideChunk(r.value) == WideChunk(c);
  }
}
