/** The cubic voxel layout of crates/gen_terrain/src/voxel/layout.rs.

    A chunk is a square column of `F x F` voxels, `F = 2L + 1` where `L` is
    `chunk_voxel_length`, and `chunk_voxel_height` voxels tall. Chunk `c` is
    centred on voxel `(c.x * F, 0, c.y * F)`. Coordinates are unbounded
    integers here; the 32-bit twin in CubeLayout32 shows where overflow
    would bite. World space is modelled on integer points: the source's
    `f32` positions are integral whenever the side length is, and exact
    only while coordinates stay within `2^24`. */
module Cubic {
  import opened Wrappers
  import opened Seqs
  import opened Arith

  function Abs(x: int): nat {
    if x < 0 then -x else x
  }

  function Max(a: int, b: int): int {
    if a < b then b else a
  }

  /** Clamps a Rust range bound: `0..n` is empty when `n <= 0`. */
  function Nat(n: int): nat {
    if n < 0 then 0 else n
  }

  datatype ChunkId = ChunkId(x: int, y: int)

  datatype VoxelId = VoxelId(x: int, y: int, z: int)

  /** A point of world space, on the integer lattice. */
  datatype Space = Space(x: int, y: int, z: int)

  /** `voxelSideLength` stands for the `f32` side length; only its integer
      part (`as i64`) is ever used for division. */
  datatype Layout = Layout(origin: ChunkId, voxelSideLength: int, chunkVoxelLength: int, chunkVoxelHeight: int)

  function DefaultLayout(): (l: Layout)
    ensures FullLength(l) == 23
  {
    Layout(ChunkId(0, 0), 1, 11, 10)
  }

  // ---------------------------------------------------------------------
  // Identifier arithmetic

  function ChunkAdd(a: ChunkId, b: ChunkId): ChunkId {
    ChunkId(a.x + b.x, a.y + b.y)
  }

  /** Component-wise difference: undoes `ChunkAdd`. */
  function ChunkSub(a: ChunkId, b: ChunkId): (r: ChunkId)
    ensures ChunkAdd(r, b) == a
  {
    ChunkId(a.x - b.x, a.y - b.y)
  }

  function VoxelAdd(a: VoxelId, b: VoxelId): VoxelId {
    VoxelId(a.x + b.x, a.y + b.y, a.z + b.z)
  }

  /** Component-wise difference: undoes `VoxelAdd`. */
  function VoxelSub(a: VoxelId, b: VoxelId): (r: VoxelId)
    ensures VoxelAdd(r, b) == a
  {
    VoxelId(a.x - b.x, a.y - b.y, a.z - b.z)
  }

  /** The sums are commutative and undone by the differences. */
  lemma AddSubInverse(a: ChunkId, b: ChunkId, u: VoxelId, v: VoxelId)
    ensures ChunkAdd(a, b) == ChunkAdd(b, a) && ChunkSub(ChunkAdd(a, b), b) == a
    ensures VoxelAdd(u, v) == VoxelAdd(v, u) && VoxelSub(VoxelAdd(u, v), v) == u
  {
  }

  /** The max-norm distance of an offset from the origin. */
  function Chebyshev(v: ChunkId): nat {
    Max(Abs(v.x), Abs(v.y))
  }

  // ---------------------------------------------------------------------
  // Chunk geometry

  /** `chunk_voxel_full_length`: odd, hence never a zero divisor. */
  function FullLength(l: Layout): (f: int)
    ensures f % 2 == 1
    ensures l.chunkVoxelLength >= 0 ==> f > l.chunkVoxelLength
  {
    1 + l.chunkVoxelLength * 2
  }

  /** The voxel at the middle of a chunk's bottom layer. */
  function CenterVoxel(l: Layout, c: ChunkId): (v: VoxelId)
    ensures v.y == 0
    ensures l.chunkVoxelLength >= 0 ==> VoxelToChunk(l, v) == c
  {
    var f := FullLength(l);
    if l.chunkVoxelLength >= 0 then
      DivIsUnique(c.x * f + l.chunkVoxelLength, f, c.x, l.chunkVoxelLength);
      DivIsUnique(c.y * f + l.chunkVoxelLength, f, c.y, l.chunkVoxelLength);
      VoxelId(c.x * f, 0, c.y * f)
    else
      VoxelId(c.x * f, 0, c.y * f)
  }

  /** The voxel at offset `(x, y, z)` from the centre of chunk `c`. */
  function GetVoxel(l: Layout, c: ChunkId, x: int, y: int, z: int): (v: VoxelId)
    ensures VoxelSub(v, CenterVoxel(l, c)) == VoxelId(x, y, z)
  {
    VoxelId(x + c.x * FullLength(l), y, z + c.y * FullLength(l))
  }

  /** `voxel_to_chunk`: Euclidean (floor) division of the shifted x and z,
      so negative coordinates go to the chunk containing them. The result
      is the chunk whose centre lies within `L` of the voxel on both axes. */
  function VoxelToChunk(l: Layout, v: VoxelId): (c: ChunkId)
    ensures l.chunkVoxelLength >= 0 ==>
      && -l.chunkVoxelLength <= v.x - c.x * FullLength(l) <= l.chunkVoxelLength
      && -l.chunkVoxelLength <= v.z - c.y * FullLength(l) <= l.chunkVoxelLength
  {
    var f := FullLength(l);
    if l.chunkVoxelLength >= 0 then
      DivBounds(v.x + l.chunkVoxelLength, f);
      DivBounds(v.z + l.chunkVoxelLength, f);
      ChunkId((v.x + l.chunkVoxelLength) / f, (v.z + l.chunkVoxelLength) / f)
    else
      ChunkId((v.x + l.chunkVoxelLength) / f, (v.z + l.chunkVoxelLength) / f)
  }

  /** The x/z offset of any voxel from the centre of its own chunk is at
      most `chunk_voxel_length`, in both directions. */
  lemma VoxelNearChunkCentre(l: Layout, v: VoxelId)
    requires l.chunkVoxelLength >= 0
    ensures var d := VoxelSub(v, CenterVoxel(l, VoxelToChunk(l, v)));
      && -l.chunkVoxelLength <= d.x <= l.chunkVoxelLength
      && -l.chunkVoxelLength <= d.z <= l.chunkVoxelLength
  {
  }

  // ---------------------------------------------------------------------
  // Neighbour rings

  /** `ROTATE_4X[k]` applied to an integer vector: the column-major
      matrices `[0,1,-1,0]`, `[-1,0,0,-1]`, `[0,-1,1,0]` and the identity,
      i.e. rotations by 90, 180 and 270 degrees and by nothing. */
  function Rotate(k: nat, v: ChunkId): (r: ChunkId)
    requires k < 4
    ensures Chebyshev(r) == Chebyshev(v)
  {
    if k == 0 then ChunkId(-v.y, v.x)
    else if k == 1 then ChunkId(-v.x, -v.y)
    else if k == 2 then ChunkId(v.y, -v.x)
    else v
  }

  /** The `offset`-th point of the bottom edge of ring `ring`. */
  function Edge(ring: int, offset: int): ChunkId {
    ChunkId(-ring + offset, -ring)
  }

  /** The four chunks one step of the ring walk emits, in `ROTATE_4X` order. */
  function RingStep(c: ChunkId, ring: int, offset: int): seq<ChunkId> {
    var e := Edge(ring, offset);
    [ChunkAdd(c, Rotate(0, e)), ChunkAdd(c, Rotate(1, e)), ChunkAdd(c, Rotate(2, e)), ChunkAdd(c, Rotate(3, e))]
  }

  /** Which step of the walk of ring `ring` produces the offset `v`: the
      four rotated edges cover the ring's bottom side without its right end,
      its right side without its top end, and so on. */
  function EdgeIndex(v: ChunkId, ring: int): (o: int)
    ensures Chebyshev(v) == ring && ring >= 1 ==> 0 <= o < 2 * ring
  {
    if v.y == -ring && v.x < ring then v.x + ring
    else if v.x == ring && v.y < ring then v.y + ring
    else if v.y == ring && v.x > -ring then ring - v.x
    else ring - v.y
  }

  /** Which rotation of `ROTATE_4X` carries the bottom edge onto the
      side of the ring that holds `v`. */
  function Quadrant(v: ChunkId, ring: int): nat {
    if v.y == -ring && v.x < ring then 3
    else if v.x == ring && v.y < ring then 0
    else if v.y == ring && v.x > -ring then 1
    else 2
  }

  /** The rotated edge points are exactly the ring points, each named by
      its side and its index along the walk. */
  lemma RotateEdgeInverse(ring: int, offset: int, k: nat, v: ChunkId)
    requires ring >= 1 && 0 <= offset < 2 * ring && k < 4
    ensures Rotate(k, Edge(ring, offset)) == v
      <==> Chebyshev(v) == ring && EdgeIndex(v, ring) == offset && Quadrant(v, ring) == k
  {
  }

  /** One step emits the offsets of its own index, each exactly once. */
  lemma StepOccurrences(c: ChunkId, ring: int, offset: int)
    requires ring >= 1 && 0 <= offset < 2 * ring
    ensures forall q ::
      multiset(RingStep(c, ring, offset))[q] ==
      if Chebyshev(ChunkSub(q, c)) == ring && EdgeIndex(ChunkSub(q, c), ring) == offset then 1 else 0
  {
    forall q
      ensures multiset(RingStep(c, ring, offset))[q] ==
        (if Chebyshev(ChunkSub(q, c)) == ring && EdgeIndex(ChunkSub(q, c), ring) == offset then 1 else 0)
    {
      StepCount(c, ring, offset, q);
    }
  }

  lemma StepCount(c: ChunkId, ring: int, offset: int, q: ChunkId)
    requires ring >= 1 && 0 <= offset < 2 * ring
    ensures multiset(RingStep(c, ring, offset))[q] ==
      if Chebyshev(ChunkSub(q, c)) == ring && EdgeIndex(ChunkSub(q, c), ring) == offset then 1 else 0
  {
    var v := ChunkSub(q, c);
    var s := RingStep(c, ring, offset);
    var hit := Chebyshev(v) == ring && EdgeIndex(v, ring) == offset;
    var k := if hit then Quadrant(v, ring) else -1;
    forall j | 0 <= j < |s| ensures s[j] == q <==> j == k {
      assert s[j] == ChunkAdd(c, Rotate(j, Edge(ring, offset)));
      RotateEdgeInverse(ring, offset, j, v);
    }
    OccursAtOneIndex(s, q, k);
  }

  /** The first `n` steps of the walk of ring `ring` around `c`. */
  function EdgeWalk(c: ChunkId, ring: int, n: nat): (r: seq<ChunkId>)
    requires ring >= 1 && n <= 2 * ring
    ensures |r| == 4 * n
    ensures forall q ::
      multiset(r)[q] ==
      if Chebyshev(ChunkSub(q, c)) == ring && EdgeIndex(ChunkSub(q, c), ring) < n then 1 else 0
  {
    if n == 0 then []
    else
      StepOccurrences(c, ring, n - 1);
      EdgeWalk(c, ring, n - 1) + RingStep(c, ring, n - 1)
  }

  /** `get_chunk_neighbors(c, d)`: rings `1..=d` around `c`, innermost
      first. Every chunk at Chebyshev distance 1 to `d` from `c` occurs
      exactly once, and nothing else occurs. */
  function Neighbors(c: ChunkId, d: int): (r: seq<ChunkId>)
    decreases d
    ensures |r| == if d < 1 then 0 else (2 * d + 1) * (2 * d + 1) - 1
    ensures forall q :: multiset(r)[q] == if 1 <= Chebyshev(ChunkSub(q, c)) <= d then 1 else 0
  {
    if d < 1 then []
    else
      var inner := Neighbors(c, d - 1);
      var ring := EdgeWalk(c, d, 2 * d);
      RingCount(d);
      assert forall q :: multiset(inner + ring)[q] == if 1 <= Chebyshev(ChunkSub(q, c)) <= d then 1 else 0 by {
        forall q ensures multiset(inner + ring)[q] == if 1 <= Chebyshev(ChunkSub(q, c)) <= d then 1 else 0 {
          var v := ChunkSub(q, c);
          assert multiset(inner + ring)[q] == multiset(inner)[q] + multiset(ring)[q];
          if Chebyshev(v) == d {
            assert EdgeIndex(v, d) < 2 * d;
          }
        }
      }
      inner + ring
  }

  /** Adding ring `d`, of `8d` chunks, grows the square of side `2d - 1`
      to the square of side `2d + 1`. */
  lemma RingCount(d: int)
    ensures (if d - 1 < 1 then 0 else (2 * (d - 1) + 1) * (2 * (d - 1) + 1) - 1) + 4 * (2 * d)
      == if d < 1 then 8 * d else (2 * d + 1) * (2 * d + 1) - 1
  {
  }

  /** A chunk is a neighbour exactly when it is within Chebyshev distance
      `d`, and distinct from `c`. */
  lemma NeighborsWithinDistance(c: ChunkId, d: int, n: ChunkId)
    ensures n in Neighbors(c, d) <==> 1 <= Chebyshev(ChunkSub(n, c)) <= d
  {
    assert n in Neighbors(c, d) <==> multiset(Neighbors(c, d))[n] > 0;
  }

  /** Neighbourhood is mutual: `c` occurs exactly once among the
      neighbours of each of its neighbours. */
  lemma NeighborsMutual(c: ChunkId, d: int, n: ChunkId)
    requires n in Neighbors(c, d)
    ensures multiset(Neighbors(n, d))[c] == 1
  {
    NeighborsWithinDistance(c, d, n);
    ChebyshevSymmetric(c, n);
  }

  lemma ChebyshevSymmetric(a: ChunkId, b: ChunkId)
    ensures Chebyshev(ChunkSub(a, b)) == Chebyshev(ChunkSub(b, a))
  {
  }

  /** No chunk is listed twice. */
  lemma NeighborsDistinct(c: ChunkId, d: int)
    ensures Distinct(Neighbors(c, d))
  {
    AtMostOnceIsDistinct(Neighbors(c, d));
  }

  // ---------------------------------------------------------------------
  // The voxels of a chunk

  /** Voxels `y in 0..n` of the column at local `(x, z)`. */
  function ColumnVoxels(l: Layout, c: ChunkId, x: int, z: int, n: nat): (r: seq<VoxelId>)
    ensures |r| == n
    ensures Distinct(r)
    ensures forall v :: v in r <==>
      && v.x == x - l.chunkVoxelLength + c.x * FullLength(l)
      && v.z == z - l.chunkVoxelLength + c.y * FullLength(l)
      && 0 <= v.y < n
  {
    if n == 0 then []
    else
      var init := ColumnVoxels(l, c, x, z, n - 1);
      var v := GetVoxel(l, c, x - l.chunkVoxelLength, n - 1, z - l.chunkVoxelLength);
      DistinctConcat(init, [v]);
      init + [v]
  }

  /** Columns `z in 0..n` of the slice at local `x`. */
  function SliceVoxels(l: Layout, c: ChunkId, x: int, n: nat): (r: seq<VoxelId>)
    ensures |r| == n * Nat(l.chunkVoxelHeight)
    ensures Distinct(r)
    ensures forall v :: v in r <==>
      && v.x == x - l.chunkVoxelLength + c.x * FullLength(l)
      && c.y * FullLength(l) - l.chunkVoxelLength <= v.z < c.y * FullLength(l) - l.chunkVoxelLength + n
      && 0 <= v.y < l.chunkVoxelHeight
  {
    if n == 0 then []
    else
      var init := SliceVoxels(l, c, x, n - 1);
      var col := ColumnVoxels(l, c, x, n - 1, Nat(l.chunkVoxelHeight));
      DistinctConcat(init, col);
      init + col
  }

  /** Slices `x in 0..n`. */
  function BlockVoxels(l: Layout, c: ChunkId, n: nat): (r: seq<VoxelId>)
    ensures |r| == n * (Nat(FullLength(l)) * Nat(l.chunkVoxelHeight))
    ensures Distinct(r)
    ensures forall v :: v in r <==>
      && c.x * FullLength(l) - l.chunkVoxelLength <= v.x < c.x * FullLength(l) - l.chunkVoxelLength + n
      && l.chunkVoxelLength >= 0
      && c.y * FullLength(l) - l.chunkVoxelLength <= v.z < c.y * FullLength(l) + l.chunkVoxelLength + 1
      && 0 <= v.y < l.chunkVoxelHeight
  {
    if n == 0 then []
    else
      var init := BlockVoxels(l, c, n - 1);
      var slice := SliceVoxels(l, c, n - 1, Nat(FullLength(l)));
      DistinctConcat(init, slice);
      MulStep(n, Nat(FullLength(l)) * Nat(l.chunkVoxelHeight));
      init + slice
  }

  /** `get_chunk_voxels`: the voxels of chunk `c`, x outermost, then z,
      then height. It lists `F * F * chunk_voxel_height` voxels (none when
      the height is 0), each once, and they are exactly the voxels of the
      chunk's height range that `voxel_to_chunk` sends back to `c`. */
  function ChunkVoxels(l: Layout, c: ChunkId): (r: seq<VoxelId>)
    ensures |r| == Nat(FullLength(l)) * (Nat(FullLength(l)) * Nat(l.chunkVoxelHeight))
    ensures Distinct(r)
    ensures forall v :: v in r <==>
      && l.chunkVoxelLength >= 0
      && VoxelToChunk(l, v) == c
      && 0 <= v.y < l.chunkVoxelHeight
  {
    var r := BlockVoxels(l, c, Nat(FullLength(l)));
    forall v ensures v in r <==> l.chunkVoxelLength >= 0 && VoxelToChunk(l, v) == c && 0 <= v.y < l.chunkVoxelHeight {
      if l.chunkVoxelLength >= 0 {
        BlockIsChunk(l, c, v);
      }
    }
    r
  }

  /** The voxel box `BlockVoxels` describes for a full slice count is the
      preimage of `c` under `voxel_to_chunk`. */
  lemma BlockIsChunk(l: Layout, c: ChunkId, v: VoxelId)
    requires l.chunkVoxelLength >= 0
    ensures
      (&& c.x * FullLength(l) - l.chunkVoxelLength <= v.x < c.x * FullLength(l) - l.chunkVoxelLength + FullLength(l)
       && c.y * FullLength(l) - l.chunkVoxelLength <= v.z < c.y * FullLength(l) + l.chunkVoxelLength + 1)
      <==> VoxelToChunk(l, v) == c
  {
    var f := FullLength(l);
    DivInterval(v.x + l.chunkVoxelLength, f, c.x);
    DivInterval(v.z + l.chunkVoxelLength, f, c.y);
  }

  // ---------------------------------------------------------------------
  // World-space conversions

  /** `voxel_to_space`: the voxel's offset from the origin chunk's centre,
      scaled by the side length. The origin chunk's centre sits at the
      space origin, and with a non-zero side length it is the only voxel
      there; with unit side length the position plus that centre is the
      voxel. */
  function VoxelToSpace(l: Layout, v: VoxelId): (p: Space)
    ensures l.voxelSideLength != 0 ==> (p == Space(0, 0, 0) <==> v == CenterVoxel(l, l.origin))
    ensures l.voxelSideLength == 1 ==> VoxelAdd(VoxelId(p.x, p.y, p.z), CenterVoxel(l, l.origin)) == v
  {
    var t := VoxelSub(v, CenterVoxel(l, l.origin));
    var s := l.voxelSideLength;
    MulZero(t.x, s);
    MulZero(t.y, s);
    MulZero(t.z, s);
    Space(t.x * s, t.y * s, t.z * s)
  }

  /** `chunk_to_space`: the position of the chunk's centre voxel. It lies
      on the ground plane, and with a non-zero side length it is the space
      origin exactly for the origin chunk. */
  function ChunkToSpace(l: Layout, c: ChunkId): (p: Space)
    ensures p.y == 0
    ensures l.voxelSideLength != 0 ==> (p == Space(0, 0, 0) <==> c == l.origin)
  {
    var v := CenterVoxel(l, c);
    assert v == CenterVoxel(l, l.origin) <==> c == l.origin by {
      var f := FullLength(l);
      MulZero(c.x - l.origin.x, f);
      MulZero(c.y - l.origin.y, f);
      assert c.x * f - l.origin.x * f == (c.x - l.origin.x) * f;
      assert c.y * f - l.origin.y * f == (c.y - l.origin.y) * f;
    }
    VoxelToSpace(l, v)
  }

  /** `space_to_voxel` as written: x and z are divided by the side length,
      but y is divided by `chunk_voxel_height`. A zero divisor panics
      (`None`). With unit side length it inverts `voxel_to_space` on the x
      and z axes. */
  function SpaceToVoxel(l: Layout, p: Space): (r: Option<VoxelId>)
    ensures r.None? <==> l.voxelSideLength == 0 || l.chunkVoxelHeight == 0
    ensures r.Some? && l.voxelSideLength == 1 ==>
      VoxelToSpace(l, r.value).x == p.x && VoxelToSpace(l, r.value).z == p.z
  {
    if l.voxelSideLength == 0 || l.chunkVoxelHeight == 0 then None
    else
      var s := l.voxelSideLength;
      Some(VoxelAdd(VoxelId(p.x / s, p.y / l.chunkVoxelHeight, p.z / s), CenterVoxel(l, l.origin)))
  }

  /** `space_to_chunk`: the chunk of the voxel at `p`. With unit side
      length that chunk's centre lies within `L` of `p` along x and z. */
  function SpaceToChunk(l: Layout, p: Space): (r: Option<ChunkId>)
    ensures r.None? <==> l.voxelSideLength == 0 || l.chunkVoxelHeight == 0
    ensures r.Some? ==> r.value == VoxelToChunk(l, SpaceToVoxel(l, p).value)
    ensures r.Some? && l.voxelSideLength == 1 && l.chunkVoxelLength >= 0 ==>
      var centre := ChunkToSpace(l, r.value);
      && Abs(p.x - centre.x) <= l.chunkVoxelLength
      && Abs(p.z - centre.z) <= l.chunkVoxelLength
  {
    match SpaceToVoxel(l, p)
    case None => None
    case Some(v) =>
      var c := VoxelToChunk(l, v);
      assert l.voxelSideLength == 1 ==> VoxelToSpace(l, v).x == p.x && VoxelToSpace(l, v).z == p.z;
      Some(c)
  }

  /** The origin chunk sits at the space origin. */
  lemma OriginChunkAtZero(l: Layout)
    ensures ChunkToSpace(l, l.origin) == Space(0, 0, 0)
  {
  }

  /** With unit side length, a voxel on the ground layer survives the trip
      through space unchanged. */
  lemma VoxelSpaceRoundTrip(l: Layout, v: VoxelId)
    requires l.voxelSideLength == 1 && l.chunkVoxelHeight != 0 && v.y == 0
    ensures SpaceToVoxel(l, VoxelToSpace(l, v)) == Some(v)
  {
    SpaceToVoxelDividesHeight(l, v);
  }

  /** With unit side length, a chunk survives the trip through space. */
  lemma ChunkSpaceRoundTrip(l: Layout, c: ChunkId)
    requires l.voxelSideLength == 1 && l.chunkVoxelHeight != 0 && l.chunkVoxelLength >= 0
    ensures SpaceToChunk(l, ChunkToSpace(l, c)) == Some(c)
  {
    VoxelSpaceRoundTrip(l, CenterVoxel(l, c));
  }

  /** With unit side length, resolving a voxel's position gives the
      voxel's own chunk, whatever its height. */
  lemma VoxelChunkViaSpace(l: Layout, v: VoxelId)
    requires l.voxelSideLength == 1 && l.chunkVoxelHeight != 0
    ensures SpaceToChunk(l, VoxelToSpace(l, v)) == Some(VoxelToChunk(l, v))
  {
  }

  /** With unit side length, the trip through space keeps x and z and
      divides the height by `chunk_voxel_height`. */
  lemma SpaceToVoxelDividesHeight(l: Layout, v: VoxelId)
    requires l.voxelSideLength == 1 && l.chunkVoxelHeight != 0
    ensures SpaceToVoxel(l, VoxelToSpace(l, v)) == Some(VoxelId(v.x, v.y / l.chunkVoxelHeight, v.z))
  {
    var c := CenterVoxel(l, l.origin);
    assert VoxelToSpace(l, v) == Space(v.x - c.x, v.y, v.z - c.z);
  }

  /** The height divisor in `space_to_voxel` loses the height of any voxel
      above the ground layer: with the default height 10, voxel `(0, 5, 0)`
      comes back as `(0, 0, 0)`. */
  lemma SpaceToVoxelLosesHeight()
    ensures var l := Layout(ChunkId(0, 0), 1, 11, 10);
      SpaceToVoxel(l, VoxelToSpace(l, VoxelId(0, 5, 0))) == Some(VoxelId(0, 0, 0))
  {
    SpaceToVoxelDividesHeight(Layout(ChunkId(0, 0), 1, 11, 10), VoxelId(0, 5, 0));
  }

  /** `space_to_voxel` with the side length as the divisor on all three
      axes, the inverse of `voxel_to_space`. */
  function SpaceToVoxelFixed(l: Layout, p: Space): (r: Option<VoxelId>)
    ensures r.None? <==> l.voxelSideLength == 0
  {
    if l.voxelSideLength == 0 then None
    else
      var s := l.voxelSideLength;
      Some(VoxelAdd(VoxelId(p.x / s, p.y / s, p.z / s), CenterVoxel(l, l.origin)))
  }

  /** For any positive side length, every voxel survives the trip through
      space under the corrected conversion. */
  lemma VoxelSpaceRoundTripFixed(l: Layout, v: VoxelId)
    requires l.voxelSideLength >= 1
    ensures SpaceToVoxelFixed(l, VoxelToSpace(l, v)) == Some(v)
  {
    var s := l.voxelSideLength;
    var t := VoxelSub(v, CenterVoxel(l, l.origin));
    DivIsUnique(t.x * s, s, t.x, 0);
    DivIsUnique(t.y * s, s, t.y, 0);
    DivIsUnique(t.z * s, s, t.z, 0);
  }
}
