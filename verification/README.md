# Procedural terrain chunk streaming, modelled in Dafny

The repository streams procedurally generated terrain around moving
"sites" (cameras, players) in the Bevy game engine. The world is cut
into chunks addressed by integer ids. A chunk layout maps voxels (or
hex tiles) to chunks, lists a chunk's neighbours and enumerates its
voxels. A `ChunkTracker` remembers which chunk ids currently own a
chunk entity. Once per tick a few systems run:

- The spawner loads the neighbourhood of every site that entered a new
  chunk.
- The solver recomputes each chunk's distance to the sites.
- The despawner drops far chunks.

This project models the integer addressing algebra and those per-tick
steps as pure functions over immutable data, and proves what they
promise:

- **`Cubic`** models the cubic voxel layout of
  `crates/gen_terrain/src/voxel/layout.rs` over unbounded integers. Its
  neighbour rings are built with the four 90° rotations as exact integer
  maps.
- **`CubeLayout32`** models the `i32` twin in `src/cube_layout.rs`. Every
  `i32` operation that can overflow or panic returns an `Option`, and each
  result is related to `Cubic`.
- **`Hex`** models the hex cube coordinates and ring walks of
  `src/terrain/hex.rs`. `src/hex_layout.rs` declares the same
  `from_axis_coord`, `distance_step` and `Add`, so `Hex` serves both files.
- **`HexLayout`** models the period arithmetic, the tile-to-chunk key,
  the finished first branch of the lookup table and the chunk neighbour
  offsets of `src/hex_layout.rs`.
- **`Tracker`** models `ChunkTracker::try_spawn` and `try_despawn`. All four
  copies of the tracker (`voxel/tracker.rs`, `src/terrain.rs`,
  `src/terrain-old/chunk.rs`, `crates/gen_terrain/src/voxel.rs`) perform
  the same set operations. The copy in `voxel/tracker.rs` also logs each
  spawn and despawn and takes its ids by reference.
- **`Streaming`** holds the spawner and the "last site wins" solver. They
  are generic over the chunk-id type and shared by the generic terrain
  plugin and the old hex terrain.
- **`VoxelPlugin`** models `spawn_chunks`, `solve_chunks` (a true
  minimum), `load_voxels` and `despawn_chunks` of
  `crates/gen_terrain/src/voxel/mod.rs`.
- **`Terrain`** models the generic plugin of `src/terrain.rs`.
- **`TerrainOld`** models the old hex terrain of `src/terrain-old/chunk.rs`.
- **`VoxelDraft`** models the draft plugin of
  `crates/gen_terrain/src/voxel.rs`.
- **`Seqs`**, **`Arith`** and **`Wrappers`** are helper modules: facts
  about sequences and integer division, and `Option`.

A panic in the source (`unwrap`/`expect` on `None`, `div_euclid` by
zero, an `i32` overflow) is modelled as `None`.

Three behaviours of the code, kept as written:

- The spawner's skip test compares only the site's chunk with its last
  loaded chunk. It does not look at `fresh`.
- The generic and the old hex terrain set every distance from the last
  fresh site in query order. The voxel plugin alone takes the minimum
  over the fresh sites.
- `tile_to_chunk` computes its key as `tile.x - tile.z * (3R + 1)`,
  reduced modulo the period.

## Model

| member | source | states |
|---|---|---|
| Cubic.DefaultLayout | crates/gen_terrain/src/voxel/layout.rs:212-216 | the default layout has chunks 23 voxels wide |
| Cubic.ChunkSub | crates/gen_terrain/src/voxel/layout.rs:38-53 | chunk subtraction undoes chunk addition |
| Cubic.VoxelSub | crates/gen_terrain/src/voxel/layout.rs:73-96 | voxel subtraction undoes voxel addition |
| Cubic.AddSubInverse | crates/gen_terrain/src/voxel/layout.rs:38-96 | chunk and voxel addition are commutative, and subtracting the right operand undoes them |
| Cubic.FullLength | crates/gen_terrain/src/voxel/layout.rs:111-114 | `chunk_voxel_full_length` is odd, so never a zero divisor, and exceeds `L` for `L >= 0` |
| Cubic.CenterVoxel | crates/gen_terrain/src/voxel/layout.rs:116-123 | the centre voxel lies on layer 0 and belongs to its own chunk |
| Cubic.GetVoxel | crates/gen_terrain/src/voxel/layout.rs:125-130 | `get_voxel(c, x, y, z)` is the voxel at offset `(x, y, z)` from the centre of `c` |
| Cubic.VoxelToChunk | crates/gen_terrain/src/voxel/layout.rs:180-184 | the chunk of a voxel is the one whose centre is within `L` of it in x and z |
| Cubic.VoxelNearChunkCentre | crates/gen_terrain/src/voxel/layout.rs:300-309 | every voxel's x and z offsets from its chunk's centre are within `[-L, L]` |
| Cubic.Rotate | crates/gen_terrain/src/voxel/layout.rs:12-19 | each of the four rotation matrices keeps the Chebyshev length of an integer vector |
| Cubic.Neighbors | crates/gen_terrain/src/voxel/layout.rs:146-157 | the list has `(2d+1)^2 - 1` entries, and each chunk at Chebyshev distance `1..=d` occurs exactly once, no other |
| Cubic.NeighborsWithinDistance | crates/gen_terrain/src/voxel/layout.rs:235-247 | a chunk is a neighbour if and only if its Chebyshev distance is in `1..=d` |
| Cubic.NeighborsMutual | crates/gen_terrain/src/voxel/layout.rs:249-260 | for each neighbour `n` of `c`, `c` occurs exactly once among the neighbours of `n` |
| Cubic.NeighborsDistinct | crates/gen_terrain/src/voxel/layout.rs:146-157 | no chunk is listed twice |
| Cubic.ChunkVoxels | crates/gen_terrain/src/voxel/layout.rs:159-174 | `F * F * height` distinct voxels (none when the height is not positive), exactly those with `voxel_to_chunk(v) == c` and `0 <= y < height` |
| Cubic.BlockIsChunk | crates/gen_terrain/src/voxel/layout.rs:322-336 | a voxel lies in a chunk's x/z box exactly when `voxel_to_chunk` maps it to that chunk |
| Cubic.VoxelToSpace | crates/gen_terrain/src/voxel/layout.rs:186-193 | with a non-zero side length the position is zero exactly at the origin chunk's centre voxel; with unit side length adding that centre back to the position gives the voxel |
| Cubic.ChunkToSpace | crates/gen_terrain/src/voxel/layout.rs:176-178 | the position lies at height 0 and, with a non-zero side length, is zero exactly for the origin chunk |
| Cubic.SpaceToVoxel | crates/gen_terrain/src/voxel/layout.rs:195-202 | panics exactly on a zero side length or zero height; with unit side length the voxel's position matches the input on x and z |
| Cubic.SpaceToChunk | crates/gen_terrain/src/voxel/layout.rs:204-206 | panics exactly when `space_to_voxel` does; otherwise the chunk of that voxel, and with unit side length the position lies within `L` of that chunk's centre on x and z |
| Cubic.OriginChunkAtZero | crates/gen_terrain/src/voxel/layout.rs:262-269 | the origin chunk sits at the space origin |
| Cubic.VoxelSpaceRoundTrip | crates/gen_terrain/src/voxel/layout.rs:271-278 | with unit side length, a voxel of layer 0 survives voxel -> space -> voxel |
| Cubic.ChunkSpaceRoundTrip | crates/gen_terrain/src/voxel/layout.rs:280-288 | with unit side length, a chunk survives chunk -> space -> chunk |
| Cubic.VoxelChunkViaSpace | crates/gen_terrain/src/voxel/layout.rs:290-298 | resolving a voxel's position gives the voxel's own chunk |
| Cubic.SpaceToVoxelDividesHeight | crates/gen_terrain/src/voxel/layout.rs:186-202 | with unit side length the trip through space keeps x and z and divides the height by `chunk_voxel_height` |
| Cubic.SpaceToVoxelLosesHeight | crates/gen_terrain/src/voxel/layout.rs:199 | in the default layout, the voxel `(0, 5, 0)` comes back from space as height 0 |
| Cubic.SpaceToVoxelFixed | crates/gen_terrain/src/voxel/layout.rs:195-202 | with the side length as the divisor on all three axes, panics only on a zero side length |
| Cubic.VoxelSpaceRoundTripFixed | crates/gen_terrain/src/voxel/layout.rs:186-202 | with the corrected divisor every voxel, at any height, survives the round trip |
| CubeLayout32.DefaultLayout | src/cube_layout.rs:157-161 | the default layout's chunks are 101 voxels wide, without overflow |
| CubeLayout32.ChunkAdd | src/cube_layout.rs:34-44 | panics exactly when a component sum leaves `i32`; otherwise the true sum |
| CubeLayout32.ChunkSub | src/cube_layout.rs:45-55 | panics exactly when a component difference leaves `i32`; otherwise the true difference |
| CubeLayout32.VoxelAdd | src/cube_layout.rs:93-104 | panics exactly when a component sum leaves `i32`; otherwise the true sum |
| CubeLayout32.VoxelSub | src/cube_layout.rs:105-116 | panics exactly when a component difference leaves `i32`; otherwise the true difference |
| CubeLayout32.ChunkAddSubRoundTrip | src/cube_layout.rs:34-55 | a chunk sum that does not overflow is undone by subtraction, without overflow |
| CubeLayout32.VoxelAddSubRoundTrip | src/cube_layout.rs:93-116 | a voxel sum that does not overflow is undone by subtraction, without overflow |
| CubeLayout32.FullLength | src/cube_layout.rs:128-129 | panics exactly when `2L` overflows; otherwise the unbounded full length |
| CubeLayout32.CenterVoxel | src/cube_layout.rs:131-134 | panics exactly when `F` or one of the products `c * F` overflows; otherwise the unbounded centre voxel |
| CubeLayout32.GetVoxel | src/cube_layout.rs:136-141 | panics exactly when the centre does or adding the offset leaves `i32`; otherwise the unbounded `get_voxel` |
| CubeLayout32.VoxelToChunk | src/cube_layout.rs:194-198 | panics exactly when `x + L`, `z + L` or `F` overflows, or when `div_euclid` meets `i32::MIN / -1` (possible only for `L == -1`); otherwise the unbounded chunk |
| CubeLayout32.Neighbors | src/cube_layout.rs:175-181 | panics exactly when a ring bound or a neighbour overflows; otherwise the unbounded neighbour list |
| CubeLayout32.ChunkVoxels | src/cube_layout.rs:183-188 | panics exactly when `F` or some voxel overflows; otherwise the unbounded voxel list |
| CubeLayout32.VoxelToSpace | src/cube_layout.rs:200-207 | panics exactly when the origin chunk's centre or the voxel's difference from it overflows; otherwise the unbounded position |
| CubeLayout32.ChunkToSpace | src/cube_layout.rs:190-192 | panics exactly when the chunk's or the origin chunk's centre, or their difference, overflows; otherwise the unbounded position of the chunk centre |
| CubeLayout32.SpaceToVoxel | src/cube_layout.rs:209-216 | panics exactly on a zero divisor, on `i32::MIN / -1` after the saturating cast, or when the origin centre or the final sum overflows; otherwise the saturated quotients plus the origin centre, which is the unbounded result for in-range positions |
| CubeLayout32.SpaceToChunk | src/cube_layout.rs:218-220 | panics exactly when `space_to_voxel` does or `voxel_to_chunk` does on its voxel; for in-range positions and `L >= 0`, the unbounded chunk |
| CubeLayout32.NeighborsFit | src/cube_layout.rs:175-181 | the neighbours of `c` up to `d` can be listed when the box `c ± d` fits in `i32` |
| CubeLayout32.NeighborsOverflowAtEdge | src/cube_layout.rs:175-181 | a chunk at `x == i32::MAX` panics when asked for neighbours |
| CubeLayout32.ProptestRangesDoNotOverflow | src/cube_layout.rs:233-356 | within the input ranges of the `proptest` blocks, `voxel_to_chunk` of the drawn voxel, and `get_chunk_neighbors` and `get_chunk_voxels` of its chunk, never overflow, and the chunk lies within `±10050` |
| CubeLayout32.ProptestNeighborsMutual | src/cube_layout.rs:259-269 | on the proptest ranges, every neighbour of the voxel's chunk has its own neighbours enumerated without a panic, and the chunk occurs exactly once among them |
| CubeLayout32.NeighborsMutualFit | src/cube_layout.rs:175-181 | when the box `c ± 2d` fits in `i32`, each neighbour's neighbour list can be computed and holds `c` exactly once |
| CubeLayout32.ProptestWalkStep | src/cube_layout.rs:336-340 | one step of the proptest's walk (`get_chunk_neighbors(chunk, 1)`) does not panic and moves at most one chunk along each axis, so fewer than 10 steps from `(0, 0)` stay within `±9` |
| CubeLayout32.ProptestSameChunk | src/cube_layout.rs:332-345 | for chunks within `±10050` (the walk's chunks and every voxel's own chunk), `get_chunk_voxels` does not panic and `voxel_to_chunk` sends each of its voxels back to the chunk without a panic |
| CubeLayout32.VoxelSpaceRoundTrip | src/cube_layout.rs:200-216 | in `i32`, with unit side length, a voxel of layer 0 whose position does not overflow survives the trip through space |
| CubeLayout32.ChunkSpaceRoundTrip | src/cube_layout.rs:190-220 | in `i32`, with unit side length and `L >= 0`, a chunk whose position does not overflow and whose `c * F + L` fits survives the trip through space |
| CubeLayout32.ProptestOriginAtZero | src/cube_layout.rs:272-279 | in every proptest layout the origin chunk sits at position zero without a panic |
| CubeLayout32.ProptestVoxelSpaceRoundTrip | src/cube_layout.rs:281-288 | in every proptest layout, a layer-0 voxel within `±10000` has a position without a panic and comes back from it unchanged |
| CubeLayout32.ProptestChunkSpaceRoundTrip | src/cube_layout.rs:290-298 | in every proptest layout, the chunk of such a voxel has a position without a panic and comes back from it unchanged |
| CubeLayout32.ProptestVoxelChunkViaSpace | src/cube_layout.rs:300-308 | in every proptest layout, such a voxel's position resolves, without a panic, to the voxel's own chunk |
| Hex.FromAxisCoord | src/terrain/hex.rs:28-30 | the result is a valid (zero-sum) hex with the given axial coordinates |
| Hex.DistanceStep | src/terrain/hex.rs:31-33 | non-negative, and for two valid hexes the largest absolute difference of their coordinates |
| Hex.DistanceStepSymmetric | src/terrain/hex.rs:31-33 | `distance_step` is symmetric |
| Hex.DistanceStepZero | src/terrain/hex.rs:31-33 | on valid hexes the distance is 0 exactly on equal coordinates |
| Hex.DistanceIsMax | src/terrain/hex.rs:31-33 | for a valid hex, the distance from the origin is its largest absolute coordinate |
| Hex.AddCorrected | src/terrain/hex.rs:40-46 | the component-wise sum keeps hexes valid |
| Hex.Add | src/terrain/hex.rs:40-46 | the written `Add` is the true sum if and only if the third components are equal; on valid hexes the same condition decides whether the result is valid |
| Hex.AddIgnoresOtherZ | src/terrain/hex.rs:43-45 | the written `Add` never reads the right operand's third component |
| Hex.AddAsWrittenExample | src/terrain/hex.rs:43-45 | the valid hexes `(0, 1, -1)` and `(1, -1, 0)` add to `(1, 0, -2)`, which is not valid, while their true sum is `(1, 0, -1)` |
| Hex.RotateIndexes | src/terrain/hex.rs:116-120 | each of the six rotations yields a valid hex |
| Hex.RotateIndexesShape | src/terrain/hex.rs:116-120 | the rotations permute and negate the index triple, and rotation `k + 3` negates rotation `k` |
| Hex.RingOffsets | src/terrain/hex.rs:112-122 | `6(d + 1)` offsets, all at distance exactly `d` from the origin |
| Hex.GetRing | src/terrain/hex.rs:112-123 | `6(d + 1)` hexes (none for negative `d`); around a valid centre the hex at `k` is valid exactly when the centre's third component equals the offset's, and then it is the true sum and lies at distance `d` from the centre |
| Hex.RingOffsetsExact | src/terrain/hex.rs:112-122 | for `d >= 1`, a hex is a ring offset if and only if it lies at distance `d` |
| Hex.RingDistinctCount | src/terrain/hex.rs:113-116 | for `d >= 1` the ring lists exactly `6d` distinct offsets |
| Hex.RingNegationClosed | src/terrain/hex.rs:116-120 | the negation of a ring offset is a ring offset |
| Hex.RingAroundCentre | src/terrain/hex.rs:112-122 | with the true sum, every ring hex is at distance `d` from the centre |
| Hex.RingAddAsWritten | src/terrain/hex.rs:120 | with the written `Add`, the first ring hex doubles the centre's third component, and is valid only when that component is `-d` |
| Hex.NeighborOffsets | src/terrain/hex.rs:97-110 | `3D^2 + 9D` offsets, all valid hexes at distance `1..=D` |
| Hex.NeighborOffsetsComplete | src/terrain/hex.rs:97-110 | every valid hex at distance `1..=D` is a neighbour offset |
| Hex.GetNeighbors | src/terrain/hex.rs:97-110 | `3D^2 + 9D` hexes (none for `D < 1`); around a valid hex the entry at `k` is valid exactly when the third components agree, and then it lies at distance `1..=D` from the hex |
| HexLayout.FromXz | src/hex_layout.rs:18-20 | the result is a valid hex with the given first and third components |
| HexLayout.Period | src/hex_layout.rs:85-86 | the period is at least `2R + 1` |
| HexLayout.PeriodOdd | src/hex_layout.rs:85-87 | the period is odd, so `(period - 1) / 2` is exact and at least `R` |
| HexLayout.KeyLinear | src/hex_layout.rs:179-181 | the transposed key is additive over the true sum and odd under negation |
| HexLayout.TruncRem | src/hex_layout.rs:182 | Rust's `%`: the remainder has the dividend's sign, is smaller than the divisor in size and differs from the dividend by a multiple of it |
| HexLayout.TileKey | src/hex_layout.rs:177-183 | the normalised key lies in `[0, period)` and equals the Euclidean remainder |
| HexLayout.LookupKeysDistinct | src/hex_layout.rs:92-95 | two iterations of the table loop share a key if and only if they have the same phase and offset |
| HexLayout.LookupKeysCover | src/hex_layout.rs:92-95 | every key in `0..=period` is produced by the loop |
| HexLayout.FirstBranchTable | src/hex_layout.rs:92-98 | the first branch fills exactly the keys `[0, R]` and `[period - R, period]` |
| HexLayout.FirstBranchEntry | src/hex_layout.rs:94-97 | the entry under the key of `(phase, offset)` is `from_xz(offset * phase, 0)`, at distance `offset` from the origin, with its own key congruent to the table key |
| HexLayout.FirstBranchEntries | src/hex_layout.rs:96-97 | every first-branch entry is a valid hex within distance `R` of the origin whose key is congruent to the key it is stored under |
| HexLayout.TileToChunk | src/hex_layout.rs:177-186 | panics exactly on a key the table lacks; otherwise the tile plus the entry on x and y with the tile's third component doubled, the entry being a valid row-0 hex within `R` of the origin; for a valid tile the result is valid exactly on row 0, where its key is twice the tile's modulo the period |
| HexLayout.TileToChunkCorrected | src/hex_layout.rs:177-186 | with the entry subtracted, the result is a chunk centre (key divisible by the period) within `R` of the tile, and valid for a valid tile |
| HexLayout.TileToChunkMissesCentre | src/hex_layout.rs:185 | as written, a row-0 tile with key `k` in `1..=R` lands on key `2k`, not on a chunk centre |
| HexLayout.ChunkIndexes | src/hex_layout.rs:158-161 | every index triple sums to zero, and its key and the keys of its two rotations are the multiples `-(ring + i)`, `i - 2 ring` and `2i - ring` of the period |
| HexLayout.ChunkOffset | src/hex_layout.rs:155-169 | every rotated offset is a valid hex whose key is a whole multiple of the period, so it lands on a chunk centre |
| HexLayout.ChunkOffsetHalfTurn | src/hex_layout.rs:164-168 | rotation `k + 3` negates rotation `k` |
| HexLayout.ChunkOffsetNonZero | src/hex_layout.rs:157-169 | no neighbour offset is the chunk itself |
| HexLayout.ChunkNeighborOffsets | src/hex_layout.rs:153-172 | `3D^2 + 3D` offsets, all valid, non-zero and on chunk centres |
| HexLayout.ChunkNeighborsNegationClosed | src/hex_layout.rs:164-168 | the negation of a neighbour offset is a neighbour offset |
| HexLayout.GetChunkNeighbors | src/hex_layout.rs:153-172 | `3D^2 + 3D` chunks (none for `D < 1`); around a valid chunk the entry at `k` is valid exactly when the third components agree, and then it differs from the chunk and its key differs from the chunk's by a multiple of the period |
| Tracker.TrySpawn | crates/gen_terrain/src/voxel/tracker.rs:10-18 | answers true if and only if the id was absent; afterwards it is present; no other id changes |
| Tracker.TryDespawn | crates/gen_terrain/src/voxel/tracker.rs:20-26 | answers true if and only if the id was present; afterwards it is absent; no other id changes |
| Tracker.SpawnTwice | crates/gen_terrain/src/voxel/tracker.rs:11-17 | a second `try_spawn` of the same id answers false and changes nothing |
| Tracker.SpawnThenDespawn | crates/gen_terrain/src/voxel/tracker.rs:10-26 | spawning an absent id and then despawning it restores the set, and the despawn answers true |
| Tracker.DespawnThenSpawn | crates/gen_terrain/src/voxel/tracker.rs:10-26 | despawning a present id and then spawning it restores the set, and the spawn answers true |
| Tracker.SpawnAll | crates/gen_terrain/src/voxel/mod.rs:70-84 | after try-spawning a list, the set holds old and listed ids; the newly spawned ids are exactly the listed absent ones, each once |
| Tracker.AppendSpawned | crates/gen_terrain/src/voxel/mod.rs:70-83 | one record per newly spawned id keeps the record ids distinct and equal to the tracked set |
| Streaming.NewRecords | src/terrain.rs:86-91 | the new records carry exactly the spawned ids, at distance 0 and not loaded |
| Streaming.SpawnSites | src/terrain.rs:58-97 | unmoved sites are untouched and moved sites become fresh at their chunk; the tracker gains exactly the chunks the moved sites ask for; the spawned ids are the new ones, each once |
| Streaming.MovedSiteLoaded | src/terrain.rs:69-96 | after the spawner, a moved site's chunk and each of its neighbours are tracked, and the site is fresh at its chunk |
| Streaming.UnmovedSpawnNothing | src/terrain.rs:62-67 | when no site moved, the spawner changes neither the tracker nor the sites and spawns nothing |
| Streaming.SingleSiteSpawn | src/terrain.rs:73-92 | a lone moved site on an empty tracker spawns exactly its chunk and its neighbours |
| Streaming.SpawnKeepsFreshChunk | src/terrain.rs:95-96 | the spawner keeps every fresh site's chunk known |
| Streaming.SpawnKeepsSynced | src/terrain.rs:73-92 | appending the spawned ids keeps records and tracker in agreement |
| Streaming.SolveLastWins | src/terrain.rs:106-129 | panics if and only if there is a record and some fresh site has no chunk; otherwise every site is settled, and every distance comes from the last fresh site (none change when there is no fresh site) |
| Streaming.SolveLastWinsSettles | src/terrain.rs:107-118 | when fresh sites know their chunks, the solver does not panic and leaves no site fresh |
| Streaming.LastSiteWins | src/terrain.rs:115-118 | with two fresh sites the later one sets the distance, even when the earlier one is nearer |
| VoxelPlugin.SpawnChunks | crates/gen_terrain/src/voxel/mod.rs:49-89 | moved sites become fresh at their chunk; the tracker gains exactly the chunks around moved sites; old records are kept in place; the new records are at distance 0 and carry exactly the newly tracked ids, each once |
| VoxelPlugin.SpawnKeepsValid | crates/gen_terrain/src/voxel/mod.rs:70-87 | records and tracker stay in agreement (no two records share an id), and fresh sites keep a chunk |
| VoxelPlugin.SpawnLoadsSquare | crates/gen_terrain/src/voxel/mod.rs:66-87 | after the spawner, every chunk within Chebyshev distance 2 of a moved site is tracked, and the site is fresh at its chunk |
| VoxelPlugin.SpawnSkipsUnmoved | crates/gen_terrain/src/voxel/mod.rs:59-64 | when no site moved, the spawner changes nothing |
| VoxelPlugin.AroundIsSquare | crates/gen_terrain/src/voxel/mod.rs:66-70 | a site's chunk plus its distance-2 neighbours are exactly the 5x5 square around it, each once |
| VoxelPlugin.FirstSpawn | crates/gen_terrain/src/voxel/mod.rs:55-88 | on the default tracker, a new site creates exactly 25 records and tracks exactly the 5x5 square |
| VoxelPlugin.FreshChunks | crates/gen_terrain/src/voxel/mod.rs:96-102 | fails exactly when a fresh site has no chunk; otherwise lists exactly the fresh sites' chunks |
| VoxelPlugin.Nearest | crates/gen_terrain/src/voxel/mod.rs:106-118 | the running minimum is at most `f32::MAX` and at most every site's distance, and is attained (or is `f32::MAX`) |
| VoxelPlugin.SolveChunks | crates/gen_terrain/src/voxel/mod.rs:91-121 | panics exactly when there is a record and a fresh site has no chunk; with no fresh site or no record nothing changes; otherwise each distance is the minimum over fresh sites and those sites are settled |
| VoxelPlugin.Despawn | crates/gen_terrain/src/voxel/mod.rs:159-170 | the tracker only shrinks; records within 10000 are kept; an untracked id had a record farther than 10000 |
| VoxelPlugin.DespawnSynced | crates/gen_terrain/src/voxel/mod.rs:164-168 | with distinct tracked record ids, exactly the ids of far records are untracked and exactly the near records remain |
| VoxelPlugin.DespawnKeepsSynced | crates/gen_terrain/src/voxel/mod.rs:159-170 | the despawner keeps records and tracker in agreement |
| VoxelPlugin.VoxelBuffer | crates/gen_terrain/src/voxel/mod.rs:130-135 | the buffer's keys are exactly the chunk's voxels, `F * F * height` of them, each `Air` |
| Terrain.DefaultTracker | src/terrain.rs:218-224 | the default tracker is empty with despawn distance 500 |
| Terrain.ChunkSpawner | src/terrain.rs:48-98 | the layout's neighbours are asked for at distance 2; moved sites become fresh at their chunk; the tracker gains exactly the chunks around moved sites; old records are kept; the new records are at distance 0, not loaded, and carry exactly the newly tracked ids, each once |
| Terrain.SpawnerLoadsAround | src/terrain.rs:69-96 | a moved site's chunk and its neighbours are tracked afterwards, and the site is fresh at its chunk |
| Terrain.SpawnerKeepsValid | src/terrain.rs:73-96 | records and tracker stay in agreement, and fresh sites keep a chunk |
| Terrain.FirstSpawn | src/terrain.rs:58-97 | on the default tracker, a new site's first tick tracks, and creates records for, exactly its chunk and its neighbours |
| Terrain.ChunkSolver | src/terrain.rs:100-130 | panics exactly when there is a record and a fresh site has no chunk; the tracker, record ids and loaded flags are unchanged; each site only has `fresh` cleared; the last fresh site decides every distance |
| Terrain.SolverKeepsValid | src/terrain.rs:107-118 | from a valid world the solver never panics and keeps the world valid |
| TerrainOld.DefaultTracker | src/terrain-old/chunk.rs:36-46 | the default tracker is empty with despawn distance 5 |
| TerrainOld.ChunkSpawner | src/terrain-old/chunk.rs:78-128 | moved sites become fresh at their chunk; the tracker gains exactly the chunks around moved sites; old entities are kept; the new ones are at distance 0 with both loaded flags false and carry exactly the newly tracked ids, each once |
| TerrainOld.SpawnerLoadsAround | src/terrain-old/chunk.rs:97-126 | a moved site's chunk and each `Add(chunk, offset)` of the distance-1 neighbour offsets are tracked afterwards |
| TerrainOld.SpawnerNeighborsOffGrid | src/terrain-old/chunk.rs:97-101 | for a site whose chunk has a non-zero third component, a neighbour with a different third offset is not a valid hex |
| TerrainOld.SpawnerKeepsValid | src/terrain-old/chunk.rs:100-126 | records and tracker stay in agreement, and fresh sites keep a chunk |
| TerrainOld.ChunkSolver | src/terrain-old/chunk.rs:130-148 | panics exactly when there is an entity and a fresh site has no chunk; every distance becomes `distance_step` from the last fresh site's chunk; ids, loaded flags and voxel components are kept; each site only has `fresh` cleared |
| TerrainOld.SolverKeepsValid | src/terrain-old/chunk.rs:134-147 | from a valid world the solver never panics and keeps the world valid |
| TerrainOld.ChunkVoxelLoader | src/terrain-old/chunk.rs:150-165 | every voxel component ends up loaded; nothing else changes |
| TerrainOld.ChunkVoxelLoaderIdempotent | src/terrain-old/chunk.rs:155-161 | running the voxel loader twice is running it once |
| TerrainOld.ChunkLoader | src/terrain-old/chunk.rs:167-202 | every chunk record ends up loaded; nothing else changes |
| TerrainOld.ChunkLoaderIdempotent | src/terrain-old/chunk.rs:174-200 | running the loader twice is running it once |
| TerrainOld.ChunkDespawner | src/terrain-old/chunk.rs:204-226 | when the timer finished, exactly the entities within the despawn distance remain; the tracker is untouched |
| TerrainOld.DespawnedChunkLost | src/terrain-old/chunk.rs:212-220 | a despawned far chunk stays tracked with no entity, and the next spawner pass does not recreate it |
| TerrainOld.ChunkDespawnerCorrected | src/terrain-old/chunk.rs:212-220 | the same entities remain as in the written despawner, and the tracker only shrinks |
| TerrainOld.CorrectedKeepsValid | src/terrain-old/chunk.rs:212-220 | the corrected despawner keeps records and tracker in agreement: exactly the despawned ids leave the tracker |
| VoxelDraft.DefaultTracker | crates/gen_terrain/src/voxel.rs:19-30 | the default tracker is empty with despawn distance 10 |
| VoxelDraft.ChunkSpawner | crates/gen_terrain/src/voxel.rs:74-123 | the layout's neighbours are asked for at distance 2; moved sites become fresh at their chunk; the tracker gains exactly the chunks around moved sites; old records are kept; the new ones are at distance 0, not loaded, without voxels, and carry exactly the newly tracked ids, each once |
| VoxelDraft.SpawnerSkipsUnmoved | crates/gen_terrain/src/voxel.rs:86-91 | when no site moved, the spawner changes nothing |
| VoxelDraft.SpawnerLoadsAround | crates/gen_terrain/src/voxel.rs:93-121 | a moved site's chunk and its neighbours are tracked afterwards, and the site is fresh at its chunk |
| VoxelDraft.SpawnerKeepsValid | crates/gen_terrain/src/voxel.rs:97-117 | records and tracker stay in agreement, and fresh sites keep a chunk |
| VoxelDraft.FirstSpawn | crates/gen_terrain/src/voxel.rs:82-122 | on the default tracker, a new site creates one record per distinct chunk it asks for, and becomes fresh |

## Left out

- Floating point. Space is modelled as integer positions with an integral
  side length. The hex space conversions (`HEX2SPACE`, `SPACE2HEX`,
  `hex_coord_from_fractional_coord`), `chunk_radius`, `chunk_side_length`
  and the Euclidean `get_chunk_distance` are left out. Chunk distances
  are a function parameter: `real` in the voxel plugin, `int` elsewhere.
  NaN handling of `f32::min` is not modelled.
- Site positions. `space_to_chunk` / `space_to_hex` of a site's transform
  becomes the site's `at` field, computed outside the spawner.
- Bevy ECS plumbing is not modelled: commands, queries, entity ids,
  meshes, materials, placeholder handles and their `unwrap`s, the
  creation `Instant`, and system registration. Records are modelled as a
  sequence in query order.
- Timers. The despawn timer's ticking and reset are not modelled; a
  despawner takes "the timer finished" as a parameter.
- Foreign and async code: `generator.get_voxels`, the voxel generator and
  the mesher. `VoxelPlugin.VoxelBuffer` models only the buffer built
  before the call.
- The generic terrain's `chunk_despawner` (src/terrain.rs:132-156): its
  removal is commented out, so it changes no modelled state, and there is
  no member for it.
- The unfinished lookup-table construction (src/hex_layout.rs:98-128).
  This covers the second and third branches, the unused iterator and
  `todo!()`. Only the first branch is modelled, so `HexLayout.TileToChunk`
  panics on every other key.
- `TerrainOld.ChunkSpawner`: `get_chunk_neighbors(c, 1)` on the hex
  layout of src/terrain/hex.rs, which declares only `get_neighbors`, is
  modelled as `get_neighbors(c, 1)`.
- `Cubic`, `Hex`, `HexLayout`, `Tracker`, `Streaming`, `VoxelPlugin`,
  `Terrain`, `TerrainOld` and `VoxelDraft` do not model `i32`, `i64`,
  `u32` or `u64` wrap-around. `Cubic` also leaves out `i64` overflow and
  the saturating `f32 as i64` cast. Only `CubeLayout32` states overflow
  behaviour.
- `f32` rounding. Positions are exact integers here. The source's
  `as f32` casts are exact only while coordinates stay within `2^24`;
  beyond that a voxel such as `(16777217, 0, 0)` gets the position
  `16777216.0`.
- The draft file does not compile (undeclared types, unfinished
  generics). `VoxelDraft` follows what its text evidently means.
- src/hex_layout.rs does not compile either. `tile_to_chunk` ends in a
  trailing `;` (line 185), `u32` and `i32` values are mixed in its
  arithmetic, and `new` inserts into a map not declared `mut`. `HexLayout`
  models what the text evidently means, over unbounded integers.
- Logging. The `info!` calls of `try_spawn` and `try_despawn` in
  `crates/gen_terrain/src/voxel/tracker.rs` (lines 13 and 23) only write
  to the log and change no modelled state.
- Noise and biome generators, mesh geometry, camera and UI code are
  outside the modelled core.

## Findings

| source | as written | input that shows it | evidently intended | confidence | as-written member | corrected member |
|---|---|---|---|---|---|---|
| crates/gen_terrain/src/voxel/layout.rs:199 | `space_to_voxel` divides y by `chunk_voxel_height` | default layout (side 1, height 10), voxel `(0, 5, 0)`: comes back with height 0 | divide y by the side length, like x and z | not executed | Cubic.SpaceToVoxelLosesHeight | Cubic.VoxelSpaceRoundTripFixed |
| src/terrain/hex.rs:43-45 | `Add` computes the third component as `self.2 + self.2` | `(0,1,-1) + (1,-1,0)` gives `(1,0,-2)`, which is not zero-sum | `self.2 + other.2` | not executed | Hex.AddAsWrittenExample | Hex.RingAroundCentre |
| src/terrain-old/chunk.rs:212-220 | the despawner drops far entities without `try_despawn` | a chunk at distance 6 with minimum 5: its entity is removed but its id stays tracked, so it is never spawned again | untrack the id when dropping its entity | not executed | TerrainOld.DespawnedChunkLost | TerrainOld.CorrectedKeepsValid |
| src/hex_layout.rs:185 | `tile_to_chunk` adds the table entry to the tile | `R = 1`, tile `(1, -1, 0)`: key 1, entry `(1, -1, 0)`, result `(2, -2, 0)` with key 2, not a chunk centre | subtract the entry (with a component-wise sum) | not executed | HexLayout.TileToChunkMissesCentre | HexLayout.TileToChunkCorrected |
