# Marching-cubes terrain core, modelled in Dafny

This project models the terrain core of a Unity marching-cubes voxel game.
It has two iterations, which the model keeps side by side.

- **The newer iteration (`Voxel` namespace).**
  - A chunk manager keeps a dictionary from integer chunk coordinates to chunks, and a FIFO queue of coordinates to build or rebuild.
  - One coordinate is drained per frame: it is created (sampled and meshed) if absent, and otherwise only re-meshed.
  - A terraform tool edits the corner densities inside a spherical brush. It spreads the edit through chunk faces to neighbouring chunks, using an "ignore" list to stop the recursion. Every edited chunk is queued for re-meshing.
- **The older iteration.**
  - A list of chunks is created once, in x-, y-, z-nested order.
  - The G key queues each chunk unless it is already queued.
  - Each refresh regenerates both a chunk's densities and its mesh.
  - Its chunk samples a noise field at the corners of a CellCount³ lattice of cells. It polygonizes every cell with the marching-cubes table, emitting every triangle a second time in reverse.
- **Cell classes.** Both iterations share the cube tables: eight corners and twelve edges. They also share the 8-bit cube configuration, where bit i is set when corner i lies strictly below the surface level.

Modules:

| module | models |
|---|---|
| `Geometry` | `Vector3`, `Vector3Int`, the `Edge` struct |
| `VoxelCell` | `Voxel/GridCell.cs` |
| `LegacyCell` | `GridCell.cs` |
| `LegacyGrid` | `Grid.cs` |
| `Coordinates` | the x-, y-, z-nested walk both managers use |
| `Queues` | the "enqueue unless already queued" idiom |
| `VoxelGenerator` | `Voxel/GridGenerator.cs` |
| `Terraform` | `TerraformTool.cs` |
| `LegacyGenerator` | `GridGenerator.cs` |

`Sequences` holds generic sequence facts.

Modelling choices:

- **Numbers.** Densities and positions are exact `real`s, and coordinates are unbounded `int`s.
- **Parameters.** The following are parameters of the model:
  - the noise generator (`FastNoise`);
  - the newer chunk's density generator;
  - the triangulation table `Table.triangulation`, taken as any 256 entries of edge indices in [-1, 11];
  - the chunk test `Voxel.Grid.HasPosition`.
- **The newer chunk.** `Voxel.Grid` is not part of this model. It is a `Chunk` class holding the fields the manager assigns and an `array4<real>` of corner densities (cell x, y, z; corner i). A ghost record of the densities the mesh was last built from shows "the mesh is rebuilt".
- **Unity coroutines** become one explicit step method each. The Unity frame loop and user input are not modelled.
- `GetGridFromWorldPosition` returns the **last** chunk in walk order that holds the position. The `return` inside the `ForeachCoordinate` lambda only ends that call of the lambda, so later matches overwrite earlier ones. A walk coordinate missing from the dictionary raises `KeyNotFoundException` at the indexer (`VoxelGenerator.ScanFindsLastMatch`, `VoxelGenerator.ScanFailsAtFirstMissing`).
- `Grid.cs` uses `cell.ScaledPosition`, which neither cell class defines. It is modelled as the cell's lattice position times its scale, which is corner 0 of `GetValuePos`.
- `GridGenerator.cs` calls `ConstructMesh()` with no argument, while `Grid.cs` declares `ConstructMesh(float surfaceLevel)`. The model passes the chunk's own `surfaceLevel` field, which the manager sets just before.
- **Terraform postconditions.** These state the edit against `pristine`, a ghost map from every chunk coordinate to its densities as the step finds them. `Terraform.SnapshotStartsProgress` says that the chunks' own snapshot is such a starting point. `Terraform.ProgressIsEdit` turns the final `Progress` against that snapshot into the two-state statement `ChunksEdited`: every chunk in the edited list went through the brush, and every other chunk is unchanged.

## Model

| member | source | states |
|---|---|---|
| Geometry.Lerp | Assets/Scripts/Voxel/GridCell.cs:21-24 | one coordinate of `A + t(B - A)/d` is `a` at t = 0, `b` at t = d and the average at 2t = d |
| Geometry.Edge.InterpolateMidpoint | Assets/Scripts/Voxel/GridCell.cs:21-24 | with v1 ≠ v2 the interpolated point is A when the level is v1, B when it is v2, and the midpoint when the level is halfway |
| Geometry.MidpointEquidistant | Assets/Scripts/Voxel/GridCell.cs:19 | the step from A to the midpoint equals the step from the midpoint to B |
| VoxelCell.EdgesJoinTheirCorners | Assets/Scripts/Voxel/GridCell.cs:39-53 | there are 12 edges and edge k joins the corners its corner-pair entry names, both below 8 |
| VoxelCell.EdgesAreUnitAxisSegments | Assets/Scripts/Voxel/GridCell.cs:27-53 | every edge joins two corners that differ in exactly one coordinate, by exactly 1 |
| VoxelCell.MidpointsAreEdgeCentres | Assets/Scripts/Voxel/GridCell.cs:19-53 | every edge midpoint has one coordinate equal to 1/2 and the other two in {0, 1} |
| VoxelCell.EveryCornerHasThreeEdges | Assets/Scripts/Voxel/GridCell.cs:27-53 | corner c is an endpoint of edge k exactly when k is in c's three-edge list; the three are distinct and no edge is a loop |
| VoxelCell.EndpointsOfEdge | Assets/Scripts/Voxel/GridCell.cs:39-53 | for one edge, the corner-to-edge lists and the edge table agree in both directions |
| VoxelCell.MaskBits | Assets/Scripts/Voxel/GridCell.cs:80 | or-ing in `1 << n` sets bit n and leaves every other bit as it was |
| VoxelCell.CubeIndexUpToBits | Assets/Scripts/Voxel/GridCell.cs:76-81 | after the first n corners, bit i is set iff i < n and corner i is strictly below the level |
| VoxelCell.CubeIndexBits | Assets/Scripts/Voxel/GridCell.cs:74-84 | bit i of the configuration is set iff corner i is strictly below the level |
| VoxelCell.SameBitsSameByte | Assets/Scripts/Voxel/GridCell.cs:74-84 | a configuration is determined by its eight bits |
| VoxelCell.RaisingOneCornerClearsItsBit | Assets/Scripts/Voxel/GridCell.cs:79-80 | raising one corner from below the level to at or above it clears exactly its bit and leaves the other seven |
| VoxelCell.UniformCubeIndex | Assets/Scripts/Voxel/GridCell.cs:74-84 | no corner below the level gives 0; all corners below give 255 |
| VoxelCell.ValuePos | Assets/Scripts/Voxel/GridCell.cs:86-89 | `Vertices[i] * Scale + Position * Scale` is `(Vertices[i] + Position) * Scale` |
| VoxelCell.SharedCornersCoincide | Assets/Scripts/Voxel/GridCell.cs:86-89 | two corners of two equally scaled cells that meet in lattice space have the same world position |
| VoxelCell.NeighbourAlongXSharesCorners | Assets/Scripts/Voxel/GridCell.cs:86-89 | corners 1, 2, 5, 6 of a cell are corners 0, 3, 4, 7 of its +x neighbour |
| VoxelCell.GridCell.constructor | Assets/Scripts/Voxel/GridCell.cs:55-57 | a new cell has a fresh array of eight zero densities |
| VoxelCell.GridCell.IsEmpty | Assets/Scripts/Voxel/GridCell.cs:59-72 | true iff every one of the eight densities is at least 1.0; the surface level plays no part |
| VoxelCell.GridCell.GetCubeIndex | Assets/Scripts/Voxel/GridCell.cs:74-84 | the loop's result lies in [0, 255] and has bit i set iff density i is strictly below the level |
| VoxelCell.GridCell.GetValuePos | Assets/Scripts/Voxel/GridCell.cs:86-89 | the corner's world position is `(Vertices[i] + Position) * Scale` |
| LegacyCell.TablesMatchVoxel | Assets/Scripts/GridCell.cs:25-51 | the older corner and edge tables equal the newer ones element by element |
| LegacyCell.EdgesAreUnitSegments | Assets/Scripts/GridCell.cs:17-51 | every older edge is a unit axis segment whose midpoint is an edge centre equidistant from both ends |
| LegacyCell.GetValuePos | Assets/Scripts/GridCell.cs:69-72 | the older corner position is `(vertices[i] + Position) * Scale`, the same as the newer cell's |
| LegacyCell.GetCubeIndex | Assets/Scripts/GridCell.cs:57-67 | the older loop computes the same configuration as the newer cell: in [0, 255], bit i iff density i is below the level |
| LegacyCell.ScaledPosition | Assets/Scripts/Grid.cs:147 | the cell's scaled position is the world position of its corner 0 |
| LegacyGrid.SampledValueInUnitRange | Assets/Scripts/Grid.cs:111-112 | noise in [-1, 1], remapped by `(n + 1) / 2`, gives a density in [0, 1] |
| LegacyGrid.SampledCellShape | Assets/Scripts/Grid.cs:101-117 | a generated cell sits at its lattice index with scale GridScale / CellCount and eight densities in [0, 1] |
| LegacyGrid.SampleLattice | Assets/Scripts/Grid.cs:93-120 | the three loops give a fresh n³ lattice whose cell (x, y, z) is the sampled cell at that index |
| LegacyGrid.Grid.GenerateGridValues | Assets/Scripts/Grid.cs:89-121 | the lattice is replaced by a fresh CellCount³ lattice of sampled cells, and the chunk's other fields are kept |
| LegacyGrid.ReversedValid | Assets/Scripts/Grid.cs:151 | `tri.Reverse()` has the same length, holds element `|tri| - 1 - k` at k, and stays a valid entry |
| LegacyGrid.EmittedLength | Assets/Scripts/Grid.cs:141-149 | one pass emits one vertex per non-sentinel edge index |
| LegacyGrid.EmittedReversed | Assets/Scripts/Grid.cs:151-159 | the backward pass emits the forward pass's vertices in reverse order |
| LegacyGrid.CellMeshShape | Assets/Scripts/Grid.cs:136-159 | a cell emits twice its entry's non-sentinel count; the second half mirrors the first; an all-sentinel entry emits nothing |
| LegacyGrid.EmitEdges | Assets/Scripts/Grid.cs:141-149 | one `foreach` appends exactly the entry's emission and keeps `triangles` equal to 0, 1, 2, … |
| LegacyGrid.EmitBothWays | Assets/Scripts/Grid.cs:141-159 | both `foreach` loops append the forward then the backward emission |
| LegacyGrid.PolygonizeCell | Assets/Scripts/Grid.cs:136-159 | one cell appends exactly its cell mesh for the looked-up table entry |
| LegacyGrid.PolygonizeRow | Assets/Scripts/Grid.cs:134-160 | the z loop appends the meshes of row (x, y) in order |
| LegacyGrid.PolygonizePlane | Assets/Scripts/Grid.cs:132-161 | the y loop appends the meshes of plane x in order |
| LegacyGrid.Grid.ConstructMesh | Assets/Scripts/Grid.cs:123-170 | the vertex list is the concatenation of all cell meshes in x-, y-, z-order, and the index list is 0, 1, 2, … of the same length |
| Queues.EnqueueAbsentContents | Assets/Scripts/Voxel/GridGenerator.cs:74-78 | the enqueue keeps the queue as a prefix and adds exactly the new element, growing by one only if it was absent |
| Queues.EnqueueAbsentIdempotent | Assets/Scripts/Voxel/GridGenerator.cs:74-78 | enqueueing the same element twice equals enqueueing it once |
| Queues.EnqueueAbsentKeepsNoDuplicates | Assets/Scripts/Voxel/GridGenerator.cs:74-78 | a duplicate-free queue stays duplicate-free |
| Queues.EnqueueAllAbsentContents | Assets/Scripts/GridGenerator.cs:54-58 | enqueueing a list keeps the old queue as a prefix, holds exactly the old elements plus the list's, and adds no duplicates |
| Queues.EnqueueAllPresent | Assets/Scripts/GridGenerator.cs:56-57 | enqueueing only already-queued elements leaves the queue as it is |
| Queues.EnqueueAllAbsentIdempotent | Assets/Scripts/GridGenerator.cs:52-59 | pressing G twice queues the same as pressing it once |
| Queues.PlainEnqueueCanDuplicate | Assets/Scripts/Voxel/GridGenerator.cs:47-48 | a plain `Enqueue` of a value already queued creates a duplicate |
| Coordinates.RowFacts | Assets/Scripts/Voxel/GridGenerator.cs:162-165 | the z loop visits (x, y, 0 .. z-1), strictly increasing, z of them |
| Coordinates.PlaneContents | Assets/Scripts/Voxel/GridGenerator.cs:160-166 | the y loop visits exactly the coordinates of plane x with y below the bound |
| Coordinates.PlaneSorted | Assets/Scripts/Voxel/GridGenerator.cs:160-166 | the plane is visited in strictly increasing lexicographic order |
| Coordinates.PlaneLength | Assets/Scripts/Voxel/GridGenerator.cs:160-166 | the plane has y · size.z coordinates |
| Coordinates.BoxContents | Assets/Scripts/Voxel/GridGenerator.cs:158-167 | the x loop visits exactly the coordinates with x below the bound inside the box |
| Coordinates.BoxSorted | Assets/Scripts/Voxel/GridGenerator.cs:158-167 | the box is visited in strictly increasing lexicographic order |
| Coordinates.BoxLength | Assets/Scripts/Voxel/GridGenerator.cs:158-167 | the box has x · size.y · size.z coordinates |
| Coordinates.AllCoordinatesSpec | Assets/Scripts/Voxel/GridGenerator.cs:156-168 | the walk visits each coordinate of the box exactly once, in lexicographic order, size.x · size.y · size.z in all |
| VoxelGenerator.Chunk.GenerateGridValues | Assets/Scripts/Voxel/GridGenerator.cs:108 | every density becomes the generator's value for its corner |
| VoxelGenerator.Chunk.ConstructMesh | Assets/Scripts/Voxel/GridGenerator.cs:135 | the mesh is rebuilt from the current densities, and position, scale and data are kept |
| VoxelGenerator.ScanKeyNotFoundSticks | Assets/Scripts/Voxel/GridGenerator.cs:142-151 | once an index throws, the rest of the walk cannot change the outcome |
| VoxelGenerator.ScanFindsLastMatch | Assets/Scripts/Voxel/GridGenerator.cs:138-154 | with every coordinate present: a chunk is found iff some chunk holds the position, and then it is the last such chunk in walk order |
| VoxelGenerator.ScanFailsAtFirstMissing | Assets/Scripts/Voxel/GridGenerator.cs:144 | with a coordinate not yet added, the lookup throws at the first such coordinate |
| VoxelGenerator.ScanHitIsAChunk | Assets/Scripts/Voxel/GridGenerator.cs:144-148 | a chunk the lookup returns is the chunk of one of the walked coordinates |
| VoxelGenerator.ScanFindsOnlyMatch | Assets/Scripts/Voxel/GridGenerator.cs:138-154 | with exactly one holder of the position, the lookup returns it |
| VoxelGenerator.GridGenerator.constructor | Assets/Scripts/Voxel/GridGenerator.cs:34-43 | `Awake`: no chunks, and every coordinate of the box queued in walk order |
| VoxelGenerator.GridGenerator.ForeachCoordinate | Assets/Scripts/Voxel/GridGenerator.cs:156-168 | the three loops produce exactly the box walk |
| VoxelGenerator.GridGenerator.ReloadAll | Assets/Scripts/Voxel/GridGenerator.cs:45-49 | the G key appends the whole walk with plain enqueues; the chunks are untouched |
| VoxelGenerator.GridGenerator.RefreshGrid | Assets/Scripts/Voxel/GridGenerator.cs:74-78 | the queue becomes the enqueue-if-absent of the coordinate; the chunks and the manager invariant are kept |
| VoxelGenerator.GridGenerator.NewChunk | Assets/Scripts/Voxel/GridGenerator.cs:87-109 | a fresh chunk with the manager's position, scale and data, sampled and meshed |
| VoxelGenerator.GridGenerator.AddGrid | Assets/Scripts/Voxel/GridGenerator.cs:85-112 | exactly one new key, holding a fresh sampled and meshed chunk; the other chunks and their densities are unchanged |
| VoxelGenerator.GridGenerator.UpdateGrid | Assets/Scripts/Voxel/GridGenerator.cs:114-136 | the same keys, the chunk re-meshed, and no density of any chunk changed |
| VoxelGenerator.GridGenerator.Dequeue | Assets/Scripts/Voxel/GridGenerator.cs:57 | the head is returned and removed, and nothing else changes |
| VoxelGenerator.GridGenerator.RefreshStep | Assets/Scripts/Voxel/GridGenerator.cs:51-67 | an empty queue changes nothing; otherwise exactly the head leaves; an existing chunk is re-meshed only; a missing one is created under exactly that key; keys are never removed; every chunk other than the head's is unchanged |
| VoxelGenerator.GridGenerator.GetGridFromWorldPosition | Assets/Scripts/Voxel/GridGenerator.cs:138-154 | the result is the walk's lookup: the last holder of the position, none, or the throw at the first missing key |
| VoxelGenerator.ReloadCanDuplicate | Assets/Scripts/Voxel/GridGenerator.cs:47-48 | after G, a coordinate of the box that was already queued is queued twice |
| Terraform.Inverse | Assets/Scripts/TerraformTool.cs:100-108 | the opposite brush has the same centre, radius and strength and the other mode |
| Terraform.InverseRestores | Assets/Scripts/TerraformTool.cs:98-108 | an edit followed by its inverse restores the density; an outside corner is unchanged; with non-negative strength Add never raises a density and Subtract never lowers one |
| Terraform.InBrushIgnoresMode | Assets/Scripts/TerraformTool.cs:95-98 | whether a corner is inside the brush depends on its centre and radius only, not on mode or strength |
| Terraform.TouchedUpToIgnoresMode | Assets/Scripts/TerraformTool.cs:93-98 | whether a cell is touched does not depend on the brush's mode or strength |
| Terraform.RefreshOfIgnoresMode | Assets/Scripts/TerraformTool.cs:89-124 | a chunk's refresh set does not depend on the brush's mode or strength |
| Terraform.RequestsOfInverse | Assets/Scripts/TerraformTool.cs:87-126 | the inverse brush makes every chunk request exactly the same neighbours |
| Terraform.ProgressRecorded | Assets/Scripts/TerraformTool.cs:100-108 | finished progress, written as values: the chunks' new densities are the brushed pristine ones on the edited chunks and the pristine ones elsewhere |
| Terraform.EditThenInverse | Assets/Scripts/TerraformTool.cs:98-108 | an inverse edit over the same chunks, applied to what an edit produced, brings every density back to its pristine value |
| Terraform.ReachedEntryWithin | Assets/Scripts/TerraformTool.cs:128-137 | every chunk on a request chain from the origin lies in any set that holds the origin and is closed under requests |
| Terraform.SameReachedSet | Assets/Scripts/TerraformTool.cs:128-137 | two edits from the same chunk, each reached through requests and closed under them, edit the same chunks |
| Terraform.TouchedUpToSpec | Assets/Scripts/TerraformTool.cs:93-98 | some corner among the first n is inside the brush exactly when the loop's test fires for one of them |
| Terraform.CellNeighboursSpec | Assets/Scripts/TerraformTool.cs:110-123 | each boundary test requests exactly its face neighbour, and the `else if` means a 1-cell chunk never requests +x, +y or +z |
| Terraform.RefreshOfSpec | Assets/Scripts/TerraformTool.cs:89-126 | a coordinate is requested exactly when some touched cell's boundary tests request it |
| Terraform.ToRefreshAreFaceNeighbours | Assets/Scripts/TerraformTool.cs:110-123 | every requested coordinate is a face neighbour of the edited chunk |
| Terraform.UntouchedRequestsNothing | Assets/Scripts/TerraformTool.cs:93-124 | a chunk the brush does not reach requests no neighbour |
| Terraform.CellWalk | Assets/Scripts/TerraformTool.cs:89 | a chunk's cell walk visits each of its n³ cells exactly once |
| Terraform.SnapshotStartsProgress | Assets/Scripts/TerraformTool.cs:75-78 | before any edit, the chunks' own densities are a valid starting point with nothing edited |
| Terraform.ProgressIsEdit | Assets/Scripts/TerraformTool.cs:85-140 | progress from the old snapshot means each listed chunk went through the brush and every other chunk is unchanged |
| Terraform.RequestNeighbours | Assets/Scripts/TerraformTool.cs:110-123 | the six tests add exactly the cell's boundary neighbours to the set |
| Terraform.VisitShrinks | Assets/Scripts/TerraformTool.cs:128-136 | adding the current chunk to `ignoreGrids` strictly shrinks the set of chunks still open to recursion, so the recursion ends |
| Terraform.TerraformTool.constructor | Assets/Scripts/TerraformTool.cs:32-40 | `Awake`: an empty ignore list |
| Terraform.TerraformTool.EditGrid | Assets/Scripts/TerraformTool.cs:87-126 | every corner of the chunk goes through the brush, and the returned set is the chunk's refresh set |
| Terraform.TerraformTool.EditCell | Assets/Scripts/TerraformTool.cs:91-124 | only cell `cellPos` changes; each of its corners goes through the brush; its boundary requests are added when touched |
| Terraform.TerraformTool.EditAndIgnore | Assets/Scripts/TerraformTool.cs:87-128 | the chunk is edited and its coordinate appended to `ignoreGrids`, keeping edit progress |
| Terraform.ReachedCons | Assets/Scripts/TerraformTool.cs:128-137 | a chunk followed by a chain requested from its own refresh set is a chain reached from that chunk |
| Terraform.RequestedConcat | Assets/Scripts/TerraformTool.cs:130-137 | appending a chain reached from a requested coordinate keeps every entry requested |
| Terraform.TerraformTool.VisitNeighbour | Assets/Scripts/TerraformTool.cs:132-136 | one requested coordinate: skipped when ignored or absent, otherwise recursed into; ignored coordinates only grow; every chunk entered is the coordinate itself or requested by a chunk entered before it |
| Terraform.TerraformTool.VisitAll | Assets/Scripts/TerraformTool.cs:130-137 | after the loop, every requested coordinate is ignored or absent; the entered chunks are distinct new keys, each in the refresh set or requested by a chunk entered before it |
| Terraform.TerraformTool.RefreshOwn | Assets/Scripts/TerraformTool.cs:139 | the chunk's coordinate is enqueued if absent, and no density changes |
| Terraform.TerraformTool.SpreadAndRefresh | Assets/Scripts/TerraformTool.cs:128-139 | the loop over the refresh set, then the chunk's own refresh request, last; the visited list starts at the chunk and every later entry is requested by an earlier one |
| Terraform.TerraformTool.Terraform | Assets/Scripts/TerraformTool.cs:85-140 | the visited chunks are distinct keys, the first one is the chunk itself, every later one is requested by an earlier one, and they are appended to `ignoreGrids`. They have gone through the brush and nothing else has. Every chunk they request is visited or absent. The queue gets an enqueue-if-absent of each visited chunk, the chunk itself last |
| Terraform.TerraformTool.ApplyTool | Assets/Scripts/TerraformTool.cs:75-80 | lookup, terraform on a hit, then clear. On a miss nothing changes. On a hit the edited chunks are distinct keys starting at the found chunk, each later one requested by an earlier one, closed under neighbour requests and edited exactly; each is enqueued unless already queued; `ignoreGrids` is empty again |
| Terraform.TerraformTool.EditFrom | Assets/Scripts/TerraformTool.cs:78-80 | terraform from a chunk with nothing ignored, then `Clear`: the edited chunks are distinct keys reached from the chunk through requests only, closed under requests, edited exactly and enqueued, the chunk last; at most as many edited chunks as keys |
| Terraform.TerraformTool.ClearIgnored | Assets/Scripts/TerraformTool.cs:80 | `ignoreGrids` becomes empty; chunks and queue are untouched |
| Terraform.TerraformTool.EditRecorded | Assets/Scripts/TerraformTool.cs:75-80 | what a tool step leaves, as values the next step can use: the new densities against `pristine`, and closure of the edited chunks under requests |
| Terraform.TerraformTool.InverseEditRestores | Assets/Scripts/TerraformTool.cs:71-80 | undo: a step with the other mode (Left Shift toggles Add and Subtract) from the same chunk, after a step with brush `b`, edits the same chunks and restores every density the first step changed, leaving progress with nothing edited |
| LegacyGenerator.GridGenerator.constructor | Assets/Scripts/GridGenerator.cs:17-18 | no chunks and an empty queue |
| LegacyGenerator.GridGenerator.NewGrid | Assets/Scripts/GridGenerator.cs:28-40 | one fresh chunk at the given position, with the manager's settings, sampled and meshed |
| LegacyGenerator.GridGenerator.CreateRow | Assets/Scripts/GridGenerator.cs:26-43 | the k loop builds one distinct fresh chunk per coordinate of the row, in order |
| LegacyGenerator.GridGenerator.CreatePlane | Assets/Scripts/GridGenerator.cs:24-44 | the j loop builds the chunks of one plane, in order, all distinct |
| LegacyGenerator.GridGenerator.CreateAll | Assets/Scripts/GridGenerator.cs:22-45 | the i loop builds one chunk per box coordinate, in walk order, all distinct |
| LegacyGenerator.GridGenerator.Start | Assets/Scripts/GridGenerator.cs:20-48 | size.x · size.y · size.z distinct fresh chunks; the one at index n sits at the n-th coordinate of the walk, configured and sampled |
| LegacyGenerator.GridGenerator.EnqueueAll | Assets/Scripts/GridGenerator.cs:50-60 | each chunk is enqueued unless already queued; afterwards every chunk is queued and the queue has no duplicate |
| LegacyGenerator.GridGenerator.Dequeue | Assets/Scripts/GridGenerator.cs:68 | the head is returned and removed; it is a chunk of the list and no longer queued |
| LegacyGenerator.GridGenerator.Rebuild | Assets/Scripts/GridGenerator.cs:70-77 | the chunk gets the manager's settings, densities regenerated, and its mesh rebuilt from them |
| LegacyGenerator.GridGenerator.RefreshStep | Assets/Scripts/GridGenerator.cs:62-82 | an empty queue changes nothing. Otherwise exactly the head leaves and is rebuilt, densities and mesh both. The chunk list and every other queued chunk are unchanged |

## Left out

- Unity lifecycle and presentation are not modelled. This covers `MonoBehaviour` wiring, `Instantiate`, `GameObjectPool`, `transform.position`, `Mesh`/`MeshFilter`/`MeshCollider`, normals, colour gradients and the debug drawing in `Grid.cs`. They are engine I/O.
- Input is not modelled:
  - mouse buttons, keys and the scroll wheel;
  - the camera ray cast;
  - the tool prefab's scale and `isNear`.
  - The brush is a parameter of the tool step instead: centre, radius (`toolScale / 2`), strength and mode.
- Coroutines, `WaitForEndOfFrame` and the `Time.time` tick throttle are not modelled; each coroutine body is one step method.
- `FastNoise`, the newer chunk's density generator, `Voxel.Grid.HasPosition` and `Table.triangulation` are not shown in the source. They are parameters. The canonical table is not reproduced.
- Floating point is not modelled: `float` is exact `real`, so rounding and wrap-around are absent.
- The newer chunk's mesh is a ghost record of the densities it was built from. Its vertex list is not modelled.
- `Terraform.CellScale`: the newer chunk's cell scale is taken to be GridScale / CellCount, like the older chunk's, because `Voxel.Grid` is not shown. Two further assumptions about that class follow for the same reason: `grid.ForeachCoordinate` walks exactly the n³ cube of cell positions (TerraformTool.cs:89, `Terraform.ChunkCells`), and `grid.GetCell(cellPos)` is the cell whose corners sit at `cellPos` (TerraformTool.cs:91, `Terraform.CornerWorldPos`).
- `Terraform.TerraformTool.VisitAll`: the `HashSet` iteration order is left open. The loop picks any remaining element, so the contracts hold for every order.
- `VoxelGenerator.GridGenerator.AddGrid` requires the key to be absent. `Dictionary.Add` would throw, and the only caller checks first.
- `Terraform.TerraformTool.Terraform` requires its chunk not to be in `ignoreGrids` already. Every call site checks this, either directly or because the list is empty.
- `Terraform.TerraformTool.ApplyTool` requires `ignoreGrids` to be empty and the manager invariant to hold. The constructor establishes both and every step restores them.
- `Terraform.TerraformTool.ApplyTool` states the edit against a caller-supplied `pristine` map rather than against `old(...)`. `Terraform.SnapshotStartsProgress` and `Terraform.ProgressIsEdit` connect the two.
- `Terraform.TerraformTool.InverseEditRestores` relates two tool steps through values rather than one method that runs both, because the source has no undo operation. After the first step, `EditRecorded` records its outcome against `Snapshot(...)`. `ApplyTool` writes only densities, the queue and `ignoreGrids`, never a chunk's placement, so that record still holds when the second step runs with that snapshot as its `pristine` map.
- `Terraform.TerraformTool.ApplyTool`: a missing key in the lookup is a `KeyNotFound` result under which nothing changes. In Unity the exception would end that frame's `Update`.
- `LegacyGrid`: in C# `cells` is null until `GenerateGridValues` runs, and `ConstructMesh` on it throws `NullReferenceException`. The model's constructor gives a 0×0×0 lattice instead, on which `ConstructMesh` yields an empty mesh. The older manager, the only user of this class, always samples before it meshes.
- `LegacyGenerator.GridGenerator.Start` requires an empty list and queue, as the field initialisers leave them. It does not start the coroutine.
- `LegacyGenerator.GridGenerator.NewGrid` calls `ConstructMesh` and drops the mesh, as `Start` does. `Rebuild` returns the mesh so that its contract can state it.
- `VoxelGenerator.GridGenerator.RefreshGrid` and `VoxelGenerator.GridGenerator.AddGrid`: the `RefreshGrid(int, int, int)` and `AddGrid(int, int, int)` overloads only build a `Vector3Int` and are not modelled separately.
- `Geometry.Edge.InterpolateMidpoint` requires v1 ≠ v2. When v1 == v2 the source divides by zero in `float`, giving infinity or NaN, and that is not modelled.
- `Terraform.TerraformTool.Terraform`: the refresh order is stated only as the chunk's own request coming last, after its visited chunks, with each enqueued unless already queued. The full depth-first post-order of the inner calls is not stated, because it would need a call-tree datatype mirroring the recursion.
