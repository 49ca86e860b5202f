# Elevated terrain meshes: a Dafny model

This project models the mesh pipeline of the Mapbox Unity SDK's elevated
terrain strategy (`ElevatedTerrainStrategy`) and proves properties of it.
A tile's terrain is an N×N vertex grid, where N is the configured sample
count. Vertex `y*N + x` sits at grid cell `(x, y)`. The pipeline runs in
these steps:

- **Base mesh.** `CreateBaseMesh` lays the grid out flat over the tile
  rectangle, with up normals and UVs `(x/(N-1), 1 - y/(N-1))`. It also
  builds two triangles per cell.
- **Terrain generation.** `GenerateTerrainMesh`:
  - replaces each grid vertex's height with a sample of the elevation data
    taken at that vertex's UV, and zeroes the normals;
  - adds every triangle's cross-product face normal into its three corners;
  - stitches the tile's border to the meshes of its eight neighbours;
  - optionally appends side walls (skirts).
- **Registry.** The strategy keeps a registry from tile id to mesh.
  - Generation records a tile's mesh only if the tile has no entry yet.
  - `UnregisterTile` removes the tile's entry.
  - Stitching looks neighbours up in it.
- **Flat reset.** `ResetToFlatMesh` flattens a mesh back to height 0 with
  up normals.

The modules follow the pipeline:

| file | module | contents |
|---|---|---|
| geometry.dfy | `Geometry`, `Wrappers` | vectors over the reals, cross product, the `Mesh` record (vertices, normals, UVs, surface triangles, wall triangles), `Option` |
| grid.dfy | `Grid` | index arithmetic of the grid, the reference base mesh, and the loops of `CreateBaseMesh` |
| displacement.dfy | `Displacement` | height displacement and normal accumulation, as reference definitions and as the source's loops |
| stitching.dfy | `Stitching` | the eight stitching directions, their row, column or corner, and `FixStitches` in the source's order |
| walls.dfy | `SideWalls` | the reference layout of the 8N wall vertices and 8(N-1) wall triangles, and the loops of `CreateSides` |
| registry.dfy | `Registry` | insert-if-absent, remove and look-up on the tile registry |
| terrain.dfy | `Terrain` | the strategy itself: options, the registry with its meshes, `RegisterTile`, `GenerateTerrainMesh`, `UnregisterTile` and `ResetToFlatMesh` |

**How the model is built.**
- Each loop of the source has two forms: a reference definition (a
  sequence comprehension or a recursive function) and a method that
  follows the source loop step by step. The method is proved equal to the
  reference. Properties are then proved about the reference.
- The exception is `FixStitches`. Its eight per-direction loops are
  modelled by the recursive function `Stitching.StitchFrom` (one block per
  covered index), not by a method. `Stitching.StitchSide` states what one
  block writes.
- The registry maps a tile id to a mesh *handle*. A second map holds the
  meshes themselves. The source stores a live engine mesh object, so when a
  tile is regenerated its neighbours see the new vertices even though the
  registry entry stays the same. The handle model keeps this behaviour.
- A mesh the engine has destroyed is a handle with no mesh. Stitching
  treats it like a missing neighbour, as the source's null check does.

All source paths below are in
`sdkproject/Assets/Mapbox/Unity/MeshGeneration/Factories/TerrainStrategies/`;
the table gives them in full.

## Model

| member | source | states |
|---|---|---|
| Grid.BaseMesh | sdkproject/Assets/Mapbox/Unity/MeshGeneration/Factories/TerrainStrategies/ElevatedTerrainStrategy.cs:86-125 | the base mesh has exactly N² vertices, normals and UVs; every vertex starts at height 0 with the up normal; no wall triangles |
| Grid.SurfaceTriangles | sdkproject/Assets/Mapbox/Unity/MeshGeneration/Factories/TerrainStrategies/ElevatedTerrainStrategy.cs:107-125 | the surface list holds 6·(N-1)² indices, forms whole triangles, and every index is below N² |
| Grid.CellTrianglesTileTheCell | sdkproject/Assets/Mapbox/Unity/MeshGeneration/Factories/TerrainStrategies/ElevatedTerrainStrategy.cs:111-123 | a cell's two triangles use exactly its four corner vertices and have the same winding |
| Grid.BaseMeshAt | sdkproject/Assets/Mapbox/Unity/MeshGeneration/Factories/TerrainStrategies/ElevatedTerrainStrategy.cs:86-101 | cell (x,y) lies at fraction (x/(N-1), y/(N-1)) of the rectangle from its minimum corner, relative to the centre and scaled, at height 0 with an up normal, and has UV (x/(N-1), 1-y/(N-1)) |
| Grid.BaseMeshCorners | sdkproject/Assets/Mapbox/Unity/MeshGeneration/Factories/TerrainStrategies/ElevatedTerrainStrategy.cs:86-101 | cell (0,0) has UV (0,1) and lies at the rectangle's minimum corner; cell (N-1,N-1) has UV (1,0) and lies at the maximum corner; both are scaled about the centre |
| Grid.CreateGridVertices | sdkproject/Assets/Mapbox/Unity/MeshGeneration/Factories/TerrainStrategies/ElevatedTerrainStrategy.cs:86-103 | the nested vertex loop produces exactly the reference grid's vertices, normals and UVs |
| Grid.CreateSurfaceTriangles | sdkproject/Assets/Mapbox/Unity/MeshGeneration/Factories/TerrainStrategies/ElevatedTerrainStrategy.cs:105-125 | the nested triangle loop produces exactly the reference surface triangle list, with (A, A+N+1, A+N) then (A, A+1, A+N+1) for each cell |
| Grid.CreateBaseMesh | sdkproject/Assets/Mapbox/Unity/MeshGeneration/Factories/TerrainStrategies/ElevatedTerrainStrategy.cs:83-132 | the method builds the reference base mesh |
| Displacement.Displace | sdkproject/Assets/Mapbox/Unity/MeshGeneration/Factories/TerrainStrategies/ElevatedTerrainStrategy.cs:142-152 | displacement keeps every vertex's X and Z; grid normals become zero; entries past the grid are untouched |
| Displacement.DisplacedAt | sdkproject/Assets/Mapbox/Unity/MeshGeneration/Factories/TerrainStrategies/ElevatedTerrainStrategy.cs:146-150 | cell (x,y) gets the height sampled at (x/(N-1), 1-y/(N-1)) and a zero normal |
| Displacement.HeightSampledAtVertexUv | sdkproject/Assets/Mapbox/Unity/MeshGeneration/Factories/TerrainStrategies/ElevatedTerrainStrategy.cs:101-148 | on a base mesh, each vertex's height is sampled at that vertex's own UV |
| Displacement.DisplaceReadsOnlyGround | sdkproject/Assets/Mapbox/Unity/MeshGeneration/Factories/TerrainStrategies/ElevatedTerrainStrategy.cs:142-152 | displacement depends only on the grid's ground positions; old heights and old normals on the grid do not matter |
| Displacement.DisplaceGrid | sdkproject/Assets/Mapbox/Unity/MeshGeneration/Factories/TerrainStrategies/ElevatedTerrainStrategy.cs:142-152 | the nested displacement loop produces exactly the reference displacement |
| Displacement.AccumulatedNormalIsIncidentSum | sdkproject/Assets/Mapbox/Unity/MeshGeneration/Factories/TerrainStrategies/ElevatedTerrainStrategy.cs:154-174 | after accumulation, a vertex's normal equals its starting normal plus the face normal of every triangle it is a corner of, counted once per corner |
| Displacement.AccumulationOrderIrrelevant | sdkproject/Assets/Mapbox/Unity/MeshGeneration/Factories/TerrainStrategies/ElevatedTerrainStrategy.cs:154-174 | accumulating two triangle lists in either order gives the same normals |
| Displacement.AccumulateAppend | sdkproject/Assets/Mapbox/Unity/MeshGeneration/Factories/TerrainStrategies/ElevatedTerrainStrategy.cs:154-174 | accumulating a concatenation equals accumulating the first list and then the second |
| Displacement.AccumulateLeavesUnreferenced | sdkproject/Assets/Mapbox/Unity/MeshGeneration/Factories/TerrainStrategies/ElevatedTerrainStrategy.cs:154-174 | a vertex that no triangle uses keeps its normal |
| Displacement.AccumulateCell | sdkproject/Assets/Mapbox/Unity/MeshGeneration/Factories/TerrainStrategies/ElevatedTerrainStrategy.cs:158-172 | one cell adds the face of (A, A+N+1, A+N), then that of (A, A+1, A+N+1), and all indices stay inside the grid |
| Displacement.AccumulateCellStep | sdkproject/Assets/Mapbox/Unity/MeshGeneration/Factories/TerrainStrategies/ElevatedTerrainStrategy.cs:156-173 | one pass of the cell loop extends the accumulated prefix by that cell's two triangles |
| Displacement.AccumulateGridNormals | sdkproject/Assets/Mapbox/Unity/MeshGeneration/Factories/TerrainStrategies/ElevatedTerrainStrategy.cs:154-174 | the nested accumulation loop produces exactly the accumulation over the surface triangle list |
| Displacement.ConstantHeightLevelsGrid | sdkproject/Assets/Mapbox/Unity/MeshGeneration/Factories/TerrainStrategies/ElevatedTerrainStrategy.cs:142-152 | with a constant height source, every grid vertex ends at that height |
| Displacement.ConstantHeightGivesVerticalNormals | sdkproject/Assets/Mapbox/Unity/MeshGeneration/Factories/TerrainStrategies/ElevatedTerrainStrategy.cs:142-174 | with a constant height source, every accumulated grid normal has X = Z = 0 |
| Stitching.SnapVertex | sdkproject/Assets/Mapbox/Unity/MeshGeneration/Factories/TerrainStrategies/ElevatedTerrainStrategy.cs:388-391 | a stitched vertex keeps its own X and Z and takes the neighbour's Y |
| Stitching.TargetFacts | sdkproject/Assets/Mapbox/Unity/MeshGeneration/Factories/TerrainStrategies/ElevatedTerrainStrategy.cs:385-537 | the i-th index each direction writes lies on that direction's row, column or corner; it is the only such index at position i; it reads the matching neighbour index (north i from N²-N+i, west i·N from i·N+N-1, NW 0 from N²-1, and so on) |
| Stitching.PartnerIsMutual | sdkproject/Assets/Mapbox/Unity/MeshGeneration/Factories/TerrainStrategies/ElevatedTerrainStrategy.cs:385-537 | the correspondence is mutual: the opposite direction applied to the partner index leads back to the original index |
| Stitching.StitchSide | sdkproject/Assets/Mapbox/Unity/MeshGeneration/Factories/TerrainStrategies/ElevatedTerrainStrategy.cs:380-397 | one direction's block snaps the height and copies the normal of exactly the indices it covers, from their partners in the neighbour; every other entry is unchanged |
| Stitching.StitchAllIsLastWriter | sdkproject/Assets/Mapbox/Unity/MeshGeneration/Factories/TerrainStrategies/ElevatedTerrainStrategy.cs:375-538 | after a sequence of directions, each entry comes from the last present direction that covers it, or keeps its own value if there is none |
| Stitching.LastWriterIsDecider | sdkproject/Assets/Mapbox/Unity/MeshGeneration/Factories/TerrainStrategies/ElevatedTerrainStrategy.cs:375-538 | in the order N, S, W, E, NW, NE, SW, SE, the diagonal decides a corner when it is present; otherwise the later edge decides |
| Stitching.FixStitchesAt | sdkproject/Assets/Mapbox/Unity/MeshGeneration/Factories/TerrainStrategies/ElevatedTerrainStrategy.cs:375-538 | every vertex and normal after stitching is fixed by the deciding neighbour at that index, if any |
| Stitching.StitchTouchesOnlyBorderHeights | sdkproject/Assets/Mapbox/Unity/MeshGeneration/Factories/TerrainStrategies/ElevatedTerrainStrategy.cs:375-538 | stitching never changes X or Z, and leaves every index off rows 0 and N-1 and columns 0 and N-1 unchanged |
| Stitching.NoNeighboursNoChange | sdkproject/Assets/Mapbox/Unity/MeshGeneration/Factories/TerrainStrategies/ElevatedTerrainStrategy.cs:375-538 | with no neighbour in any of the eight directions, stitching leaves the buffer exactly as it was |
| Stitching.StitchIdempotent | sdkproject/Assets/Mapbox/Unity/MeshGeneration/Factories/TerrainStrategies/ElevatedTerrainStrategy.cs:375-538 | stitching twice with the same neighbours gives the same buffer as stitching once |
| Stitching.DiagonalDecidesCorner | sdkproject/Assets/Mapbox/Unity/MeshGeneration/Factories/TerrainStrategies/ElevatedTerrainStrategy.cs:463-537 | a present diagonal neighbour gives the corner its opposite corner's height and normal, whatever edge neighbours exist |
| Stitching.EdgeDecidesEdge | sdkproject/Assets/Mapbox/Unity/MeshGeneration/Factories/TerrainStrategies/ElevatedTerrainStrategy.cs:378-461 | a present edge neighbour gives every non-corner index on that edge the height and normal of its partner across the seam |
| SideWalls.WithWalls | sdkproject/Assets/Mapbox/Unity/MeshGeneration/Factories/TerrainStrategies/ElevatedTerrainStrategy.cs:211-367 | walls append exactly 8N vertices, normals and UVs and 24(N-1) wall indices; the existing vertices, normals, UVs and surface triangles stay as they were |
| SideWalls.WallTrianglesAddressWalls | sdkproject/Assets/Mapbox/Unity/MeshGeneration/Factories/TerrainStrategies/ElevatedTerrainStrategy.cs:213-362 | every wall index points into the newly appended block, and the wall list forms whole triangles |
| SideWalls.WallAt | sdkproject/Assets/Mapbox/Unity/MeshGeneration/Factories/TerrainStrategies/ElevatedTerrainStrategy.cs:213-352 | the k-th appended vertex, normal and UV are the k-th entries of the reference wall layout |
| SideWalls.WallPairsHangDown | sdkproject/Assets/Mapbox/Unity/MeshGeneration/Factories/TerrainStrategies/ElevatedTerrainStrategy.cs:226-346 | each bottom wall vertex is its top vertex plus (0, -wallHeight, 0); the pair shares its normal; V is 1 at the top and 0 at the bottom |
| SideWalls.WallTopsTracePerimeter | sdkproject/Assets/Mapbox/Unity/MeshGeneration/Factories/TerrainStrategies/ElevatedTerrainStrategy.cs:226-345 | the wall tops copy the perimeter vertices: north row 0, west column 0, east column N-1, south row N-1, in order |
| SideWalls.WallTextureStretches | sdkproject/Assets/Mapbox/Unity/MeshGeneration/Factories/TerrainStrategies/ElevatedTerrainStrategy.cs:233-352 | on every wall, U at step i is i/(N-1); the south wall's (N-(cc-i)+1)/(N-1) gives the same values |
| SideWalls.WallTriangleShape | sdkproject/Assets/Mapbox/Unity/MeshGeneration/Factories/TerrainStrategies/ElevatedTerrainStrategy.cs:247-362 | each wall triangle has three distinct corners on a single wall, between two adjacent border vertices of that wall, with at least one top and one bottom vertex |
| SideWalls.WallTrianglesShareNormal | sdkproject/Assets/Mapbox/Unity/MeshGeneration/Factories/TerrainStrategies/ElevatedTerrainStrategy.cs:228-362 | the three corners of each wall triangle are distinct, lie in range and share one normal |
| SideWalls.WallFacesMatchNormals | sdkproject/Assets/Mapbox/Unity/MeshGeneration/Factories/TerrainStrategies/ElevatedTerrainStrategy.cs:228-362 | on a grid laid out on a rectangle, each wall triangle's face normal is parallel to the normal the source assigns to that wall (forward, left, right or back); `SideWalls.WallWinding` gives its sign |
| SideWalls.BaseMeshFramed | sdkproject/Assets/Mapbox/Unity/MeshGeneration/Factories/TerrainStrategies/ElevatedTerrainStrategy.cs:93-99 | the base grid's border rows share their Z and its border columns share their X |
| SideWalls.FramedOverSameGround | sdkproject/Assets/Mapbox/Unity/MeshGeneration/Factories/TerrainStrategies/ElevatedTerrainStrategy.cs:146-150 | a grid that keeps another's ground positions is laid out on the same rectangle |
| SideWalls.WallWinding | sdkproject/Assets/Mapbox/Unity/MeshGeneration/Factories/TerrainStrategies/ElevatedTerrainStrategy.cs:228-362 | on a framed border, the three corners of wall triangle q carry its wall's normal, and its face normal (B-A)×(C-A) is exactly the wall height times the signed ground step between the two border vertices of its segment times that normal, so the triangles are wound the same way along every wall; the step may be read off any vertex list over the same ground |
| SideWalls.QuadHalves | sdkproject/Assets/Mapbox/Unity/MeshGeneration/Factories/TerrainStrategies/ElevatedTerrainStrategy.cs:247-362 | the two triangles the source adds per step (0,1,2 and 2,1,3 on the north wall, and likewise on the others) lie on the same wall and the same segment |
| SideWalls.BaseMeshAdvance | sdkproject/Assets/Mapbox/Unity/MeshGeneration/Factories/TerrainStrategies/ElevatedTerrainStrategy.cs:86-99 | on the base mesh, neighbouring border vertices of a wall are BaseStep apart: (maxX-minX)·scale/(N-1) in X on the north and south walls, (minY-maxY)·scale/(N-1) as a fall in Z on the west and east walls |
| SideWalls.BaseStepPositive | sdkproject/Assets/Mapbox/Unity/MeshGeneration/Factories/TerrainStrategies/ElevatedTerrainStrategy.cs:93-99 | on a rectangle whose X grows from Min to Max and whose Y falls, at a positive scale, BaseStep is positive on every wall |
| SideWalls.CreateNorthWall | sdkproject/Assets/Mapbox/Unity/MeshGeneration/Factories/TerrainStrategies/ElevatedTerrainStrategy.cs:213-261 | the north loop appends the first 2N wall vertices and 6(N-1) indices of the reference layout, and leaves the running index 2N past the old end |
| SideWalls.CreateWestEastWalls | sdkproject/Assets/Mapbox/Unity/MeshGeneration/Factories/TerrainStrategies/ElevatedTerrainStrategy.cs:265-325 | the paired west/east loop extends the layout to 6N vertices and 18(N-1) indices |
| SideWalls.CreateSouthWall | sdkproject/Assets/Mapbox/Unity/MeshGeneration/Factories/TerrainStrategies/ElevatedTerrainStrategy.cs:329-366 | the south loop, counting from N²-N, completes the layout to 8N vertices and 24(N-1) indices |
| SideWalls.CreateSides | sdkproject/Assets/Mapbox/Unity/MeshGeneration/Factories/TerrainStrategies/ElevatedTerrainStrategy.cs:211-368 | the three loops together append exactly the reference walls |
| Registry.Register | sdkproject/Assets/Mapbox/Unity/MeshGeneration/Factories/TerrainStrategies/ElevatedTerrainStrategy.cs:196-199 | the tile gains an entry; existing entries, including the tile's own, are kept; a new tile maps to the offered mesh |
| Registry.Unregister | sdkproject/Assets/Mapbox/Unity/MeshGeneration/Factories/TerrainStrategies/ElevatedTerrainStrategy.cs:77-80 | the tile loses its entry and every other entry is kept |
| Registry.Lookup | sdkproject/Assets/Mapbox/Unity/MeshGeneration/Factories/TerrainStrategies/ElevatedTerrainStrategy.cs:379-380 | look-up finds a mesh exactly when the tile has an entry, and the mesh it finds is that entry |
| Registry.RegisterIdempotent | sdkproject/Assets/Mapbox/Unity/MeshGeneration/Factories/TerrainStrategies/ElevatedTerrainStrategy.cs:196-199 | registering a tile again changes nothing, whatever mesh is offered |
| Registry.UnregisterUndoesRegister | sdkproject/Assets/Mapbox/Unity/MeshGeneration/Factories/TerrainStrategies/ElevatedTerrainStrategy.cs:77-80 | unregistering a tile that was just registered for the first time restores the registry |
| Registry.ReRegisterTakesNewEntry | sdkproject/Assets/Mapbox/Unity/MeshGeneration/Factories/TerrainStrategies/ElevatedTerrainStrategy.cs:77-80 | after an unregister, a new registration records the new mesh |
| Registry.OtherTilesUnaffected | sdkproject/Assets/Mapbox/Unity/MeshGeneration/Factories/TerrainStrategies/ElevatedTerrainStrategy.cs:77-80 | registering or unregistering one tile leaves every other tile's look-up unchanged |
| Terrain.FirstTileIsUnstitched | sdkproject/Assets/Mapbox/Unity/MeshGeneration/Factories/TerrainStrategies/ElevatedTerrainStrategy.cs:25-75 | initialisation empties the registry, so the first tile registered afterwards is stitched against nothing: its mesh is its displaced surface with accumulated normals, and the registry then maps that tile alone to its mesh |
| Terrain.LoneTileIsUnstitched | sdkproject/Assets/Mapbox/Unity/MeshGeneration/Factories/TerrainStrategies/ElevatedTerrainStrategy.cs:375-538 | generation with no neighbour in any direction leaves every vertex and normal as displacement and normal accumulation made them |
| Terrain.Neighbours | sdkproject/Assets/Mapbox/Unity/MeshGeneration/Factories/TerrainStrategies/ElevatedTerrainStrategy.cs:378-380 | a direction has a neighbour exactly when the neighbour's id is registered and its mesh still exists; that neighbour is the registered mesh's vertices and normals |
| Terrain.AccumulatedSurface | sdkproject/Assets/Mapbox/Unity/MeshGeneration/Factories/TerrainStrategies/ElevatedTerrainStrategy.cs:142-174 | the displacement and normal loops keep every ground position and leave every vertex and normal past the grid untouched |
| Terrain.ShapeSurface | sdkproject/Assets/Mapbox/Unity/MeshGeneration/Factories/TerrainStrategies/ElevatedTerrainStrategy.cs:142-176 | shaping the surface keeps every ground position and leaves everything past the grid untouched |
| Terrain.GenerateMesh | sdkproject/Assets/Mapbox/Unity/MeshGeneration/Factories/TerrainStrategies/ElevatedTerrainStrategy.cs:134-192 | generation grows the mesh by 8N vertices when walls are active and by none otherwise; it keeps ground positions, existing UVs and the surface triangles; without walls it keeps UVs and wall triangles entirely |
| Terrain.GenerateMeshSteps | sdkproject/Assets/Mapbox/Unity/MeshGeneration/Factories/TerrainStrategies/ElevatedTerrainStrategy.cs:142-187 | displacement loop, accumulation loop, stitching and the side-wall loops, run in the source's order, produce the generated mesh |
| Terrain.GenerateTerrainMesh | sdkproject/Assets/Mapbox/Unity/MeshGeneration/Factories/TerrainStrategies/ElevatedTerrainStrategy.cs:134-199 | only the tile's own mesh changes; the registry gains the tile if it was absent, and every existing entry is kept |
| Terrain.RegisterTile | sdkproject/Assets/Mapbox/Unity/MeshGeneration/Factories/TerrainStrategies/ElevatedTerrainStrategy.cs:37-75 | after registration the tile has an entry, which is its own mesh (or the newly created one) unless it already had one; every existing entry is kept; the only mesh that is added or changes is the tile's; every mesh stays a valid terrain mesh |
| Terrain.WithTileMesh | sdkproject/Assets/Mapbox/Unity/MeshGeneration/Factories/TerrainStrategies/ElevatedTerrainStrategy.cs:63-67 | a tile that has a mesh leaves the scene as it is; a tile without one gets the flat base mesh under the fresh handle; the registry and every existing mesh are unchanged, and every mesh stays a valid terrain mesh |
| Terrain.UnregisterTile | sdkproject/Assets/Mapbox/Unity/MeshGeneration/Factories/TerrainStrategies/ElevatedTerrainStrategy.cs:77-80 | the tile's look-up becomes empty; every other tile's look-up and every mesh are unchanged |
| Terrain.Flattened | sdkproject/Assets/Mapbox/Unity/MeshGeneration/Factories/TerrainStrategies/ElevatedTerrainStrategy.cs:540-559 | flattening puts every vertex at height 0 over its own ground position with an up normal; UVs and triangles are kept |
| Terrain.ResetToFlatMesh | sdkproject/Assets/Mapbox/Unity/MeshGeneration/Factories/TerrainStrategies/ElevatedTerrainStrategy.cs:540-559 | the reset loop produces exactly the flattened mesh |
| Terrain.FlattenIdempotent | sdkproject/Assets/Mapbox/Unity/MeshGeneration/Factories/TerrainStrategies/ElevatedTerrainStrategy.cs:540-559 | flattening a flat mesh changes nothing |
| Terrain.FlatResetUndoesGeneration | sdkproject/Assets/Mapbox/Unity/MeshGeneration/Factories/TerrainStrategies/ElevatedTerrainStrategy.cs:540-559 | without walls, flattening a generated base mesh gives back the base mesh |
| Terrain.RegenerationIsStable | sdkproject/Assets/Mapbox/Unity/MeshGeneration/Factories/TerrainStrategies/ElevatedTerrainStrategy.cs:134-192 | without walls, generating again with the same heights and neighbours changes nothing |
| Terrain.WalledRegenerationGrows | sdkproject/Assets/Mapbox/Unity/MeshGeneration/Factories/TerrainStrategies/ElevatedTerrainStrategy.cs:136-187 | with walls, a second generation appends another 8N vertices on top of the first |
| Terrain.InteriorFollowsHeights | sdkproject/Assets/Mapbox/Unity/MeshGeneration/Factories/TerrainStrategies/ElevatedTerrainStrategy.cs:142-174 | an interior grid vertex ends at the height sampled at its UV; its normal is the sum of the face normals around it |
| Terrain.EdgeMatchesNeighbour | sdkproject/Assets/Mapbox/Unity/MeshGeneration/Factories/TerrainStrategies/ElevatedTerrainStrategy.cs:378-461 | after generation, a non-corner edge vertex has its edge neighbour's partner height and normal |
| Terrain.CornerMatchesDiagonal | sdkproject/Assets/Mapbox/Unity/MeshGeneration/Factories/TerrainStrategies/ElevatedTerrainStrategy.cs:463-537 | after generation, a corner with a present diagonal neighbour has that neighbour's opposite corner height and normal |
| Terrain.GeneratedWallsAreFlatShaded | sdkproject/Assets/Mapbox/Unity/MeshGeneration/Factories/TerrainStrategies/ElevatedTerrainStrategy.cs:177-187 | on a grid laid out on a rectangle, each generated wall triangle's face is parallel to its vertices' normal |
| Terrain.NewTileWallsAreFlatShaded | sdkproject/Assets/Mapbox/Unity/MeshGeneration/Factories/TerrainStrategies/ElevatedTerrainStrategy.cs:63-74 | on a new tile's base mesh, each generated wall triangle's face is parallel to its vertices' normal |
| Terrain.GeneratedWallWinding | sdkproject/Assets/Mapbox/Unity/MeshGeneration/Factories/TerrainStrategies/ElevatedTerrainStrategy.cs:177-187 | after generation, each wall triangle is wound as SideWalls.WallWinding states, with the steps between the border vertices the grid had before displacement |
| Terrain.NewTileWallWinding | sdkproject/Assets/Mapbox/Unity/MeshGeneration/Factories/TerrainStrategies/ElevatedTerrainStrategy.cs:63-74 | on a new tile's base mesh, each generated wall triangle's face normal is the wall height times BaseStep times its wall's normal; on a rectangle whose X grows and Y falls, at a positive scale, BaseStep is positive, so with a positive wall height each wall face points the way of its vertices' normal |
| Terrain.RegisteredNeighbourIsStitched | sdkproject/Assets/Mapbox/Unity/MeshGeneration/Factories/TerrainStrategies/ElevatedTerrainStrategy.cs:378-397 | registering a tile next to a registered edge neighbour gives every non-corner index on that edge the neighbour's partner height and normal |
| Terrain.UnregisteredTileIsNotStitched | sdkproject/Assets/Mapbox/Unity/MeshGeneration/Factories/TerrainStrategies/ElevatedTerrainStrategy.cs:77-80 | once a tile is unregistered, no neighbour of it sees it as a stitching source |

## Left out

**Engine plumbing and precision.**
- Engine plumbing has no logic to state and is not modelled (ElevatedTerrainStrategy.cs:39-61, 69-72, 126-130, 182-186, 194, 201-208). This covers:
  - renderer, material and collider creation;
  - layer assignment;
  - reading and writing the engine mesh's buffers, and `subMeshCount`;
  - `RecalculateBounds`;
  - the collider's shared mesh.
- Single-precision floats are modelled as reals, so rounding is left out. This covers the double-precision `Mathd.Lerp` world positions, and the float loop counters of the displacement loop (ElevatedTerrainStrategy.cs:142-152), which the model counts as naturals.
- The height source (`QueryHeightData`) is a function parameter.

**Tile ids, the registry and `MeshData`.**
- The derivation of neighbour ids (`UnwrappedTileId.North` and the rest) is a function parameter.
- Allocating a new engine mesh in `RegisterTile` is modelled by the caller passing a handle that is in neither the registry nor the heap.
- `MeshData` is not part of this model. Its buffers are modelled as sequences.

**Preconditions.**
- The source never checks `sampleCount >= 2`. The model requires it everywhere; a ConfigurationError on smaller counts is not what the code does.
- Terrain.TerrainMesh and Terrain.Valid: every mesh the model reads must have aligned buffers and at least N² vertices. This holds for the tile's own mesh and for every registered neighbour's mesh. The source checks neither. On a shorter mesh the list indexers at ElevatedTerrainStrategy.cs:146-150 (displacement) or :388-393 (stitching) throw. An example is a tile whose existing mesh filter was built with another sample count. The model does not cover that exception.

**Deliberately weaker contracts.**
- Terrain.GenerateMesh: models the wall triangle list as a fresh list on every generation.
  - The source builds the wall triangles in its scratch buffer's first triangle list and uploads that as submesh 1 (ElevatedTerrainStrategy.cs:179-185).
  - It empties that list only when a base mesh is built (ElevatedTerrainStrategy.cs:85, 131).
  - That buffer is one object shared by every tile. So any generation that is not directly preceded by a base-mesh build uploads the wall indices left by the previous generation, whichever tile that was. A pooled tile whose mesh filter already exists is one such case. That depends on how `MeshData` clears itself, which is not part of this model.
- SideWalls.CreateSides: likewise starts from an empty wall triangle list.
- Terrain.NewTileWallWinding: states the direction of the wall faces only for a rectangle whose X grows from Min to Max and whose Y falls. Which way a tile's rectangle runs is decided by the tile bounds, which are not part of this model. On a rectangle of the other orientation the same lemma gives a negative BaseStep, so the faces point against the normals.
- Terrain.RegenerationIsStable: holds only without side walls. With walls, regeneration reads back a mesh that already has walls and appends 8N more vertices (`Terrain.WalledRegenerationGrows`). The model does not claim stability there.

**Unmodelled claims.**
- The requirement that neighbouring tiles agree on both sides of a seam once both are stitched is not modelled as a two-tile property. `EdgeMatchesNeighbour`, `CornerMatchesDiagonal` and `Stitching.PartnerIsMutual` state the one-sided facts it rests on.
