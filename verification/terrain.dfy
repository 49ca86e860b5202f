/** The elevated terrain strategy: tile registration, terrain generation and
    the flat reset, over a scene of meshes and the strategy's registry.

    A Unity mesh is a shared object: the registry stores the tile's mesh
    object, and regenerating the tile later rewrites that same object, which
    neighbours then read through the registry. The scene is therefore a map
    from mesh handles to mesh contents, and the registry maps tile ids to
    handles. */
module Terrain {
  import opened Geometry
  import opened Grid
  import opened Wrappers
  import opened Displacement
  import opened Stitching
  import opened SideWalls
  import opened Registry

  /** The elevation options the strategy reads when it is initialised: the
      samples per grid side, the wall height and whether walls are built. */
  datatype Options = Options(sampleCount: nat, wallHeight: real, wallsActive: bool)

  /** The identity of a mesh object in the scene. */
  type Handle = nat

  /** The strategy's registry (tile id to mesh handle) and the scene's meshes. */
  datatype World<Id> = World(meshData: map<Id, Handle>, meshes: map<Handle, Mesh>)

  /** A mesh the strategy can work on: aligned buffers holding at least the
      n-by-n grid. */
  predicate TerrainMesh(n: nat, m: Mesh) {
    m.Aligned() && |m.vertices| >= n * n
  }

  /** Every mesh in the scene is a terrain mesh for sample count n. */
  predicate Valid<Id>(n: nat, w: World<Id>) {
    forall h :: h in w.meshes ==> TerrainMesh(n, w.meshes[h])
  }

  /** A handle no mesh and no registry entry uses yet: a newly created mesh. */
  predicate FreshHandle<Id>(w: World<Id>, h: Handle) {
    h !in w.meshes && forall id :: id in w.meshData ==> w.meshData[id] != h
  }

  /** Initialisation starts with an empty registry over the given scene. */
  function Initialize<Id>(meshes: map<Handle, Mesh>): (r: World<Id>)
    ensures |r.meshData| == 0
    ensures r.meshes == meshes
  {
    World(map[], meshes)
  }

  /** The surface each neighbour direction offers for stitching: the mesh the
      registry holds for the neighbouring tile id, when that mesh still exists. */
  function Neighbours<Id>(n: nat, w: World<Id>, id: Id, neighbourOf: (Id, Direction) -> Id): (r: Direction -> Option<Surface>)
    requires Valid(n, w)
    ensures NeighboursFit(n, r)
    ensures forall d :: r(d).Some? <==> neighbourOf(id, d) in w.meshData && w.meshData[neighbourOf(id, d)] in w.meshes
    ensures forall d :: r(d).Some? ==> r(d).value == w.meshes[w.meshData[neighbourOf(id, d)]].AsSurface()
  {
    var r: Direction -> Option<Surface> := d =>
      var k := neighbourOf(id, d);
      if k in w.meshData && w.meshData[k] in w.meshes then Some(w.meshes[w.meshData[k]].AsSurface()) else None;
    assert NeighboursFit(n, r) by {
      forall d | r(d).Some?
        ensures Fits(n, r(d).value)
      {
        var k := neighbourOf(id, d);
        assert TerrainMesh(n, w.meshes[w.meshData[k]]);
      }
    }
    r
  }

  /** Displacement, then normal accumulation over the grid triangles: the
      surface that stitching starts from. Ground positions and everything
      past the grid are kept. */
  function AccumulatedSurface(n: nat, s: Surface, height: (real, real) -> real): (r: Surface)
    requires n >= 2 && Fits(n, s)
    ensures |r.vertices| == |s.vertices| && |r.normals| == |s.normals|
    ensures forall j :: 0 <= j < |s.vertices| ==> SameGround(r.vertices[j], s.vertices[j])
    ensures forall j :: n * n <= j < |s.vertices| ==> r.vertices[j] == s.vertices[j]
    ensures forall j :: n * n <= j < |s.normals| ==> r.normals[j] == s.normals[j]
  {
    var d := Displace(n, s, height);
    var tris := SurfaceTriangles(n);
    assert forall j :: n * n <= j < |s.normals| ==> AccumulateNormals(d.vertices, d.normals, tris)[j] == d.normals[j] by {
      forall j | n * n <= j < |s.normals| {
        AccumulateLeavesUnreferenced(d.vertices, d.normals, tris, j);
      }
    }
    Surface(d.vertices, AccumulateNormals(d.vertices, d.normals, tris))
  }

  /** Displacement, normal accumulation over the grid triangles, then
      stitching: the part of generation that rewrites the grid. Ground
      positions and everything past the grid are kept. */
  function ShapeSurface(n: nat, s: Surface, height: (real, real) -> real, neighbours: Direction -> Option<Surface>): (r: Surface)
    requires n >= 2 && Fits(n, s) && NeighboursFit(n, neighbours)
    ensures |r.vertices| == |s.vertices| && |r.normals| == |s.normals|
    ensures forall j :: 0 <= j < |s.vertices| ==> SameGround(r.vertices[j], s.vertices[j])
    ensures forall j :: n * n <= j < |s.vertices| ==> r.vertices[j] == s.vertices[j]
    ensures forall j :: n * n <= j < |s.normals| ==> r.normals[j] == s.normals[j]
  {
    var acc := AccumulatedSurface(n, s, height);
    StitchTouchesOnlyBorderHeights(n, acc, neighbours);
    FixStitches(n, acc, neighbours)
  }

  /** The mesh GenerateTerrainMesh writes back: the shaped surface, with the
      side walls appended when they are active. Triangles of the surface are
      never touched; without walls the UVs and wall triangles stay too. */
  function GenerateMesh(o: Options, m: Mesh, height: (real, real) -> real, neighbours: Direction -> Option<Surface>): (r: Mesh)
    requires o.sampleCount >= 2 && TerrainMesh(o.sampleCount, m) && NeighboursFit(o.sampleCount, neighbours)
    ensures TerrainMesh(o.sampleCount, r)
    ensures |r.vertices| == |m.vertices| + (if o.wallsActive then WallVertexCount(o.sampleCount) else 0)
    ensures r.surfaceTriangles == m.surfaceTriangles
    ensures forall j :: 0 <= j < |m.vertices| ==> SameGround(r.vertices[j], m.vertices[j])
    ensures r.uv[..|m.uv|] == m.uv
    ensures !o.wallsActive ==> r.uv == m.uv && r.wallTriangles == m.wallTriangles
  {
    var n := o.sampleCount;
    var s := ShapeSurface(n, m.AsSurface(), height, neighbours);
    var shaped := m.(vertices := s.vertices, normals := s.normals);
    if o.wallsActive then
      var r := WithWalls(n, o.wallHeight, shaped);
      assert forall j :: 0 <= j < |m.vertices| ==> r.vertices[j] == r.vertices[..|m.vertices|][j];
      r
    else
      shaped
  }

  /** The steps of GenerateTerrainMesh in the source's order: displace the
      grid, accumulate the face normals, stitch, then append the side walls
      when they are active. */
  method GenerateMeshSteps(o: Options, m: Mesh, height: (real, real) -> real, neighbours: Direction -> Option<Surface>) returns (r: Mesh)
    requires o.sampleCount >= 2 && TerrainMesh(o.sampleCount, m) && NeighboursFit(o.sampleCount, neighbours)
    ensures r == GenerateMesh(o, m, height, neighbours)
  {
    var n := o.sampleCount;
    var d := DisplaceGrid(n, m.AsSurface(), height);
    var normals := AccumulateGridNormals(n, d.vertices, d.normals);
    var s := FixStitches(n, Surface(d.vertices, normals), neighbours);
    r := m.(vertices := s.vertices, normals := s.normals);
    if o.wallsActive {
      r := CreateSides(n, o.wallHeight, r);
    }
  }

  /** Generates a tile's terrain into its mesh h, stitching against the
      neighbours the registry holds, then records h for the tile unless the
      tile already has an entry. No other mesh changes. */
  function GenerateTerrainMesh<Id>(o: Options, w: World<Id>, id: Id, h: Handle,
                                   height: (real, real) -> real, neighbourOf: (Id, Direction) -> Id): (r: World<Id>)
    requires o.sampleCount >= 2 && Valid(o.sampleCount, w) && h in w.meshes
    ensures Valid(o.sampleCount, r)
    ensures r.meshes.Keys == w.meshes.Keys
    ensures forall g :: g in w.meshes && g != h ==> r.meshes[g] == w.meshes[g]
    ensures r.meshData.Keys == w.meshData.Keys + {id}
    ensures forall k :: k in w.meshData ==> r.meshData[k] == w.meshData[k]
    ensures id !in w.meshData ==> r.meshData[id] == h
  {
    Install(o.sampleCount, w, id, h, GeneratedMesh(o, w, id, h, height, neighbourOf))
  }

  /** Writes mesh m into handle h and records h for the tile unless the tile
      already has an entry. */
  function Install<Id>(n: nat, w: World<Id>, id: Id, h: Handle, m: Mesh): (r: World<Id>)
    requires Valid(n, w) && h in w.meshes && TerrainMesh(n, m)
    ensures Valid(n, r)
    ensures r.meshes.Keys == w.meshes.Keys && r.meshes[h] == m
    ensures forall g :: g in w.meshes && g != h ==> r.meshes[g] == w.meshes[g]
    ensures r.meshData.Keys == w.meshData.Keys + {id}
    ensures forall k :: k in w.meshData ==> r.meshData[k] == w.meshData[k]
    ensures id !in w.meshData ==> r.meshData[id] == h
  {
    World(Register(w.meshData, id, h), w.meshes[h := m])
  }

  /** The mesh generation writes into the tile's mesh h, stitched against the
      neighbours the registry holds. */
  function GeneratedMesh<Id>(o: Options, w: World<Id>, id: Id, h: Handle,
                             height: (real, real) -> real, neighbourOf: (Id, Direction) -> Id): (r: Mesh)
    requires o.sampleCount >= 2 && Valid(o.sampleCount, w) && h in w.meshes
    ensures TerrainMesh(o.sampleCount, r)
  {
    GenerateMesh(o, w.meshes[h], height, Neighbours(o.sampleCount, w, id, neighbourOf))
  }

  /** The mesh a tile ends up with: its existing mesh, or the new one. */
  function TileMesh(filter: Option<Handle>, created: Handle): Handle {
    if filter.Some? then filter.value else created
  }

  /** Registers a tile: a tile without a mesh first gets a new flat base mesh
      (in the created handle), then the terrain is generated either way. */
  function RegisterTile<Id>(o: Options, w: World<Id>, id: Id, filter: Option<Handle>, created: Handle,
                            rect: Rect, scale: real, height: (real, real) -> real,
                            neighbourOf: (Id, Direction) -> Id): (r: World<Id>)
    requires o.sampleCount >= 2 && Valid(o.sampleCount, w)
    requires filter.Some? ==> filter.value in w.meshes
    requires filter.None? ==> FreshHandle(w, created)
    ensures Valid(o.sampleCount, r)
    ensures r.meshes.Keys == w.meshes.Keys + {TileMesh(filter, created)}
    ensures forall g :: g in w.meshes && g != TileMesh(filter, created) ==> r.meshes[g] == w.meshes[g]
    ensures Lookup(r.meshData, id).Some?
    ensures forall k :: k in w.meshData ==> k in r.meshData && r.meshData[k] == w.meshData[k]
    ensures id !in w.meshData ==> r.meshData[id] == TileMesh(filter, created)
  {
    GenerateTerrainMesh(o, WithTileMesh(o, w, filter, created, rect, scale), id, TileMesh(filter, created), height, neighbourOf)
  }

  /** The world RegisterTile generates in: a tile without a mesh first gets
      the flat base mesh in the created handle. */
  function WithTileMesh<Id>(o: Options, w: World<Id>, filter: Option<Handle>, created: Handle,
                            rect: Rect, scale: real): (r: World<Id>)
    requires o.sampleCount >= 2 && Valid(o.sampleCount, w)
    requires filter.Some? ==> filter.value in w.meshes
    requires filter.None? ==> FreshHandle(w, created)
    ensures Valid(o.sampleCount, r) && r.meshData == w.meshData
    ensures r.meshes.Keys == w.meshes.Keys + {TileMesh(filter, created)}
    ensures forall g :: g in w.meshes ==> r.meshes[g] == w.meshes[g]
    ensures filter.None? ==> r.meshes[created] == BaseMesh(o.sampleCount, rect, scale)
  {
    if filter.None? then w.(meshes := w.meshes[created := BaseMesh(o.sampleCount, rect, scale)]) else w
  }

  /** Unregistering drops the tile's registry entry; the scene keeps every
      mesh. */
  function UnregisterTile<Id(!new)>(w: World<Id>, id: Id): (r: World<Id>)
    ensures r.meshes == w.meshes
    ensures Lookup(r.meshData, id).None?
    ensures forall k :: k != id ==> Lookup(r.meshData, k) == Lookup(w.meshData, k)
  {
    w.(meshData := Unregister(w.meshData, id))
  }

  /** Flattens a mesh: every vertex drops to height 0 over the same ground
      position and takes an up normal. */
  function Flattened(m: Mesh): (r: Mesh)
    requires |m.normals| >= |m.vertices|
    ensures |r.vertices| == |m.vertices| && |r.normals| == |m.normals|
    ensures r.uv == m.uv && r.surfaceTriangles == m.surfaceTriangles && r.wallTriangles == m.wallTriangles
    ensures forall j :: 0 <= j < |m.vertices| ==>
      SameGround(r.vertices[j], m.vertices[j]) && r.vertices[j].y == 0.0 && r.normals[j] == Up
    ensures forall j :: |m.vertices| <= j < |m.normals| ==> r.normals[j] == m.normals[j]
  {
    m.(vertices := seq(|m.vertices|, j requires 0 <= j < |m.vertices| => Vec3(m.vertices[j].x, 0.0, m.vertices[j].z)),
       normals := seq(|m.normals|, j requires 0 <= j < |m.normals| => if j < |m.vertices| then Up else m.normals[j]))
  }

  /** The reset loop, one vertex at a time over the mesh's vertex count. */
  method ResetToFlatMesh(m: Mesh) returns (r: Mesh)
    requires |m.normals| >= |m.vertices|
    ensures r == Flattened(m)
  {
    var vertices, normals := m.vertices, m.normals;
    var counter := |vertices|;
    var i := 0;
    while i < counter
      invariant 0 <= i <= counter
      invariant |vertices| == |m.vertices| && |normals| == |m.normals|
      invariant forall j :: 0 <= j < i ==> vertices[j] == Vec3(m.vertices[j].x, 0.0, m.vertices[j].z) && normals[j] == Up
      invariant forall j :: i <= j < |vertices| ==> vertices[j] == m.vertices[j]
      invariant forall j :: i <= j < |normals| ==> normals[j] == m.normals[j]
    {
      vertices := vertices[i := Vec3(vertices[i].x, 0.0, vertices[i].z)];
      normals := normals[i := Up];
      i := i + 1;
    }
    r := m.(vertices := vertices, normals := normals);
    assert r.vertices == Flattened(m).vertices;
    assert r.normals == Flattened(m).normals;
  }

  /** Flattening twice is flattening once. */
  lemma FlattenIdempotent(m: Mesh)
    requires |m.normals| >= |m.vertices|
    ensures |Flattened(m).normals| >= |Flattened(m).vertices|
    ensures Flattened(Flattened(m)) == Flattened(m)
  {
    var f := Flattened(m);
    assert Flattened(f).vertices == f.vertices;
    assert Flattened(f).normals == f.normals;
  }

  /** Without walls, resetting a tile generated from the flat base mesh gives
      back the base mesh: generation moves vertices only vertically and
      rewrites only normals. */
  lemma FlatResetUndoesGeneration(o: Options, rect: Rect, scale: real, height: (real, real) -> real,
                                  neighbours: Direction -> Option<Surface>)
    requires o.sampleCount >= 2 && !o.wallsActive && NeighboursFit(o.sampleCount, neighbours)
    ensures var b := BaseMesh(o.sampleCount, rect, scale);
      && TerrainMesh(o.sampleCount, b)
      && Flattened(GenerateMesh(o, b, height, neighbours)) == b
  {
    var n := o.sampleCount;
    var b := BaseMesh(n, rect, scale);
    var g := GenerateMesh(o, b, height, neighbours);
    var f := Flattened(g);
    forall j | 0 <= j < |b.vertices|
      ensures f.vertices[j] == b.vertices[j]
    {
      assert SameGround(g.vertices[j], b.vertices[j]);
    }
    assert f.vertices == b.vertices;
    assert f.normals == b.normals;
  }

  /** Without walls, generating a tile a second time against the same heights
      and neighbours leaves its mesh as the first generation left it. */
  lemma RegenerationIsStable(o: Options, m: Mesh, height: (real, real) -> real, neighbours: Direction -> Option<Surface>)
    requires o.sampleCount >= 2 && !o.wallsActive && TerrainMesh(o.sampleCount, m) && NeighboursFit(o.sampleCount, neighbours)
    ensures var once := GenerateMesh(o, m, height, neighbours);
      GenerateMesh(o, once, height, neighbours) == once
  {
    var n := o.sampleCount;
    var once := GenerateMesh(o, m, height, neighbours);
    var s := ShapeSurface(n, m.AsSurface(), height, neighbours);
    assert once.AsSurface() == s;
    DisplaceReadsOnlyGround(n, once.AsSurface(), m.AsSurface(), height);
    assert ShapeSurface(n, once.AsSurface(), height, neighbours) == s;
  }

  /** With walls, every regeneration appends another full set of wall
      vertices after the ones already in the mesh. */
  lemma WalledRegenerationGrows(o: Options, m: Mesh, height: (real, real) -> real, neighbours: Direction -> Option<Surface>)
    requires o.sampleCount >= 2 && o.wallsActive && TerrainMesh(o.sampleCount, m) && NeighboursFit(o.sampleCount, neighbours)
    ensures var once := GenerateMesh(o, m, height, neighbours);
      |GenerateMesh(o, once, height, neighbours).vertices| == |m.vertices| + 2 * WallVertexCount(o.sampleCount)
  {
  }

  /** Off the border, a generated vertex carries the height sampled at its
      cell's texture coordinate and the sum of the face normals of the grid
      triangles around it. */
  lemma InteriorFollowsHeights(o: Options, m: Mesh, height: (real, real) -> real, neighbours: Direction -> Option<Surface>, j: nat)
    requires o.sampleCount >= 2 && TerrainMesh(o.sampleCount, m) && NeighboursFit(o.sampleCount, neighbours)
    requires j < o.sampleCount * o.sampleCount && !OnBorder(o.sampleCount, j)
    ensures var n := o.sampleCount;
      var r := GenerateMesh(o, m, height, neighbours);
      var d := Displace(n, m.AsSurface(), height);
      var uv := CellUv(n, Col(n, j), Row(n, j));
      && ValidTriangles(SurfaceTriangles(n), |d.vertices|, |d.vertices|)
      && r.vertices[j].y == height(uv.u, uv.v)
      && r.normals[j] == IncidentSum(d.vertices, SurfaceTriangles(n), j)
  {
    var n := o.sampleCount;
    var d := Displace(n, m.AsSurface(), height);
    var tris := SurfaceTriangles(n);
    var acc := AccumulatedSurface(n, m.AsSurface(), height);
    assert acc == Surface(d.vertices, AccumulateNormals(d.vertices, d.normals, tris));
    StitchTouchesOnlyBorderHeights(n, acc, neighbours);
    AccumulatedNormalIsIncidentSum(d.vertices, d.normals, tris, j);
    var r := GenerateMesh(o, m, height, neighbours);
    if o.wallsActive {
      var shaped := m.(vertices := FixStitches(n, acc, neighbours).vertices, normals := FixStitches(n, acc, neighbours).normals);
      assert r.vertices[j] == r.vertices[..|m.vertices|][j];
      assert r.normals[j] == r.normals[..|m.vertices|][j];
    }
  }

  /** A registered edge neighbour decides the generated tile's facing edge,
      apart from the two corners: each vertex takes its partner's height and
      normal. */
  lemma EdgeMatchesNeighbour(o: Options, m: Mesh, height: (real, real) -> real, neighbours: Direction -> Option<Surface>,
                             d: Direction, j: nat)
    requires o.sampleCount >= 2 && TerrainMesh(o.sampleCount, m) && NeighboursFit(o.sampleCount, neighbours)
    requires IsEdge(d) && neighbours(d).Some? && Covers(o.sampleCount, d, j)
    requires j != Corner(o.sampleCount, NorthWest) && j != Corner(o.sampleCount, NorthEast)
    requires j != Corner(o.sampleCount, SouthWest) && j != Corner(o.sampleCount, SouthEast)
    ensures var r := GenerateMesh(o, m, height, neighbours);
      var nb := neighbours(d).value;
      && r.vertices[j].y == nb.vertices[Partner(o.sampleCount, d, j)].y
      && r.normals[j] == nb.normals[Partner(o.sampleCount, d, j)]
  {
    var n := o.sampleCount;
    var acc := AccumulatedSurface(n, m.AsSurface(), height);
    EdgeDecidesEdge(n, acc, neighbours, d, j);
    var r := GenerateMesh(o, m, height, neighbours);
    if o.wallsActive {
      assert r.vertices[j] == r.vertices[..|m.vertices|][j];
      assert r.normals[j] == r.normals[..|m.vertices|][j];
    }
  }

  /** A registered diagonal neighbour decides the corner it touches. */
  lemma CornerMatchesDiagonal(o: Options, m: Mesh, height: (real, real) -> real, neighbours: Direction -> Option<Surface>,
                              d: Direction)
    requires o.sampleCount >= 2 && TerrainMesh(o.sampleCount, m) && NeighboursFit(o.sampleCount, neighbours)
    requires !IsEdge(d) && neighbours(d).Some?
    ensures Corner(o.sampleCount, d) < o.sampleCount * o.sampleCount
    ensures Corner(o.sampleCount, Opposite(d)) < o.sampleCount * o.sampleCount
    ensures var r := GenerateMesh(o, m, height, neighbours);
      var nb := neighbours(d).value;
      && r.vertices[Corner(o.sampleCount, d)].y == nb.vertices[Corner(o.sampleCount, Opposite(d))].y
      && r.normals[Corner(o.sampleCount, d)] == nb.normals[Corner(o.sampleCount, Opposite(d))]
  {
    var n := o.sampleCount;
    var acc := AccumulatedSurface(n, m.AsSurface(), height);
    DiagonalDecidesCorner(n, acc, neighbours, d);
    var r := GenerateMesh(o, m, height, neighbours);
    var c := Corner(n, d);
    if o.wallsActive {
      assert r.vertices[c] == r.vertices[..|m.vertices|][c];
      assert r.normals[c] == r.normals[..|m.vertices|][c];
    }
  }

  /** On a framed grid, generation with walls gives flat-shaded vertical wall
      quads: each wall triangle's face normal is parallel to the normal its
      vertices carry. */
  lemma GeneratedWallsAreFlatShaded(o: Options, m: Mesh, height: (real, real) -> real,
                                    neighbours: Direction -> Option<Surface>, q: nat)
    requires o.sampleCount >= 2 && o.wallsActive && TerrainMesh(o.sampleCount, m) && NeighboursFit(o.sampleCount, neighbours)
    requires Framed(o.sampleCount, m.vertices) && q < 8 * (o.sampleCount - 1)
    ensures var r := GenerateMesh(o, m, height, neighbours);
      && 3 * q + 2 < |r.wallTriangles|
      && var a, b, c := r.wallTriangles[3 * q], r.wallTriangles[3 * q + 1], r.wallTriangles[3 * q + 2];
         && a < |r.vertices| && b < |r.vertices| && c < |r.vertices| && a < |r.normals|
         && Cross(FaceNormal(r.vertices, a, b, c), r.normals[a]) == Zero
  {
    var n := o.sampleCount;
    var s := ShapeSurface(n, m.AsSurface(), height, neighbours);
    var shaped := m.(vertices := s.vertices, normals := s.normals);
    FramedOverSameGround(n, shaped.vertices, m.vertices);
    WallFacesMatchNormals(n, o.wallHeight, shaped, q);
  }

  /** A new tile starts from the flat base mesh, whose border is framed, so
      its generated walls are flat-shaded vertical quads. */
  lemma NewTileWallsAreFlatShaded(o: Options, rect: Rect, scale: real, height: (real, real) -> real,
                                  neighbours: Direction -> Option<Surface>, q: nat)
    requires o.sampleCount >= 2 && o.wallsActive && NeighboursFit(o.sampleCount, neighbours)
    requires q < 8 * (o.sampleCount - 1)
    ensures var b := BaseMesh(o.sampleCount, rect, scale);
      && TerrainMesh(o.sampleCount, b)
      && var r := GenerateMesh(o, b, height, neighbours);
         && 3 * q + 2 < |r.wallTriangles|
         && var a, b, c := r.wallTriangles[3 * q], r.wallTriangles[3 * q + 1], r.wallTriangles[3 * q + 2];
            && a < |r.vertices| && b < |r.vertices| && c < |r.vertices| && a < |r.normals|
            && Cross(FaceNormal(r.vertices, a, b, c), r.normals[a]) == Zero
  {
    BaseMeshFramed(o.sampleCount, rect, scale);
    GeneratedWallsAreFlatShaded(o, BaseMesh(o.sampleCount, rect, scale), height, neighbours, q);
  }

  /** The winding of a generated tile's walls: on a framed border, the three
      corners of wall triangle q carry the outward axis of its wall as their
      normal, and the triangle's face normal is the wall height times the
      ground step between the two border vertices of its segment, as they
      lay before displacement, times that axis. */
  lemma GeneratedWallWinding(o: Options, m: Mesh, height: (real, real) -> real,
                             neighbours: Direction -> Option<Surface>, q: nat)
    requires o.sampleCount >= 2 && o.wallsActive && TerrainMesh(o.sampleCount, m) && NeighboursFit(o.sampleCount, neighbours)
    requires Framed(o.sampleCount, m.vertices) && q < 8 * (o.sampleCount - 1)
    ensures WallWound(o.sampleCount, o.wallHeight, GenerateMesh(o, m, height, neighbours), m.vertices, q)
  {
    var n := o.sampleCount;
    var s := ShapeSurface(n, m.AsSurface(), height, neighbours);
    var shaped := m.(vertices := s.vertices, normals := s.normals);
    WallWinding(n, o.wallHeight, shaped, m.vertices, q);
  }

  /** A new tile starts from the flat base mesh, which steps evenly along
      each wall: every face normal of its generated walls is the wall height
      times BaseStep times its wall's axis. On a rectangle whose X grows from
      its minimum to its maximum and whose Y falls (as a map tile's bounds
      do), BaseStep is positive, so with a positive wall height every wall
      face points the way of the normal its vertices carry. */
  lemma NewTileWallWinding(o: Options, rect: Rect, scale: real, height: (real, real) -> real,
                           neighbours: Direction -> Option<Surface>, q: nat)
    requires o.sampleCount >= 2 && o.wallsActive && NeighboursFit(o.sampleCount, neighbours)
    requires q < 8 * (o.sampleCount - 1)
    ensures var n, bm := o.sampleCount, BaseMesh(o.sampleCount, rect, scale);
      && TerrainMesh(n, bm)
      && var r, side := GenerateMesh(o, bm, height, neighbours), TriangleSide(n, q);
         && 3 * q + 2 < |r.wallTriangles|
         && FacesBy(r.vertices, r.wallTriangles[3 * q], r.wallTriangles[3 * q + 1], r.wallTriangles[3 * q + 2],
                    o.wallHeight, side, BaseStep(n, rect, scale, side))
         && (scale > 0.0 && rect.minX < rect.maxX && rect.maxY < rect.minY ==> BaseStep(n, rect, scale, side) > 0.0)
  {
    var n, bm := o.sampleCount, BaseMesh(o.sampleCount, rect, scale);
    BaseMeshFramed(n, rect, scale);
    GeneratedWallWinding(o, bm, height, neighbours, q);
    WoundOverBase(n, o.wallHeight, GenerateMesh(o, bm, height, neighbours), rect, scale, q);
    BaseStepPositive(n, rect, scale, TriangleSide(n, q));
  }

  /** Mesh r holds, over every index of mesh m, exactly m displaced with
      its normals accumulated: no neighbour has changed any of it. */
  predicate Unstitched(n: nat, r: Mesh, m: Mesh, height: (real, real) -> real)
    requires n >= 2 && TerrainMesh(n, m)
  {
    var acc := AccumulatedSurface(n, m.AsSurface(), height);
    && |m.vertices| <= |r.vertices| && |m.vertices| <= |r.normals|
    && forall j :: 0 <= j < |m.vertices| ==> r.vertices[j] == acc.vertices[j] && r.normals[j] == acc.normals[j]
  }

  /** Generation with no neighbour in any direction leaves the surface as
      displacement and normal accumulation made it. */
  lemma LoneTileIsUnstitched(o: Options, m: Mesh, height: (real, real) -> real, neighbours: Direction -> Option<Surface>)
    requires o.sampleCount >= 2 && TerrainMesh(o.sampleCount, m)
    requires forall d :: neighbours(d).None?
    ensures NeighboursFit(o.sampleCount, neighbours)
    ensures Unstitched(o.sampleCount, GenerateMesh(o, m, height, neighbours), m, height)
  {
    var n := o.sampleCount;
    var acc := AccumulatedSurface(n, m.AsSurface(), height);
    NoNeighboursNoChange(n, acc, neighbours);
    var r := GenerateMesh(o, m, height, neighbours);
    if o.wallsActive {
      forall j | 0 <= j < |m.vertices|
        ensures r.vertices[j] == acc.vertices[j] && r.normals[j] == acc.normals[j]
      {
        assert r.vertices[j] == r.vertices[..|m.vertices|][j];
        assert r.normals[j] == r.normals[..|m.vertices|][j];
      }
    }
  }

  /** The first tile registered after initialisation has no neighbour to
      stitch against: its mesh is the displaced surface with accumulated
      normals, and the registry then holds that tile alone. */
  lemma FirstTileIsUnstitched<Id>(o: Options, meshes: map<Handle, Mesh>, id: Id, filter: Option<Handle>, created: Handle,
                                  rect: Rect, scale: real, height: (real, real) -> real,
                                  neighbourOf: (Id, Direction) -> Id)
    requires o.sampleCount >= 2 && Valid(o.sampleCount, Initialize<Id>(meshes))
    requires filter.Some? ==> filter.value in meshes
    requires filter.None? ==> created !in meshes
    ensures filter.None? ==> FreshHandle(Initialize<Id>(meshes), created)
    ensures var w := Initialize<Id>(meshes);
      var h := TileMesh(filter, created);
      var r := RegisterTile(o, w, id, filter, created, rect, scale, height, neighbourOf);
      && r.meshData == map[id := h]
      && Unstitched(o.sampleCount, r.meshes[h], WithTileMesh(o, w, filter, created, rect, scale).meshes[h], height)
  {
    var n := o.sampleCount;
    var w := Initialize<Id>(meshes);
    var h := TileMesh(filter, created);
    var w1 := WithTileMesh(o, w, filter, created, rect, scale);
    var nbs := Neighbours(n, w1, id, neighbourOf);
    assert forall d :: nbs(d).None?;
    LoneTileIsUnstitched(o, w1.meshes[h], height, nbs);
    var r := RegisterTile(o, w, id, filter, created, rect, scale, height, neighbourOf);
    assert r == Install(n, w1, id, h, GeneratedMesh(o, w1, id, h, height, neighbourOf));
  }

  /** Vertex j of mesh m has the height and normal of its partner across
      edge d in the neighbour's mesh nb. */
  predicate StitchedTo(n: nat, m: Mesh, nb: Mesh, d: Direction, j: nat)
    requires n >= 2 && IsEdge(d) && Covers(n, d, j)
  {
    && j < |m.vertices| && j < |m.normals|
    && Partner(n, d, j) < |nb.vertices| && Partner(n, d, j) < |nb.normals|
    && m.vertices[j].y == nb.vertices[Partner(n, d, j)].y
    && m.normals[j] == nb.normals[Partner(n, d, j)]
  }

  /** Registering a tile next to a registered edge neighbour whose mesh
      exists stitches the tile's facing edge (corners aside) to that mesh. */
  lemma RegisteredNeighbourIsStitched<Id>(o: Options, w: World<Id>, id: Id, filter: Option<Handle>, created: Handle,
                                         rect: Rect, scale: real, height: (real, real) -> real,
                                         neighbourOf: (Id, Direction) -> Id, d: Direction, j: nat)
    requires o.sampleCount >= 2 && Valid(o.sampleCount, w)
    requires filter.Some? ==> filter.value in w.meshes
    requires filter.None? ==> FreshHandle(w, created)
    requires IsEdge(d) && neighbourOf(id, d) in w.meshData && w.meshData[neighbourOf(id, d)] in w.meshes
    requires Covers(o.sampleCount, d, j)
    requires j != Corner(o.sampleCount, NorthWest) && j != Corner(o.sampleCount, NorthEast)
    requires j != Corner(o.sampleCount, SouthWest) && j != Corner(o.sampleCount, SouthEast)
    ensures var r := RegisterTile(o, w, id, filter, created, rect, scale, height, neighbourOf);
      var h := TileMesh(filter, created);
      h in r.meshes && StitchedTo(o.sampleCount, r.meshes[h], w.meshes[w.meshData[neighbourOf(id, d)]], d, j)
  {
    var n := o.sampleCount;
    var h := TileMesh(filter, created);
    var w1 := WithTileMesh(o, w, filter, created, rect, scale);
    var nbs := Neighbours(n, w1, id, neighbourOf);
    var hn := w.meshData[neighbourOf(id, d)];
    assert w1.meshes[hn] == w.meshes[hn];
    EdgeMatchesNeighbour(o, w1.meshes[h], height, nbs, d, j);
  }

  /** Once a tile is unregistered, no tile that has it as a neighbour stitches
      against it any more. */
  lemma UnregisteredTileIsNotStitched<Id(!new)>(n: nat, w: World<Id>, id: Id, other: Id,
                                               neighbourOf: (Id, Direction) -> Id, d: Direction)
    requires Valid(n, w) && neighbourOf(other, d) == id
    ensures Valid(n, UnregisterTile(w, id))
    ensures Neighbours(n, UnregisterTile(w, id), other, neighbourOf)(d).None?
  {
  }
}
