/** The flat n×n vertex grid of a terrain tile and the base mesh built on it.

    Vertex `y*n + x` is grid cell (x, y); every other component relies on this
    row-major numbering. */
module Grid {
  import opened Geometry

  /** Flat index of grid cell (x, y). */
  function Idx(n: nat, x: nat, y: nat): nat {
    y * n + x
  }

  /** Column of flat index j. */
  function Col(n: nat, j: nat): nat
    requires n > 0
  {
    j % n
  }

  /** Row of flat index j. */
  function Row(n: nat, j: nat): nat
    requires n > 0
  {
    j / n
  }

  /** Multiplication by c is monotone. */
  lemma MulMono(a: nat, b: nat, c: nat)
    requires a <= b
    ensures a * c <= b * c
  {
  }

  /** One more row of b. */
  lemma MulSucc(a: nat, b: nat)
    ensures (a + 1) * b == a * b + b
  {
  }

  /** A strict inequality between multiples of n is one between the factors. */
  lemma MulCancelLt(a: nat, b: nat, n: nat)
    requires a * n < b * n
    ensures a < b
  {
  }

  /** Column and row recover the cell an index was built from. */
  lemma CellOfIdx(n: nat, x: nat, y: nat)
    requires x < n
    ensures Col(n, Idx(n, x, y)) == x && Row(n, Idx(n, x, y)) == y
  {
    var j := y * n + x;
    var q, r := j / n, j % n;
    assert j == q * n + r;
    assert (y + 1) * n == y * n + n;
    assert (q + 1) * n == q * n + n;
    MulCancelLt(q, y + 1, n);
    MulCancelLt(y, q + 1, n);
  }

  /** Every cell of the grid has an index below n². */
  lemma IdxInGrid(n: nat, x: nat, y: nat)
    requires x < n && y < n
    ensures Idx(n, x, y) < n * n
  {
    MulMono(y, n - 1, n);
    assert (n - 1) * n == n * n - n;
  }

  /** Every index below n² lies in one of the n rows. */
  lemma RowInGrid(n: nat, j: nat)
    requires 0 < n && j < n * n
    ensures Row(n, j) < n
  {
  }

  /** The last vertex of a cell, diagonally opposite its own vertex, is in the grid. */
  lemma CellInGrid(n: nat, x: nat, y: nat)
    requires n >= 2 && x < n - 1 && y < n - 1
    ensures Idx(n, x, y) + n + 1 == Idx(n, x + 1, y + 1) < n * n
  {
    assert (y + 1) * n == y * n + n;
    IdxInGrid(n, x + 1, y + 1);
  }

  /** A surface whose grid part (its first n² vertices and normals) exists. */
  predicate Fits(n: nat, s: Surface) {
    |s.vertices| >= n * n && |s.normals| >= n * n
  }

  /** Position of sample i on a side of n samples, as a fraction in [0, 1]. */
  function Ratio(i: nat, n: nat): real
    requires n >= 2
  {
    i as real / (n - 1) as real
  }

  /** The first sample of a side is at 0, the last at 1. */
  lemma RatioEnds(n: nat)
    requires n >= 2
    ensures Ratio(0, n) == 0.0 && Ratio(n - 1, n) == 1.0
  {
  }

  /** A sample that lies on the side has a fraction in [0, 1], so clamping
      leaves it alone, and each next sample lies strictly further along. */
  lemma RatioInUnit(n: nat, i: nat)
    requires n >= 2 && i < n
    ensures 0.0 <= Ratio(i, n) <= 1.0 && Clamp01(Ratio(i, n)) == Ratio(i, n)
    ensures i + 1 < n ==> Ratio(i, n) < Ratio(i + 1, n)
  {
    var d := (n - 1) as real;
    assert Ratio(i, n) * d == i as real;
    assert Ratio(i + 1, n) * d == i as real + 1.0;
  }

  /** Texture coordinate of cell (x, y): U runs with x, V is flipped against y.
      The height of the cell is sampled at the same coordinate. */
  function CellUv(n: nat, x: nat, y: nat): Vec2
    requires n >= 2
  {
    Vec2(Ratio(x, n), 1.0 - Ratio(y, n))
  }

  /** The tile's rectangle in projected map units. */
  datatype Rect = Rect(minX: real, minY: real, maxX: real, maxY: real, centerX: real, centerY: real)

  /** A fraction clamped to [0, 1]. */
  function Clamp01(t: real): real {
    if t < 0.0 then 0.0 else if t > 1.0 then 1.0 else t
  }

  /** Linear interpolation with the parameter clamped to [0, 1]. */
  function Lerp(a: real, b: real, t: real): real {
    a + (b - a) * Clamp01(t)
  }

  /** The flat position of cell (x, y): interpolated inside the rectangle,
      relative to its centre, scaled to local units, at height 0. */
  function GridVertex(n: nat, rect: Rect, scale: real, x: nat, y: nat): Vec3
    requires n >= 2
  {
    Vec3((Lerp(rect.minX, rect.maxX, Ratio(x, n)) - rect.centerX) * scale,
         0.0,
         (Lerp(rect.minY, rect.maxY, Ratio(y, n)) - rect.centerY) * scale)
  }

  /** The six indices of cell (x, y): triangles (A, A+n+1, A+n) and (A, A+1, A+n+1)
      where A is the cell's own vertex. */
  function CellTriangles(n: nat, x: nat, y: nat): seq<nat> {
    var a := Idx(n, x, y);
    [a, a + n + 1, a + n, a, a + 1, a + n + 1]
  }

  /** Twice the signed area of a triangle in (column, row) grid coordinates. */
  function Orientation(n: nat, a: nat, b: nat, c: nat): int
    requires n > 0
  {
    (Col(n, b) - Col(n, a)) * (Row(n, c) - Row(n, a))
    - (Row(n, b) - Row(n, a)) * (Col(n, c) - Col(n, a))
  }

  /** Both triangles of a cell join only the cell's four corners, cover all
      four of them, and have the same winding (half a cell of area each). */
  lemma CellTrianglesTileTheCell(n: nat, x: nat, y: nat)
    requires n >= 2 && x < n - 1 && y < n - 1
    ensures var t := CellTriangles(n, x, y);
      && (set k | 0 <= k < 6 :: t[k])
         == {Idx(n, x, y), Idx(n, x + 1, y), Idx(n, x, y + 1), Idx(n, x + 1, y + 1)}
      && Orientation(n, t[0], t[1], t[2]) == 1
      && Orientation(n, t[3], t[4], t[5]) == 1
  {
    CellTrianglesCover(n, x, y);
    CellTrianglesWinding(n, x, y);
  }

  /** The six indices of a cell are exactly its four corners. */
  lemma CellTrianglesCover(n: nat, x: nat, y: nat)
    ensures var t := CellTriangles(n, x, y);
      (set k | 0 <= k < 6 :: t[k]) == {Idx(n, x, y), Idx(n, x + 1, y), Idx(n, x, y + 1), Idx(n, x + 1, y + 1)}
  {
    var t := CellTriangles(n, x, y);
    assert Idx(n, x + 1, y + 1) == t[1];
    assert Idx(n, x, y + 1) == t[2];
    assert Idx(n, x + 1, y) == t[4];
    var s := set k | 0 <= k < 6 :: t[k];
    assert t[0] in s && t[1] in s && t[2] in s && t[4] in s;
  }

  /** Both triangles of a cell wind the same way, with half a cell of area. */
  lemma CellTrianglesWinding(n: nat, x: nat, y: nat)
    requires n >= 2 && x < n - 1 && y < n - 1
    ensures var t := CellTriangles(n, x, y);
      Orientation(n, t[0], t[1], t[2]) == 1 && Orientation(n, t[3], t[4], t[5]) == 1
  {
    var a := Idx(n, x, y);
    assert a + n + 1 == Idx(n, x + 1, y + 1) && a + n == Idx(n, x, y + 1) && a + 1 == Idx(n, x + 1, y) by {
      assert (y + 1) * n == y * n + n;
    }
    CellOfIdx(n, x, y);
    CellOfIdx(n, x + 1, y);
    CellOfIdx(n, x, y + 1);
    CellOfIdx(n, x + 1, y + 1);
    assert Orientation(n, a, a + n + 1, a + n) == 1;
    assert Orientation(n, a, a + 1, a + n + 1) == 1;
  }

  /** Number of indices in the surface triangle list: six per cell. */
  function SurfaceIndexCount(n: nat): nat
    requires n >= 2
  {
    6 * ((n - 1) * (n - 1))
  }

  /** The t-th index of the surface triangle list, whose cells are listed
      row by row. */
  function SurfaceIndex(n: nat, t: nat): (r: nat)
    requires n >= 2 && t < SurfaceIndexCount(n)
    ensures r < n * n
  {
    var c := t / 6;
    RowInGrid(n - 1, c);
    var x, y := Col(n - 1, c), Row(n - 1, c);
    CellInGrid(n, x, y);
    CellTriangles(n, x, y)[t % 6]
  }

  /** Submesh 0 of the base mesh. */
  function SurfaceTriangles(n: nat): (r: seq<nat>)
    requires n >= 2
    ensures |r| == SurfaceIndexCount(n) && |r| % 3 == 0
    ensures forall t :: 0 <= t < |r| ==> r[t] < n * n
  {
    var count := SurfaceIndexCount(n);
    assert count % 3 == 0 by { SixfoldIsTriple((n - 1) * (n - 1)); }
    seq(count, t requires 0 <= t < count => SurfaceIndex(n, t))
  }

  /** Six indices per cell make a whole number of triangles. */
  lemma SixfoldIsTriple(k: nat)
    ensures (6 * k) % 3 == 0
  {
    assert 6 * k == 3 * (2 * k);
  }

  /** The flat base mesh of a tile: n² vertices at height 0 with up normals,
      and the surface triangles. */
  function BaseMesh(n: nat, rect: Rect, scale: real): (m: Mesh)
    requires n >= 2
    ensures |m.vertices| == n * n && |m.normals| == n * n && |m.uv| == n * n
    ensures forall j :: 0 <= j < n * n ==> m.vertices[j].y == 0.0 && m.normals[j] == Up
    ensures m.wallTriangles == []
  {
    Mesh(seq(n * n, j requires 0 <= j < n * n => GridVertex(n, rect, scale, Col(n, j), Row(n, j))),
         seq(n * n, j => Up),
         seq(n * n, j requires 0 <= j < n * n => CellUv(n, Col(n, j), Row(n, j))),
         SurfaceTriangles(n),
         [])
  }

  /** The last index of the grid is cell (n-1, n-1). */
  lemma LastCell(n: nat)
    requires n >= 2
    ensures Col(n, n * n - 1) == n - 1 && Row(n, n * n - 1) == n - 1
  {
    assert Idx(n, n - 1, n - 1) == n * n - 1;
    CellOfIdx(n, n - 1, n - 1);
  }

  /** The base mesh spans the rectangle: cell (0, 0) sits at its minimum
      corner with UV (0, 1), cell (n-1, n-1) at its maximum corner with UV (1, 0). */
  lemma BaseMeshCorners(n: nat, rect: Rect, scale: real)
    requires n >= 2
    ensures var m := BaseMesh(n, rect, scale);
      && m.uv[0] == Vec2(0.0, 1.0)
      && m.uv[n * n - 1] == Vec2(1.0, 0.0)
      && m.vertices[0] == Vec3((rect.minX - rect.centerX) * scale, 0.0, (rect.minY - rect.centerY) * scale)
      && m.vertices[n * n - 1] == Vec3((rect.maxX - rect.centerX) * scale, 0.0, (rect.maxY - rect.centerY) * scale)
  {
    var m := BaseMesh(n, rect, scale);
    LastCell(n);
    assert Col(n, 0) == 0 && Row(n, 0) == 0;
    RatioEnds(n);
    assert m.uv[0] == CellUv(n, 0, 0);
    assert m.uv[n * n - 1] == CellUv(n, n - 1, n - 1);
    assert m.vertices[0] == GridVertex(n, rect, scale, 0, 0);
    assert m.vertices[n * n - 1] == GridVertex(n, rect, scale, n - 1, n - 1);
  }

  /** The flat position of cell (x, y) spelt out: at fraction
      (x / (n-1), y / (n-1)) of the rectangle from its minimum corner. */
  lemma GridVertexAt(n: nat, rect: Rect, scale: real, x: nat, y: nat)
    requires n >= 2 && x < n && y < n
    ensures var fx := (x as real) / ((n - 1) as real);
      var fy := (y as real) / ((n - 1) as real);
      GridVertex(n, rect, scale, x, y)
        == Vec3((rect.minX + (rect.maxX - rect.minX) * fx - rect.centerX) * scale,
                0.0,
                (rect.minY + (rect.maxY - rect.minY) * fy - rect.centerY) * scale)
  {
    RatioInUnit(n, x);
    RatioInUnit(n, y);
  }

  /** Cell (x, y) of the base mesh holds the grid vertex, normal and UV of
      that cell. */
  lemma BaseMeshCell(n: nat, rect: Rect, scale: real, x: nat, y: nat)
    requires n >= 2 && x < n && y < n
    ensures Idx(n, x, y) < n * n
    ensures var m, j := BaseMesh(n, rect, scale), Idx(n, x, y);
      && m.vertices[j] == GridVertex(n, rect, scale, x, y)
      && m.normals[j] == Up
      && m.uv[j] == CellUv(n, x, y)
  {
    IdxInGrid(n, x, y);
    CellOfIdx(n, x, y);
  }

  /** Every cell of the base mesh: cell (x, y) sits at fraction
      (x / (n-1), y / (n-1)) of the rectangle from its minimum corner,
      relative to the centre and scaled, at height 0, with an up normal and
      UV (x / (n-1), 1 - y / (n-1)). */
  lemma BaseMeshAt(n: nat, rect: Rect, scale: real, x: nat, y: nat)
    requires n >= 2 && x < n && y < n
    ensures Idx(n, x, y) < n * n
    ensures var m := BaseMesh(n, rect, scale);
      var j := Idx(n, x, y);
      var fx := (x as real) / ((n - 1) as real);
      var fy := (y as real) / ((n - 1) as real);
      && m.vertices[j] == Vec3((rect.minX + (rect.maxX - rect.minX) * fx - rect.centerX) * scale,
                               0.0,
                               (rect.minY + (rect.maxY - rect.minY) * fy - rect.centerY) * scale)
      && m.normals[j] == Up
      && m.uv[j] == Vec2(fx, 1.0 - fy)
  {
    BaseMeshCell(n, rect, scale, x, y);
    GridVertexAt(n, rect, scale, x, y);
  }

  /** The source's first pair of nested loops: vertices, normals and UVs,
      row by row. */
  method CreateGridVertices(n: nat, rect: Rect, scale: real) returns (vertices: seq<Vec3>, normals: seq<Vec3>, uv: seq<Vec2>)
    requires n >= 2
    ensures var m := BaseMesh(n, rect, scale);
      vertices == m.vertices && normals == m.normals && uv == m.uv
  {
    vertices, normals, uv := [], [], [];
    var y := 0;
    while y < n
      invariant 0 <= y <= n
      invariant |vertices| == y * n && |normals| == y * n && |uv| == y * n
      invariant forall j :: 0 <= j < |vertices| ==> vertices[j] == GridVertex(n, rect, scale, Col(n, j), Row(n, j))
      invariant forall j :: 0 <= j < |normals| ==> normals[j] == Up
      invariant forall j :: 0 <= j < |uv| ==> uv[j] == CellUv(n, Col(n, j), Row(n, j))
    {
      var x := 0;
      while x < n
        invariant 0 <= x <= n
        invariant |vertices| == y * n + x && |normals| == y * n + x && |uv| == y * n + x
        invariant forall j :: 0 <= j < |vertices| ==> vertices[j] == GridVertex(n, rect, scale, Col(n, j), Row(n, j))
        invariant forall j :: 0 <= j < |normals| ==> normals[j] == Up
        invariant forall j :: 0 <= j < |uv| ==> uv[j] == CellUv(n, Col(n, j), Row(n, j))
      {
        CellOfIdx(n, x, y);
        vertices := vertices + [GridVertex(n, rect, scale, x, y)];
        normals := normals + [Up];
        uv := uv + [Vec2(x as real * 1.0 / (n - 1) as real, 1.0 - y as real * 1.0 / (n - 1) as real)];
        x := x + 1;
      }
      assert y * n + n == (y + 1) * n;
      y := y + 1;
    }
  }

  /** Surface index 6c + k is the k-th index of cell c = (x, y). */
  lemma SurfaceIndexOfCell(n: nat, x: nat, y: nat, c: nat, k: nat)
    requires n >= 2 && x < n - 1 && y < n - 1 && c == y * (n - 1) + x && k < 6
    ensures 6 * c + k < SurfaceIndexCount(n)
    ensures SurfaceIndex(n, 6 * c + k) == CellTriangles(n, x, y)[k]
  {
    IdxInGrid(n - 1, x, y);
    CellOfIdx(n - 1, x, y);
    assert c + 1 <= (n - 1) * (n - 1);
    assert (6 * c + k) / 6 == c && (6 * c + k) % 6 == k;
  }

  /** The first 6(c+1) surface indices are the first 6c followed by cell c's six. */
  lemma SurfacePrefixStep(n: nat, x: nat, y: nat)
    requires n >= 2 && x < n - 1 && y < n - 1
    ensures 6 * (y * (n - 1) + x) + 6 <= SurfaceIndexCount(n)
    ensures var c := y * (n - 1) + x;
      SurfaceTriangles(n)[..6 * c + 6] == SurfaceTriangles(n)[..6 * c] + CellTriangles(n, x, y)
  {
    var c := y * (n - 1) + x;
    var st := SurfaceTriangles(n);
    var cell := CellTriangles(n, x, y);
    SurfaceIndexOfCell(n, x, y, c, 5);
    forall k | 0 <= k < 6
      ensures st[6 * c + k] == cell[k]
    {
      SurfaceIndexOfCell(n, x, y, c, k);
    }
    assert st[..6 * c + 6] == st[..6 * c] + cell by {
      forall i | 0 <= i < 6 * c + 6
        ensures st[..6 * c + 6][i] == (st[..6 * c] + cell)[i]
      {
        if i >= 6 * c {
          assert st[i] == st[6 * c + (i - 6 * c)];
        }
      }
    }
  }

  /** The source's second pair of nested loops: two triangles per cell, cells
      row by row. */
  method CreateSurfaceTriangles(n: nat) returns (triangles: seq<nat>)
    requires n >= 2
    ensures triangles == SurfaceTriangles(n)
  {
    triangles := [];
    ghost var st := SurfaceTriangles(n);
    ghost var cells := 0;
    var y := 0;
    while y < n - 1
      invariant 0 <= y <= n - 1
      invariant cells == y * (n - 1) && 6 * cells <= |st|
      invariant triangles == st[..6 * cells]
    {
      var x := 0;
      while x < n - 1
        invariant 0 <= x <= n - 1
        invariant cells == y * (n - 1) + x && 6 * cells <= |st|
        invariant triangles == st[..6 * cells]
      {
        SurfacePrefixStep(n, x, y);
        ghost var before := triangles;
        var vertA := y * n + x;
        var vertB := y * n + x + n + 1;
        var vertC := y * n + x + n;
        triangles := triangles + [vertA, vertB, vertC];
        ghost var first := [vertA, vertB, vertC];
        vertA := y * n + x;
        vertB := y * n + x + 1;
        vertC := y * n + x + n + 1;
        triangles := triangles + [vertA, vertB, vertC];
        assert first + [vertA, vertB, vertC] == CellTriangles(n, x, y);
        assert triangles == before + CellTriangles(n, x, y);
        cells := cells + 1;
        x := x + 1;
      }
      assert y * (n - 1) + (n - 1) == (y + 1) * (n - 1);
      y := y + 1;
    }
    assert st[..6 * cells] == st;
  }

  /** The base mesh of a tile that has no mesh yet. */
  method CreateBaseMesh(n: nat, rect: Rect, scale: real) returns (m: Mesh)
    requires n >= 2
    ensures m == BaseMesh(n, rect, scale)
  {
    var vertices, normals, uv := CreateGridVertices(n, rect, scale);
    var triangles := CreateSurfaceTriangles(n);
    m := Mesh(vertices, normals, uv, triangles, []);
  }
}
