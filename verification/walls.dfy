/** Side walls: a vertical skirt hung under the four borders of a tile.

    The walls are appended after the mesh's existing vertices, starting at
    L = |vertices|, in three blocks:
    - north, 2n vertices from L: a top/bottom pair under each vertex of row 0;
    - west/east, 4n vertices from L + 2n: for each row r, a west pair under
      (0, r) then an east pair under (n-1, r);
    - south, 2n vertices from L + 6n: a pair under each vertex of row n-1.
    A top vertex copies its border vertex, the bottom one hangs the wall height
    below it. Every wall vertex carries its wall's outward axis as its normal,
    and its UV runs from 0 to 1 along the wall, with V = 1 at the top and
    V = 0 at the bottom. The wall triangles form a separate triangle list
    (the second submesh). */
module SideWalls {
  import opened Geometry
  import opened Grid
  import opened Displacement

  /** The offset from a top vertex to its bottom vertex. */
  function Drop(h: real): Vec3 {
    Vec3(0.0, -1.0 * h, 0.0)
  }

  /** Number of wall vertices appended. */
  function WallVertexCount(n: nat): nat {
    8 * n
  }

  /** Number of wall triangle indices appended: two triangles per segment of
      each of the four walls. */
  function WallIndexCount(n: nat): nat
    requires n >= 2
  {
    24 * (n - 1)
  }

  /** The position along its wall of wall vertex k: the column for the north
      and south walls, the row for the west and east walls. */
  function WallStep(n: nat, k: nat): (r: nat)
    requires k < WallVertexCount(n)
    ensures r < n
  {
    if k < 2 * n then k / 2
    else if k < 6 * n then (k - 2 * n) / 4
    else (k - 6 * n) / 2
  }

  /** The four walls. */
  datatype Side = NorthWall | WestWall | EastWall | SouthWall

  /** The wall that wall vertex k belongs to. */
  function WallSide(n: nat, k: nat): Side
    requires k < WallVertexCount(n)
  {
    if k < 2 * n then NorthWall
    else if k < 6 * n then (if (k - 2 * n) % 4 < 2 then WestWall else EastWall)
    else SouthWall
  }

  /** The grid vertex at step i along a wall: row 0, column 0, column n-1 or
      row n-1. */
  function SideCell(n: nat, side: Side, i: nat): (r: nat)
    requires n >= 2 && i < n
    ensures r < n * n
  {
    IdxInGrid(n, i, 0);
    IdxInGrid(n, 0, i);
    IdxInGrid(n, n - 1, i);
    IdxInGrid(n, i, n - 1);
    match side
    case NorthWall => Idx(n, i, 0)
    case WestWall => Idx(n, 0, i)
    case EastWall => Idx(n, n - 1, i)
    case SouthWall => Idx(n, i, n - 1)
  }

  /** The outward axis of a wall, given to all of its vertices as their normal. */
  function SideNormal(side: Side): Vec3 {
    match side
    case NorthWall => Forward
    case WestWall => Left
    case EastWall => Right
    case SouthWall => Back
  }

  /** The grid vertex that wall vertex k hangs under. */
  function WallSource(n: nat, k: nat): (r: nat)
    requires n >= 2 && k < WallVertexCount(n)
    ensures r < n * n
  {
    SideCell(n, WallSide(n, k), WallStep(n, k))
  }

  /** Wall vertex k: the top copy of its grid vertex (even k) or the copy
      dropped by the wall height (odd k). */
  function WallVertex(n: nat, h: real, v: seq<Vec3>, k: nat): Vec3
    requires n >= 2 && k < WallVertexCount(n) && |v| >= n * n
  {
    if k % 2 == 0 then v[WallSource(n, k)] else Add(v[WallSource(n, k)], Drop(h))
  }

  /** The normal of wall vertex k. */
  function WallNormal(n: nat, k: nat): Vec3
    requires k < WallVertexCount(n)
  {
    SideNormal(WallSide(n, k))
  }

  /** The UV of wall vertex k: U runs along the wall, V is 1 on top and 0 at
      the bottom. */
  function WallUv(n: nat, k: nat): Vec2
    requires n >= 2 && k < WallVertexCount(n)
  {
    Vec2(Ratio(WallStep(n, k), n), if k % 2 == 0 then 1.0 else 0.0)
  }

  /** Wall triangle index t, as an offset from the first wall vertex. */
  function WallOffset(n: nat, t: nat): (r: nat)
    requires n >= 2 && t < WallIndexCount(n)
    ensures r < WallVertexCount(n)
  {
    if t < 6 * (n - 1) then
      2 * (t / 6) + [0, 1, 2, 2, 1, 3][t % 6]
    else if t < 18 * (n - 1) then
      var m := t - 6 * (n - 1);
      2 * n + 4 * (m / 12) + [0, 4, 1, 4, 5, 1, 2, 3, 6, 6, 3, 7][m % 12]
    else
      var m := t - 18 * (n - 1);
      6 * n + 2 * (m / 6) + [0, 2, 1, 2, 3, 1][m % 6]
  }

  /** The wall vertices in the order they are appended. */
  function WallVertices(n: nat, h: real, v: seq<Vec3>): (r: seq<Vec3>)
    requires n >= 2 && |v| >= n * n
    ensures |r| == WallVertexCount(n)
    ensures forall k :: 0 <= k < |r| ==> r[k] == WallVertex(n, h, v, k)
  {
    seq(WallVertexCount(n), k requires 0 <= k < WallVertexCount(n) => WallVertex(n, h, v, k))
  }

  /** The wall normals in the order they are appended. */
  function WallNormals(n: nat): (r: seq<Vec3>)
    ensures |r| == WallVertexCount(n)
    ensures forall k :: 0 <= k < |r| ==> r[k] == WallNormal(n, k)
  {
    seq(WallVertexCount(n), k requires 0 <= k < WallVertexCount(n) => WallNormal(n, k))
  }

  /** The wall UVs in the order they are appended. */
  function WallUvs(n: nat): (r: seq<Vec2>)
    requires n >= 2
    ensures |r| == WallVertexCount(n)
    ensures forall k :: 0 <= k < |r| ==> r[k] == WallUv(n, k)
  {
    seq(WallVertexCount(n), k requires 0 <= k < WallVertexCount(n) => WallUv(n, k))
  }

  /** The wall triangle indices when the first wall vertex is at `base`. */
  function WallTriangleList(n: nat, base: nat): (r: seq<nat>)
    requires n >= 2
    ensures |r| == WallIndexCount(n)
    ensures forall t :: 0 <= t < |r| ==> r[t] == base + WallOffset(n, t)
  {
    seq(WallIndexCount(n), t requires 0 <= t < WallIndexCount(n) => base + WallOffset(n, t))
  }

  /** The mesh with side walls appended after its existing vertices. */
  function WithWalls(n: nat, h: real, m: Mesh): (r: Mesh)
    requires n >= 2 && m.Aligned() && |m.vertices| >= n * n
    ensures r.Aligned() && |r.vertices| == |m.vertices| + WallVertexCount(n)
    ensures r.vertices[..|m.vertices|] == m.vertices
    ensures r.normals[..|m.vertices|] == m.normals && r.uv[..|m.vertices|] == m.uv
    ensures r.surfaceTriangles == m.surfaceTriangles
    ensures |r.wallTriangles| == WallIndexCount(n) && |r.wallTriangles| % 3 == 0
  {
    m.(vertices := m.vertices + WallVertices(n, h, m.vertices),
       normals := m.normals + WallNormals(n),
       uv := m.uv + WallUvs(n),
       wallTriangles := WallTriangleList(n, |m.vertices|))
  }

  /** Every wall triangle index addresses one of the appended wall vertices,
      so the walls never reference the terrain surface's own vertices. */
  lemma WallTrianglesAddressWalls(n: nat, h: real, m: Mesh)
    requires n >= 2 && m.Aligned() && |m.vertices| >= n * n
    ensures var r := WithWalls(n, h, m);
      && (forall t :: 0 <= t < |r.wallTriangles| ==>
            |m.vertices| <= r.wallTriangles[t] < |m.vertices| + WallVertexCount(n))
      && ValidTriangles(r.wallTriangles, |r.vertices|, |r.normals|)
  {
  }

  /** Wall vertex k of the walled mesh, read through the reference functions. */
  lemma WallAt(n: nat, h: real, m: Mesh, k: nat)
    requires n >= 2 && m.Aligned() && |m.vertices| >= n * n && k < WallVertexCount(n)
    ensures var r := WithWalls(n, h, m);
      var L := |m.vertices|;
      && r.vertices[L + k] == WallVertex(n, h, m.vertices, k)
      && r.normals[L + k] == WallNormal(n, k)
      && r.uv[L + k] == WallUv(n, k)
  {
  }

  /** The two vertices of pair p hang under the same grid vertex, at the same
      step of the same wall. */
  lemma PairShares(n: nat, h: real, v: seq<Vec3>, p: nat)
    requires n >= 2 && p < 4 * n && |v| >= n * n
    ensures WallVertex(n, h, v, 2 * p + 1) == Add(WallVertex(n, h, v, 2 * p), Drop(h))
    ensures WallNormal(n, 2 * p + 1) == WallNormal(n, 2 * p)
    ensures WallUv(n, 2 * p) == Vec2(WallUv(n, 2 * p + 1).u, 1.0) && WallUv(n, 2 * p + 1).v == 0.0
  {
    PairStep(n, p);
    var k := 2 * p;
    assert WallSource(n, k + 1) == WallSource(n, k);
    assert WallUv(n, k) == Vec2(Ratio(WallStep(n, k), n), 1.0);
    assert WallUv(n, k + 1) == Vec2(Ratio(WallStep(n, k), n), 0.0);
  }

  /** a = 2q + r with r < 2 fixes the quotient and the remainder by 2. */
  lemma Halve(a: nat, q: nat, r: nat)
    requires r < 2 && a == 2 * q + r
    ensures a / 2 == q && a % 2 == r
  {
  }

  /** a = 4q + r with r < 4 fixes the quotient and the remainder by 4. */
  lemma Quarter(a: nat, q: nat, r: nat)
    requires r < 4 && a == 4 * q + r
    ensures a / 4 == q && a % 4 == r
  {
  }

  /** Both vertices of pair p sit at the same step of the same wall; the top
      one has the even index. */
  lemma PairStep(n: nat, p: nat)
    requires n >= 2 && p < 4 * n
    ensures WallSide(n, 2 * p + 1) == WallSide(n, 2 * p)
    ensures WallStep(n, 2 * p + 1) == WallStep(n, 2 * p)
    ensures (2 * p) % 2 == 0 && (2 * p + 1) % 2 == 1
  {
    if p < n {
      Halve(2 * p, p, 0);
      Halve(2 * p + 1, p, 1);
    } else if p < 3 * n {
      var e := 2 * p - 2 * n;
      var i, s := (p - n) / 2, (p - n) % 2;
      Halve(p - n, i, s);
      Quarter(e, i, 2 * s);
      Quarter(e + 1, i, 2 * s + 1);
      Halve(2 * p, p, 0);
      Halve(2 * p + 1, p, 1);
    } else {
      var e := 2 * p - 6 * n;
      Halve(e, p - 3 * n, 0);
      Halve(e + 1, p - 3 * n, 1);
      Halve(2 * p, p, 0);
      Halve(2 * p + 1, p, 1);
    }
  }


  /** Wall triangle index t of the walled mesh, read through the reference
      function. */
  lemma WallIndexAt(n: nat, h: real, m: Mesh, t: nat)
    requires n >= 2 && m.Aligned() && |m.vertices| >= n * n && t < WallIndexCount(n)
    ensures WithWalls(n, h, m).wallTriangles[t] == |m.vertices| + WallOffset(n, t)
  {
  }

  /** Wall vertices come in top/bottom pairs: the bottom one hangs exactly the
      wall height below the top one, with the same normal and the same U, and
      V = 1 on top, V = 0 at the bottom. */
  lemma WallPairsHangDown(n: nat, h: real, m: Mesh, p: nat)
    requires n >= 2 && m.Aligned() && |m.vertices| >= n * n && p < 4 * n
    ensures var r := WithWalls(n, h, m);
      var top, bottom := |m.vertices| + 2 * p, |m.vertices| + 2 * p + 1;
      && r.vertices[bottom] == Add(r.vertices[top], Drop(h))
      && r.normals[bottom] == r.normals[top]
      && r.uv[top] == Vec2(r.uv[bottom].u, 1.0) && r.uv[bottom].v == 0.0
  {
    WallAt(n, h, m, 2 * p);
    WallAt(n, h, m, 2 * p + 1);
    PairShares(n, h, m.vertices, p);
  }

  /** The i-th top vertex of each wall copies the grid vertex it hangs under. */
  lemma TopsOnPerimeter(n: nat, h: real, v: seq<Vec3>, i: nat)
    requires n >= 2 && i < n && |v| >= n * n
    ensures Idx(n, i, n - 1) < n * n && Idx(n, n - 1, i) < n * n
    ensures WallVertex(n, h, v, 2 * i) == v[Idx(n, i, 0)]
    ensures WallVertex(n, h, v, 2 * n + 4 * i) == v[Idx(n, 0, i)]
    ensures WallVertex(n, h, v, 2 * n + 4 * i + 2) == v[Idx(n, n - 1, i)]
    ensures WallVertex(n, h, v, 6 * n + 2 * i) == v[Idx(n, i, n - 1)]
  {
    IdxInGrid(n, i, n - 1);
    IdxInGrid(n, n - 1, i);
    assert Idx(n, i, 0) == i && Idx(n, 0, i) == i * n && Idx(n, n - 1, i) == i * n + (n - 1);
    assert Idx(n, i, n - 1) == n * n - n + i by {
      assert (n - 1) * n == n * n - n;
    }
    NorthPair(n, h, v, i);
    WestEastQuad(n, h, v, i);
    SouthPair(n, h, v, i);
  }

  /** The top wall vertices trace the tile's perimeter in order: the north
      wall under row 0, the west wall under column 0, the east wall under
      column n-1 and the south wall under row n-1. */
  lemma WallTopsTracePerimeter(n: nat, h: real, m: Mesh, i: nat)
    requires n >= 2 && m.Aligned() && |m.vertices| >= n * n && i < n
    ensures Idx(n, i, n - 1) < n * n && Idx(n, n - 1, i) < n * n
    ensures var r := WithWalls(n, h, m);
      var L := |m.vertices|;
      && r.vertices[L + 2 * i] == m.vertices[Idx(n, i, 0)]
      && r.vertices[L + 2 * n + 4 * i] == m.vertices[Idx(n, 0, i)]
      && r.vertices[L + 2 * n + 4 * i + 2] == m.vertices[Idx(n, n - 1, i)]
      && r.vertices[L + 6 * n + 2 * i] == m.vertices[Idx(n, i, n - 1)]
  {
    TopsOnPerimeter(n, h, m.vertices, i);
    WallAt(n, h, m, 2 * i);
    WallAt(n, h, m, 2 * n + 4 * i);
    WallAt(n, h, m, 2 * n + 4 * i + 2);
    WallAt(n, h, m, 6 * n + 2 * i);
  }

  /** The wall texture is stretched along each wall: the U of the i-th top
      vertex of every wall is i/(n-1), from 0 at the first to 1 at the last. */
  lemma WallTextureStretches(n: nat, h: real, m: Mesh, i: nat)
    requires n >= 2 && m.Aligned() && |m.vertices| >= n * n && i < n
    ensures WithWalls(n, h, m).uv[|m.vertices| + 2 * i].u == Ratio(i, n)
    ensures WithWalls(n, h, m).uv[|m.vertices| + (2 * n + 4 * i)].u == Ratio(i, n)
    ensures WithWalls(n, h, m).uv[|m.vertices| + (2 * n + 4 * i + 2)].u == Ratio(i, n)
    ensures WithWalls(n, h, m).uv[|m.vertices| + (6 * n + 2 * i)].u == Ratio(i, n)
  {
    NorthUv(n, h, m, i);
    WestEastUv(n, h, m, i);
    SouthUv(n, h, m, i);
  }

  /** The north wall's top vertex at step i. */
  lemma NorthUv(n: nat, h: real, m: Mesh, i: nat)
    requires n >= 2 && m.Aligned() && |m.vertices| >= n * n && i < n
    ensures WithWalls(n, h, m).uv[|m.vertices| + 2 * i].u == Ratio(i, n)
  {
    NorthPair(n, h, m.vertices, i);
    WallAt(n, h, m, 2 * i);
  }

  /** The west and east walls' top vertices at row i. */
  lemma WestEastUv(n: nat, h: real, m: Mesh, i: nat)
    requires n >= 2 && m.Aligned() && |m.vertices| >= n * n && i < n
    ensures WithWalls(n, h, m).uv[|m.vertices| + (2 * n + 4 * i)].u == Ratio(i, n)
    ensures WithWalls(n, h, m).uv[|m.vertices| + (2 * n + 4 * i + 2)].u == Ratio(i, n)
  {
    WestEastQuad(n, h, m.vertices, i);
    WallAt(n, h, m, 2 * n + 4 * i);
    WallAt(n, h, m, 2 * n + 4 * i + 2);
  }

  /** The south wall's top vertex at step i. */
  lemma SouthUv(n: nat, h: real, m: Mesh, i: nat)
    requires n >= 2 && m.Aligned() && |m.vertices| >= n * n && i < n
    ensures WithWalls(n, h, m).uv[|m.vertices| + (6 * n + 2 * i)].u == Ratio(i, n)
  {
    SouthPair(n, h, m.vertices, i);
    WallAt(n, h, m, 6 * n + 2 * i);
  }

  /** The three corners of a triangle, as vertex offsets. */
  datatype Tri = Tri(a: nat, b: nat, c: nat)

  /** Corner j of a triangle. */
  function Pick(t: Tri, j: nat): nat {
    if j == 0 then t.a else if j == 1 then t.b else t.c
  }

  /** A triangle moved along by `base` vertices. */
  function Shift(base: nat, t: Tri): (r: Tri)
    ensures forall j :: Pick(r, j) == base + Pick(t, j)
  {
    Tri(base + t.a, base + t.b, base + t.c)
  }

  /** An offset that is corner j of a shape moved by base is corner j of the
      moved triangle. */
  lemma OffsetIsCorner(w: nat, c: Tri, base: nat, t: Tri, j: nat)
    requires w == base + Pick(t, j) && c == Shift(base, t)
    ensures w == Pick(c, j)
  {
    ShiftPick(base, t, j);
  }

  /** Corner j of a moved triangle. */
  lemma ShiftPick(base: nat, t: Tri, j: nat)
    ensures Pick(Shift(base, t), j) == base + Pick(t, j)
  {
  }

  /** The north wall's triangles s = 0, 1 of a segment: the quad
      (0, 1, 2, 3) cut into (0, 1, 2) and (2, 1, 3). */
  function NorthOffsets(s: nat): Tri {
    if s == 0 then Tri(0, 1, 2) else Tri(2, 1, 3)
  }

  /** The west/east block's triangles s = 0 .. 3 of a row segment: the west
      quad (0, 1, 4, 5) cut into (0, 4, 1) and (4, 5, 1), then the east quad
      (2, 3, 6, 7) cut into (2, 3, 6) and (6, 3, 7). */
  function WestEastOffsets(s: nat): Tri {
    if s == 0 then Tri(0, 4, 1)
    else if s == 1 then Tri(4, 5, 1)
    else if s == 2 then Tri(2, 3, 6)
    else Tri(6, 3, 7)
  }

  /** The south wall's triangles s = 0, 1 of a segment: the quad
      (0, 1, 2, 3) cut into (0, 2, 1) and (2, 3, 1). */
  function SouthOffsets(s: nat): Tri {
    if s == 0 then Tri(0, 2, 1) else Tri(2, 3, 1)
  }

  /** The three corners of wall triangle q, as offsets from the first wall
      vertex: triangle s of the segment q fills, moved to the first vertex of
      that segment. */
  function Corners(n: nat, q: nat): (r: Tri)
    requires n >= 2 && q < 8 * (n - 1)
    ensures r.a < WallVertexCount(n) && r.b < WallVertexCount(n) && r.c < WallVertexCount(n)
  {
    if q < 2 * (n - 1) then
      Shift(2 * (q / 2), NorthOffsets(q % 2))
    else if q < 6 * (n - 1) then
      var p := q - 2 * (n - 1);
      Shift(2 * n + 4 * (p / 4), WestEastOffsets(p % 4))
    else
      var p := q - 6 * (n - 1);
      Shift(6 * n + 2 * (p / 2), SouthOffsets(p % 2))
  }

  /** The flat list of wall triangle indices, in the order they are appended,
      lists the corners of wall triangle q at positions 3q, 3q+1 and 3q+2. */
  lemma CornerAt(n: nat, q: nat, j: nat)
    requires n >= 2 && q < 8 * (n - 1) && j < 3
    ensures 3 * q + j < WallIndexCount(n)
    ensures WallOffset(n, 3 * q + j) == Pick(Corners(n, q), j)
  {
    if q < 2 * (n - 1) {
      NorthCorner(n, q, j);
    } else if q < 6 * (n - 1) {
      var p := q - 2 * (n - 1);
      WestEastCorner(n, q, j, p / 4, p % 4);
    } else {
      var p := q - 6 * (n - 1);
      SouthCorner(n, q, j, p / 2, p % 2);
    }
  }

  /** CornerAt on the north wall. */
  lemma NorthCorner(n: nat, q: nat, j: nat)
    requires n >= 2 && q < 2 * (n - 1) && j < 3
    ensures 3 * q + j < WallIndexCount(n)
    ensures WallOffset(n, 3 * q + j) == Pick(Corners(n, q), j)
  {
    var i, s := q / 2, q % 2;
    NorthOffset(n, i, s, j, 3 * q + j);
    NorthCorners(n, q, i, s);
  }

  /** Wall triangle q is triangle s of north segment i. */
  lemma NorthCorners(n: nat, q: nat, i: nat, s: nat)
    requires n >= 2 && i < n - 1 && s < 2 && q == 2 * i + s
    ensures Corners(n, q) == Shift(2 * i, NorthOffsets(s))
    ensures Segment(n, q) == i && TriangleSide(n, q) == NorthWall
  {
    assert q / 2 == i && q % 2 == s;
  }

  /** CornerAt on the west/east block. */
  lemma WestEastCorner(n: nat, q: nat, j: nat, i: nat, s: nat)
    requires n >= 2 && i < n - 1 && s < 4 && q == 2 * (n - 1) + 4 * i + s && j < 3
    ensures 3 * q + j < WallIndexCount(n)
    ensures WallOffset(n, 3 * q + j) == Pick(Corners(n, q), j)
  {
    var t := 3 * q + j;
    WestEastOffset(n, i, s, j, t);
    WestEastCorners(n, q, i, s);
    OffsetIsCorner(WallOffset(n, t), Corners(n, q), 2 * n + 4 * i, WestEastOffsets(s), j);
  }

  /** Wall triangle q is triangle s of the west/east block's row segment i. */
  lemma WestEastCorners(n: nat, q: nat, i: nat, s: nat)
    requires n >= 2 && i < n - 1 && s < 4 && q == 2 * (n - 1) + 4 * i + s
    ensures Corners(n, q) == Shift(2 * n + 4 * i, WestEastOffsets(s))
  {
    var p := q - 2 * (n - 1);
    assert p / 4 == i && p % 4 == s;
  }

  /** CornerAt on the south wall. */
  lemma SouthCorner(n: nat, q: nat, j: nat, i: nat, s: nat)
    requires n >= 2 && i < n - 1 && s < 2 && q == 6 * (n - 1) + 2 * i + s && j < 3
    ensures 3 * q + j < WallIndexCount(n)
    ensures WallOffset(n, 3 * q + j) == Pick(Corners(n, q), j)
  {
    var t := 3 * q + j;
    SouthOffset(n, i, s, j, t);
    SouthCorners(n, q, i, s);
    OffsetIsCorner(WallOffset(n, t), Corners(n, q), 6 * n + 2 * i, SouthOffsets(s), j);
  }

  /** Wall triangle q is triangle s of south segment i. */
  lemma SouthCorners(n: nat, q: nat, i: nat, s: nat)
    requires n >= 2 && i < n - 1 && s < 2 && q == 6 * (n - 1) + 2 * i + s
    ensures Corners(n, q) == Shift(6 * n + 2 * i, SouthOffsets(s))
    ensures Segment(n, q) == i && TriangleSide(n, q) == SouthWall
  {
    var p := q - 6 * (n - 1);
    assert p / 2 == i && p % 2 == s;
  }

  /** Wall triangle index t is corner j of triangle s of north segment i. */
  lemma NorthOffset(n: nat, i: nat, s: nat, j: nat, t: nat)
    requires n >= 2 && i < n - 1 && s < 2 && j < 3 && t == 6 * i + 3 * s + j
    ensures t < WallIndexCount(n)
    ensures WallOffset(n, t) == 2 * i + Pick(NorthOffsets(s), j)
  {
    var g := [0, 1, 2, 2, 1, 3];
    assert WallOffset(n, t) == 2 * i + g[3 * s + j] by {
      assert t / 6 == i && t % 6 == 3 * s + j;
    }
    assert g[3 * s + j] == Pick(NorthOffsets(s), j) by {
      if s == 0 {
      } else {
      }
    }
  }

  /** Wall triangle index t is corner j of triangle s of the west/east
      block's row segment i. */
  lemma WestEastOffset(n: nat, i: nat, s: nat, j: nat, t: nat)
    requires n >= 2 && i < n - 1 && s < 4 && j < 3 && t == 6 * (n - 1) + 12 * i + 3 * s + j
    ensures t < WallIndexCount(n)
    ensures WallOffset(n, t) == 2 * n + 4 * i + Pick(WestEastOffsets(s), j)
  {
    WestEastOffsetAt(n, i, 3 * s + j, t);
    var g := [0, 4, 1, 4, 5, 1, 2, 3, 6, 6, 3, 7];
    assert g[3 * s + j] == Pick(WestEastOffsets(s), j) by {
      if s == 0 {
      } else if s == 1 {
      } else if s == 2 {
      } else {
      }
    }
  }

  /** Wall triangle index t is corner j of triangle s of south segment i. */
  lemma SouthOffset(n: nat, i: nat, s: nat, j: nat, t: nat)
    requires n >= 2 && i < n - 1 && s < 2 && j < 3 && t == 18 * (n - 1) + 6 * i + 3 * s + j
    ensures t < WallIndexCount(n)
    ensures WallOffset(n, t) == 6 * n + 2 * i + Pick(SouthOffsets(s), j)
  {
    var g := [0, 2, 1, 2, 3, 1];
    assert WallOffset(n, t) == 6 * n + 2 * i + g[3 * s + j] by {
      var m := t - 18 * (n - 1);
      assert m / 6 == i && m % 6 == 3 * s + j;
    }
    assert g[3 * s + j] == Pick(SouthOffsets(s), j) by {
      if s == 0 {
      } else {
      }
    }
  }

  /** Wall triangle index t, the e-th of the west/east block's row segment i. */
  lemma WestEastOffsetAt(n: nat, i: nat, e: nat, t: nat)
    requires n >= 2 && i < n - 1 && e < 12 && t == 6 * (n - 1) + 12 * i + e
    ensures t < WallIndexCount(n)
    ensures WallOffset(n, t) == 2 * n + 4 * i + [0, 4, 1, 4, 5, 1, 2, 3, 6, 6, 3, 7][e]
  {
    var m := 12 * i + e;
    assert m / 12 == i && m % 12 == e;
  }

  /** The wall segment (the gap between border vertices i and i+1) that wall
      triangle q fills. */
  function Segment(n: nat, q: nat): nat
    requires n >= 2 && q < 8 * (n - 1)
  {
    if q < 2 * (n - 1) then q / 2
    else if q < 6 * (n - 1) then (q - 2 * (n - 1)) / 4
    else (q - 6 * (n - 1)) / 2
  }

  /** Whether wall vertex k is at the given step of the given wall. */
  predicate OnSegment(n: nat, k: nat, side: Side, i: nat)
    requires k < WallVertexCount(n)
  {
    WallSide(n, k) == side && i <= WallStep(n, k) <= i + 1
  }

  /** Three wall vertices form a proper triangle of one wall: they are
      distinct, all on the same wall between border vertices i and i+1 of
      that wall, at least one at the top and at least one at the bottom. */
  predicate ShapedCorners(n: nat, i: nat, a: nat, b: nat, c: nat)
    requires a < WallVertexCount(n) && b < WallVertexCount(n) && c < WallVertexCount(n)
  {
    && a != b && b != c && a != c
    && i < n - 1
    && (var side := WallSide(n, a);
        && OnSegment(n, a, side, i)
        && OnSegment(n, b, side, i)
        && OnSegment(n, c, side, i))
    && (a % 2 == 0 || b % 2 == 0 || c % 2 == 0)
    && (a % 2 == 1 || b % 2 == 1 || c % 2 == 1)
  }

  /** Wall triangle q is a proper triangle of the wall segment it fills. */
  predicate WellShaped(n: nat, q: nat)
    requires n >= 2 && q < 8 * (n - 1)
  {
    ShapedCorners(n, Segment(n, q), Corners(n, q).a, Corners(n, q).b, Corners(n, q).c)
  }

  /** The four vertices of row group i of the west/east block. */
  lemma WestEastGroup(n: nat, i: nat)
    requires i < n
    ensures var k := 2 * n + 4 * i;
      && WallSide(n, k) == WestWall && WallSide(n, k + 1) == WestWall
      && WallSide(n, k + 2) == EastWall && WallSide(n, k + 3) == EastWall
      && WallStep(n, k) == i && WallStep(n, k + 1) == i && WallStep(n, k + 2) == i && WallStep(n, k + 3) == i
  {
    var k := 2 * n + 4 * i;
    assert k - 2 * n == 4 * i;
    assert (4 * i) / 4 == i && (4 * i) % 4 == 0;
    assert (4 * i + 1) / 4 == i && (4 * i + 1) % 4 == 1;
    assert (4 * i + 2) / 4 == i && (4 * i + 2) % 4 == 2;
    assert (4 * i + 3) / 4 == i && (4 * i + 3) % 4 == 3;
  }

  /** Every north-wall triangle is well shaped. */
  lemma NorthWallShaped(n: nat, q: nat)
    requires n >= 2 && q < 2 * (n - 1)
    ensures WellShaped(n, q)
  {
    var i := q / 2;
    if q % 2 == 0 {
      NorthShaped0(n, q, i);
    } else {
      NorthShaped1(n, q, i);
    }
  }

  /** Every west/east-wall triangle is well shaped. */
  lemma WestEastWallShaped(n: nat, q: nat)
    requires n >= 2 && 2 * (n - 1) <= q < 6 * (n - 1)
    ensures WellShaped(n, q)
  {
    var p := q - 2 * (n - 1);
    var i, s := p / 4, p % 4;
    if s == 0 {
      WestEastShaped0(n, q, i);
    } else if s == 1 {
      WestEastShaped1(n, q, i);
    } else if s == 2 {
      WestEastShaped2(n, q, i);
    } else {
      WestEastShaped3(n, q, i);
    }
  }

  /** Every south-wall triangle is well shaped. */
  lemma SouthWallShaped(n: nat, q: nat)
    requires n >= 2 && 6 * (n - 1) <= q < 8 * (n - 1)
    ensures WellShaped(n, q)
  {
    var p := q - 6 * (n - 1);
    var i := p / 2;
    if p % 2 == 0 {
      SouthShaped0(n, q, i);
    } else {
      SouthShaped1(n, q, i);
    }
  }

  // One lemma per triangle of a wall segment: the triangle's corners, and
  // the quad lemma showing they form a proper triangle.

  /** North triangle 0 of segment i. */
  lemma NorthShaped0(n: nat, q: nat, i: nat)
    requires n >= 2 && i < n - 1 && q == 2 * i
    ensures WellShaped(n, q)
  {
    var b := 2 * i;
    NorthCorners(n, q, i, 0);
    NorthQuadShaped(n, i, b);
    ShapedFromCorners(n, q, i, Tri(b, b + 1, b + 2));
  }

  /** North triangle 1 of segment i. */
  lemma NorthShaped1(n: nat, q: nat, i: nat)
    requires n >= 2 && i < n - 1 && q == 2 * i + 1
    ensures WellShaped(n, q)
  {
    var b := 2 * i;
    NorthCorners(n, q, i, 1);
    NorthQuadShaped(n, i, b);
    ShapedFromCorners(n, q, i, Tri(b + 2, b + 1, b + 3));
  }

  /** West/east triangle 0 of segment i. */
  lemma WestEastShaped0(n: nat, q: nat, i: nat)
    requires n >= 2 && i < n - 1 && q == 2 * (n - 1) + 4 * i
    ensures WellShaped(n, q)
  {
    var b := 2 * n + 4 * i;
    WestEastCorners(n, q, i, 0);
    WestEastQuadsShaped(n, i, b);
    ShapedFromCorners(n, q, i, Tri(b, b + 4, b + 1));
  }

  /** West/east triangle 1 of segment i. */
  lemma WestEastShaped1(n: nat, q: nat, i: nat)
    requires n >= 2 && i < n - 1 && q == 2 * (n - 1) + 4 * i + 1
    ensures WellShaped(n, q)
  {
    var b := 2 * n + 4 * i;
    WestEastCorners(n, q, i, 1);
    WestEastQuadsShaped(n, i, b);
    ShapedFromCorners(n, q, i, Tri(b + 4, b + 5, b + 1));
  }

  /** West/east triangle 2 of segment i. */
  lemma WestEastShaped2(n: nat, q: nat, i: nat)
    requires n >= 2 && i < n - 1 && q == 2 * (n - 1) + 4 * i + 2
    ensures WellShaped(n, q)
  {
    var b := 2 * n + 4 * i;
    WestEastCorners(n, q, i, 2);
    WestEastQuadsShaped(n, i, b);
    ShapedFromCorners(n, q, i, Tri(b + 2, b + 3, b + 6));
  }

  /** West/east triangle 3 of segment i. */
  lemma WestEastShaped3(n: nat, q: nat, i: nat)
    requires n >= 2 && i < n - 1 && q == 2 * (n - 1) + 4 * i + 3
    ensures WellShaped(n, q)
  {
    var b := 2 * n + 4 * i;
    WestEastCorners(n, q, i, 3);
    WestEastQuadsShaped(n, i, b);
    ShapedFromCorners(n, q, i, Tri(b + 6, b + 3, b + 7));
  }

  /** South triangle 0 of segment i. */
  lemma SouthShaped0(n: nat, q: nat, i: nat)
    requires n >= 2 && i < n - 1 && q == 6 * (n - 1) + 2 * i
    ensures WellShaped(n, q)
  {
    var b := 6 * n + 2 * i;
    SouthCorners(n, q, i, 0);
    SouthQuadShaped(n, i, b);
    ShapedFromCorners(n, q, i, Tri(b, b + 2, b + 1));
  }

  /** South triangle 1 of segment i. */
  lemma SouthShaped1(n: nat, q: nat, i: nat)
    requires n >= 2 && i < n - 1 && q == 6 * (n - 1) + 2 * i + 1
    ensures WellShaped(n, q)
  {
    var b := 6 * n + 2 * i;
    SouthCorners(n, q, i, 1);
    SouthQuadShaped(n, i, b);
    ShapedFromCorners(n, q, i, Tri(b + 2, b + 3, b + 1));
  }

  /** Wall triangle q is well shaped once its corners are known to form a
      proper triangle of its segment. */
  lemma ShapedFromCorners(n: nat, q: nat, i: nat, t: Tri)
    requires n >= 2 && q < 8 * (n - 1) && Segment(n, q) == i && Corners(n, q) == t
    requires t.a < WallVertexCount(n) && t.b < WallVertexCount(n) && t.c < WallVertexCount(n)
    requires ShapedCorners(n, i, t.a, t.b, t.c)
    ensures WellShaped(n, q)
  {
  }

  /** The two north triangles of segment i span columns i and i + 1 of the north wall. */
  lemma NorthQuadShaped(n: nat, i: nat, b: nat)
    requires n >= 2 && i < n - 1 && b == 2 * i
    ensures b + 3 < WallVertexCount(n)
    ensures ShapedCorners(n, i, b, b + 1, b + 2) && ShapedCorners(n, i, b + 2, b + 1, b + 3)
  {
    assert WallStep(n, b) == i && WallStep(n, b + 1) == i;
    assert WallStep(n, b + 2) == i + 1 && WallStep(n, b + 3) == i + 1;
  }

  /** The four west/east triangles of segment i span rows i and i + 1, each on
      one wall. */
  lemma WestEastQuadsShaped(n: nat, i: nat, k: nat)
    requires n >= 2 && i < n - 1 && k == 2 * n + 4 * i
    ensures k + 7 < WallVertexCount(n)
    ensures ShapedCorners(n, i, k, k + 4, k + 1) && ShapedCorners(n, i, k + 4, k + 5, k + 1)
    ensures ShapedCorners(n, i, k + 2, k + 3, k + 6) && ShapedCorners(n, i, k + 6, k + 3, k + 7)
  {
    WestEastGroup(n, i);
    WestEastGroup(n, i + 1);
    assert 2 * n + 4 * (i + 1) == k + 4 && k % 2 == 0;
  }

  /** The two south triangles of segment i span columns i and i + 1 of the south wall. */
  lemma SouthQuadShaped(n: nat, i: nat, b: nat)
    requires n >= 2 && i < n - 1 && b == 6 * n + 2 * i
    ensures b + 3 < WallVertexCount(n)
    ensures ShapedCorners(n, i, b, b + 2, b + 1) && ShapedCorners(n, i, b + 2, b + 3, b + 1)
  {
    assert WallStep(n, b) == i && WallStep(n, b + 1) == i;
    assert WallStep(n, b + 2) == i + 1 && WallStep(n, b + 3) == i + 1;
  }

  /** Every wall triangle is a proper triangle of one wall. */
  lemma WallTriangleShape(n: nat, q: nat)
    requires n >= 2 && q < 8 * (n - 1)
    ensures WellShaped(n, q)
  {
    if q < 2 * (n - 1) {
      NorthWallShaped(n, q);
    } else if q < 6 * (n - 1) {
      WestEastWallShaped(n, q);
    } else {
      SouthWallShaped(n, q);
    }
  }

  /** The coordinate that is constant across a wall's plane: Z for the north
      and south walls, X for the west and east walls. */
  function Across(side: Side, p: Vec3): real {
    if side == NorthWall || side == SouthWall then p.z else p.x
  }

  /** The tile's border lies in four vertical planes: the vertices along each
      border row share their Z and those along each border column share
      their X, as in a grid laid out on a rectangle. */
  predicate Framed(n: nat, v: seq<Vec3>)
    requires n >= 2 && |v| >= n * n
  {
    forall side: Side, i :: 0 <= i < n ==> Across(side, v[SideCell(n, side, i)]) == Across(side, v[SideCell(n, side, 0)])
  }

  /** On a framed border, every wall vertex lies in its wall's plane. */
  lemma WallVertexInPlane(n: nat, h: real, v: seq<Vec3>, k: nat)
    requires n >= 2 && |v| >= n * n && k < WallVertexCount(n) && Framed(n, v)
    ensures var side := WallSide(n, k);
      Across(side, WallVertex(n, h, v, k)) == Across(side, v[SideCell(n, side, 0)])
  {
  }

  /** The three corners of wall triangle q are distinct and on one wall. */
  lemma OnOneWall(n: nat, q: nat)
    requires n >= 2 && q < 8 * (n - 1)
    ensures var a, b, c := Corners(n, q).a, Corners(n, q).b, Corners(n, q).c;
      && WallSide(n, b) == WallSide(n, a) && WallSide(n, c) == WallSide(n, a)
      && a != b && b != c && a != c
  {
    WallTriangleShape(n, q);
  }

  /** A triangle of three points sharing the across coordinate of a wall has
      a face normal parallel to that wall's axis. */
  lemma InPlaneFaceIsParallel(side: Side, pa: Vec3, pb: Vec3, pc: Vec3)
    requires Across(side, pa) == Across(side, pb) == Across(side, pc)
    ensures Cross(Cross(Sub(pb, pa), Sub(pc, pa)), SideNormal(side)) == Zero
  {
    if side == NorthWall || side == SouthWall {
      CrossOfEdgesAcrossZ(Sub(pb, pa), Sub(pc, pa));
    } else {
      CrossOfEdgesAcrossX(Sub(pb, pa), Sub(pc, pa));
    }
  }

  /** On a framed border, the face normal of wall triangle q is parallel to
      the normal of its first corner. */
  lemma FaceParallel(n: nat, h: real, v: seq<Vec3>, q: nat)
    requires n >= 2 && |v| >= n * n && q < 8 * (n - 1) && Framed(n, v)
    ensures var a, b, c := Corners(n, q).a, Corners(n, q).b, Corners(n, q).c;
      var pa, pb, pc := WallVertex(n, h, v, a), WallVertex(n, h, v, b), WallVertex(n, h, v, c);
      Cross(Cross(Sub(pb, pa), Sub(pc, pa)), WallNormal(n, a)) == Zero
  {
    var a, b, c := Corners(n, q).a, Corners(n, q).b, Corners(n, q).c;
    OnOneWall(n, q);
    WallVertexInPlane(n, h, v, a);
    WallVertexInPlane(n, h, v, b);
    WallVertexInPlane(n, h, v, c);
    InPlaneFaceIsParallel(WallSide(n, a), WallVertex(n, h, v, a), WallVertex(n, h, v, b), WallVertex(n, h, v, c));
  }

  /** The corners of wall triangle q of the walled mesh, read through the
      reference functions. */
  lemma TriangleAt(n: nat, h: real, m: Mesh, q: nat)
    requires n >= 2 && m.Aligned() && |m.vertices| >= n * n && q < 8 * (n - 1)
    ensures var r, L := WithWalls(n, h, m), |m.vertices|;
      && 3 * q + 2 < |r.wallTriangles|
      && r.wallTriangles[3 * q] == L + Corners(n, q).a
      && r.wallTriangles[3 * q + 1] == L + Corners(n, q).b
      && r.wallTriangles[3 * q + 2] == L + Corners(n, q).c
  {
    WallIndexAt(n, h, m, 3 * q);
    WallIndexAt(n, h, m, 3 * q + 1);
    WallIndexAt(n, h, m, 3 * q + 2);
    CornerAt(n, q, 0);
    CornerAt(n, q, 1);
    CornerAt(n, q, 2);
  }

  /** The three vertices of each wall triangle are distinct and carry one
      normal (the outward axis of their wall). */
  lemma WallTrianglesShareNormal(n: nat, h: real, m: Mesh, q: nat)
    requires n >= 2 && m.Aligned() && |m.vertices| >= n * n && q < 8 * (n - 1)
    ensures var r := WithWalls(n, h, m);
      && 3 * q + 2 < |r.wallTriangles|
      && var a, b, c := r.wallTriangles[3 * q], r.wallTriangles[3 * q + 1], r.wallTriangles[3 * q + 2];
         && a < |r.vertices| && b < |r.vertices| && c < |r.vertices|
         && a != b && b != c && a != c
         && r.normals[a] == r.normals[b] == r.normals[c]
  {
    var r, L := WithWalls(n, h, m), |m.vertices|;
    TriangleAt(n, h, m, q);
    var a, b, c := Corners(n, q).a, Corners(n, q).b, Corners(n, q).c;
    assert WallSide(n, b) == WallSide(n, a) && WallSide(n, c) == WallSide(n, a)
      && a != b && b != c && a != c by {
      OnOneWall(n, q);
    }
    assert r.normals[L + a] == r.normals[L + b] == r.normals[L + c] by {
      SameWallSameNormal(n, h, m, a, b, c);
    }
    assert r.wallTriangles[3 * q] == L + a && r.wallTriangles[3 * q + 1] == L + b && r.wallTriangles[3 * q + 2] == L + c;
  }

  /** Three wall vertices of one wall carry the same normal in the walled mesh. */
  lemma SameWallSameNormal(n: nat, h: real, m: Mesh, a: nat, b: nat, c: nat)
    requires n >= 2 && m.Aligned() && |m.vertices| >= n * n
    requires a < WallVertexCount(n) && b < WallVertexCount(n) && c < WallVertexCount(n)
    requires WallSide(n, b) == WallSide(n, a) && WallSide(n, c) == WallSide(n, a)
    ensures var r, L := WithWalls(n, h, m), |m.vertices|;
      r.normals[L + a] == r.normals[L + b] == r.normals[L + c]
  {
    WallAt(n, h, m, a);
    WallAt(n, h, m, b);
    WallAt(n, h, m, c);
  }

  /** The walls are flat-shaded vertical quads: when the border is framed,
      the face normal of each wall triangle is parallel to the normal its
      vertices carry. */
  lemma WallFacesMatchNormals(n: nat, h: real, m: Mesh, q: nat)
    requires n >= 2 && m.Aligned() && |m.vertices| >= n * n && q < 8 * (n - 1)
    requires Framed(n, m.vertices)
    ensures var r := WithWalls(n, h, m);
      && 3 * q + 2 < |r.wallTriangles|
      && var a, b, c := r.wallTriangles[3 * q], r.wallTriangles[3 * q + 1], r.wallTriangles[3 * q + 2];
         && a < |r.vertices| && b < |r.vertices| && c < |r.vertices| && a < |r.normals|
         && Cross(FaceNormal(r.vertices, a, b, c), r.normals[a]) == Zero
  {
    var r, L := WithWalls(n, h, m), |m.vertices|;
    TriangleAt(n, h, m, q);
    var a, b, c := Corners(n, q).a, Corners(n, q).b, Corners(n, q).c;
    assert Cross(FaceNormal(r.vertices, L + a, L + b, L + c), r.normals[L + a]) == Zero by {
      FaceParallel(n, h, m.vertices, q);
      WallAt(n, h, m, a);
      WallAt(n, h, m, b);
      WallAt(n, h, m, c);
    }
    assert r.wallTriangles[3 * q] == L + a && r.wallTriangles[3 * q + 1] == L + b && r.wallTriangles[3 * q + 2] == L + c;
  }

  /** The wall that wall triangle q belongs to, in the order the walls are
      built: the north wall, then for each row a west pair and an east pair,
      then the south wall. */
  function TriangleSide(n: nat, q: nat): Side
    requires n >= 2 && q < 8 * (n - 1)
  {
    if q < 2 * (n - 1) then NorthWall
    else if q < 6 * (n - 1) then (if (q - 2 * (n - 1)) % 4 < 2 then WestWall else EastWall)
    else SouthWall
  }

  /** The signed step along a wall from border vertex `from` to the next
      border vertex `to`: the growth in X for the north and south walls, the
      fall in Z for the west and east walls. */
  function Advance(side: Side, from: Vec3, to: Vec3): real {
    if side == NorthWall || side == SouthWall then to.x - from.x else from.z - to.z
  }

  /** A wall quad whose top edge runs from a to c and hangs by h, cut into
      (top, bottom, next top) and (next top, bottom, next bottom): both
      triangles have the face normal (-h dz, 0, h dx) of the edge (dx, dz). */
  lemma DownFirstFaces(h: real, a: Vec3, c: Vec3)
    ensures var b, d := Add(a, Drop(h)), Add(c, Drop(h));
      && Cross(Sub(b, a), Sub(c, a)) == Vec3(-h * (c.z - a.z), 0.0, h * (c.x - a.x))
      && Cross(Sub(b, c), Sub(d, c)) == Vec3(-h * (c.z - a.z), 0.0, h * (c.x - a.x))
  {
  }

  /** The same quad cut into (top, next top, bottom) and (next top, next
      bottom, bottom): both triangles have the opposite face normal. */
  lemma AlongFirstFaces(h: real, a: Vec3, c: Vec3)
    ensures var b, d := Add(a, Drop(h)), Add(c, Drop(h));
      && Cross(Sub(c, a), Sub(b, a)) == Vec3(h * (c.z - a.z), 0.0, -h * (c.x - a.x))
      && Cross(Sub(d, c), Sub(b, c)) == Vec3(h * (c.z - a.z), 0.0, -h * (c.x - a.x))
  {
  }

    /** The wall vertex pair of a border vertex a at index k of a vertex list
      u: its top copy, then the copy dropped by the wall height h. */
  predicate PairAt(u: seq<Vec3>, k: nat, a: Vec3, h: real) {
    k + 1 < |u| && u[k] == a && u[k + 1] == Add(a, Drop(h))
  }

  /** Triangle (x, y, z) of u faces along a wall's axis, scaled by the wall
      height h and by the signed step from border vertex a to border vertex c. */
  predicate FacesAlong(u: seq<Vec3>, x: nat, y: nat, z: nat, h: real, side: Side, a: Vec3, c: Vec3) {
    x < |u| && y < |u| && z < |u| && FaceNormal(u, x, y, z) == Scale(h * Advance(side, a, c), SideNormal(side))
  }

  /** Triangle (x, y, z) of u has face normal h * d times a wall's axis. */
  predicate FacesBy(u: seq<Vec3>, x: nat, y: nat, z: nat, h: real, side: Side, d: real) {
    x < |u| && y < |u| && z < |u| && FaceNormal(u, x, y, z) == Scale(h * d, SideNormal(side))
  }

  /** FacesAlong spelt out once the step between the border vertices is
      known. */
  lemma FaceOfStep(u: seq<Vec3>, x: nat, y: nat, z: nat, h: real, side: Side, a: Vec3, c: Vec3, d: real)
    requires FacesAlong(u, x, y, z, h, side, a, c) && Advance(side, a, c) == d
    ensures FacesBy(u, x, y, z, h, side, d)
  {
  }

  /** Only where the border vertices stand on the ground matters to a wall
      face: raising or lowering them keeps the step, hence the face normal. */
  lemma FacesAlongOverGround(u: seq<Vec3>, x: nat, y: nat, z: nat, h: real, side: Side,
                             a: Vec3, c: Vec3, a2: Vec3, c2: Vec3)
    requires FacesAlong(u, x, y, z, h, side, a, c) && SameGround(a, a2) && SameGround(c, c2)
    ensures FacesAlong(u, x, y, z, h, side, a2, c2)
  {
  }

  /** A quad of the north or east wall, between the pairs of border vertices
      a (at k0) and c (at k1), cut into (top, bottom, next top) and (next top,
      bottom, next bottom): both triangles face along the wall's axis. */
  lemma DownFirstQuad(u: seq<Vec3>, k0: nat, k1: nat, h: real, side: Side, a: Vec3, c: Vec3)
    requires PairAt(u, k0, a, h) && PairAt(u, k1, c, h)
    requires DownFirst(side) && Across(side, a) == Across(side, c)
    ensures FacesAlong(u, k0, k0 + 1, k1, h, side, a, c) && FacesAlong(u, k1, k0 + 1, k1 + 1, h, side, a, c)
  {
    DownFirstFaces(h, a, c);
  }

  /** A quad of the west or south wall, cut into (top, next top, bottom) and
      (next top, next bottom, bottom): both triangles face along the wall's
      axis as well. */
  lemma AlongFirstQuad(u: seq<Vec3>, k0: nat, k1: nat, h: real, side: Side, a: Vec3, c: Vec3)
    requires PairAt(u, k0, a, h) && PairAt(u, k1, c, h)
    requires !DownFirst(side) && Across(side, a) == Across(side, c)
    ensures FacesAlong(u, k0, k1, k0 + 1, h, side, a, c) && FacesAlong(u, k1, k1 + 1, k0 + 1, h, side, a, c)
  {
    AlongFirstFaces(h, a, c);
  }

/** Any two border vertices of one wall share its across coordinate. */
  lemma FramedPair(n: nat, v: seq<Vec3>, side: Side, i: nat, j: nat)
    requires n >= 2 && |v| >= n * n && i < n && j < n && Framed(n, v)
    ensures Across(side, v[SideCell(n, side, i)]) == Across(side, v[SideCell(n, side, j)])
  {
    assert Across(side, v[SideCell(n, side, i)]) == Across(side, v[SideCell(n, side, 0)]);
    assert Across(side, v[SideCell(n, side, j)]) == Across(side, v[SideCell(n, side, 0)]);
  }

  /** The wall vertex pair k, k + 1 at step i of a wall: the top copy of
      the border vertex and the copy dropped by the wall height. */
  lemma WallPairAt(n: nat, h: real, v: seq<Vec3>, k: nat, side: Side, i: nat)
    requires n >= 2 && |v| >= n * n && k + 1 < WallVertexCount(n) && k % 2 == 0
    requires WallSide(n, k) == side && WallSide(n, k + 1) == side
    requires WallStep(n, k) == i && WallStep(n, k + 1) == i
    ensures i < n
    ensures var w := WallVertices(n, h, v);
      w[k] == v[SideCell(n, side, i)] && w[k + 1] == Add(v[SideCell(n, side, i)], Drop(h))
  {
  }

  /** The wall vertex that holds the top copy of border vertex i of a wall;
      the bottom copy follows it. */
  function PairIndex(n: nat, side: Side, i: nat): nat {
    match side
    case NorthWall => 2 * i
    case WestWall => 2 * n + 4 * i
    case EastWall => 2 * n + 4 * i + 2
    case SouthWall => 6 * n + 2 * i
  }

  /** The wall vertex pair of border vertex i of a wall, in the wall vertex
      list: its top copy, then the copy dropped by the wall height. */
  lemma WallPairOf(n: nat, h: real, v: seq<Vec3>, side: Side, i: nat)
    requires n >= 2 && i < n && |v| >= n * n
    ensures var w, k := WallVertices(n, h, v), PairIndex(n, side, i);
      && k + 1 < |w|
      && w[k] == v[SideCell(n, side, i)] && w[k + 1] == Add(v[SideCell(n, side, i)], Drop(h))
  {
    var k := PairIndex(n, side, i);
    match side
    case NorthWall =>
      Halve(k, i, 0);
      Halve(k + 1, i, 1);
      WallPairAt(n, h, v, k, side, i);
    case WestWall =>
      WestEastGroup(n, i);
      Halve(k, n + 2 * i, 0);
      WallPairAt(n, h, v, k, side, i);
    case EastWall =>
      WestEastGroup(n, i);
      Halve(k, n + 2 * i + 1, 0);
      WallPairAt(n, h, v, k, side, i);
    case SouthWall =>
      Halve(k - 6 * n, i, 0);
      Halve(k - 6 * n + 1, i, 1);
      Halve(k, 3 * n + i, 0);
      WallPairAt(n, h, v, k, side, i);
  }

  /** Whether a wall's quads are cut into (top, bottom, next top) and (next
      top, bottom, next bottom), as the north and east walls are; the west
      and south walls are cut the other way round. */
  predicate DownFirst(side: Side) {
    side == NorthWall || side == EastWall
  }

    /** The vertex list u holds the wall vertices from offset o on: every
      border vertex's pair sits at o + PairIndex of its wall and step. */
  predicate WallsAt(n: nat, h: real, v: seq<Vec3>, u: seq<Vec3>, o: nat)
    requires n >= 2 && |v| >= n * n
  {
    forall side: Side, i: nat :: i < n ==> PairAt(u, o + PairIndex(n, side, i), v[SideCell(n, side, i)], h)
  }

  /** The mesh with walls holds its wall vertices right after the grid's. */
  lemma WallsAtEnd(n: nat, h: real, m: Mesh)
    requires n >= 2 && m.Aligned() && |m.vertices| >= n * n
    ensures WallsAt(n, h, m.vertices, WithWalls(n, h, m).vertices, |m.vertices|)
  {
    var r, L := WithWalls(n, h, m), |m.vertices|;
    forall side: Side, i: nat | i < n
      ensures PairAt(r.vertices, L + PairIndex(n, side, i), m.vertices[SideCell(n, side, i)], h)
    {
      var k := PairIndex(n, side, i);
      WallPairOf(n, h, m.vertices, side, i);
      WallAt(n, h, m, k);
      WallAt(n, h, m, k + 1);
    }
  }

  /** Wall triangle q lies on its wall: its three corners are vertices of
      the wall it is counted under. */
  predicate OnItsWall(n: nat, q: nat)
    requires n >= 2 && q < 8 * (n - 1)
  {
    var t, side := Corners(n, q), TriangleSide(n, q);
    WallSide(n, t.a) == side && WallSide(n, t.b) == side && WallSide(n, t.c) == side
  }

  /** Every wall triangle lies on the wall it is counted under. */
  lemma TriangleOnItsWall(n: nat, q: nat)
    requires n >= 2 && q < 8 * (n - 1)
    ensures OnItsWall(n, q)
  {
    if q < 2 * (n - 1) {
      NorthOnItsWall(n, q);
    } else if q < 6 * (n - 1) {
      WestEastOnItsWall(n, q);
    } else {
      SouthOnItsWall(n, q);
    }
  }

  /** TriangleOnItsWall on the north wall. */
  lemma NorthOnItsWall(n: nat, q: nat)
    requires n >= 2 && q < 2 * (n - 1)
    ensures OnItsWall(n, q)
  {
    var i := q / 2;
    NorthCorners(n, q, i, q % 2);
    assert WallSide(n, 2 * i + 3) == NorthWall;
  }

  /** TriangleOnItsWall on the west and east walls. */
  lemma WestEastOnItsWall(n: nat, q: nat)
    requires n >= 2 && 2 * (n - 1) <= q < 6 * (n - 1)
    ensures OnItsWall(n, q)
  {
    var p := q - 2 * (n - 1);
    WestEastCorners(n, q, p / 4, p % 4);
    WestEastGroup(n, p / 4);
    WestEastGroup(n, p / 4 + 1);
  }

  /** TriangleOnItsWall on the south wall. */
  lemma SouthOnItsWall(n: nat, q: nat)
    requires n >= 2 && 6 * (n - 1) <= q < 8 * (n - 1)
    ensures OnItsWall(n, q)
  {
    var i := (q - 6 * (n - 1)) / 2;
    SouthCorners(n, q, i, (q - 6 * (n - 1)) % 2);
    assert WallSide(n, 6 * n + 2 * i) == SouthWall;
  }

  /** With the wall vertices held in u from offset o on, wall triangle q
      faces along its wall's axis, scaled by the wall height and by the
      signed step between the border vertices its segment joins. */
  predicate FaceAlongWall(n: nat, h: real, v: seq<Vec3>, u: seq<Vec3>, o: nat, q: nat)
    requires n >= 2 && |v| >= n * n && q < 8 * (n - 1)
  {
    var t, side, i := Corners(n, q), TriangleSide(n, q), Segment(n, q);
    && i + 1 < n
    && FacesAlong(u, o + t.a, o + t.b, o + t.c, h, side, v[SideCell(n, side, i)], v[SideCell(n, side, i + 1)])
  }

  /** Every north-wall triangle lies on the north wall and faces along the
      forward axis. */
  lemma NorthFaces(n: nat, h: real, v: seq<Vec3>, u: seq<Vec3>, o: nat, q: nat)
    requires n >= 2 && |v| >= n * n && q < 2 * (n - 1) && Framed(n, v) && WallsAt(n, h, v, u, o)
    ensures FaceAlongWall(n, h, v, u, o, q)
  {
    var i, s := q / 2, q % 2;
    NorthCorners(n, q, i, s);
    var t := Corners(n, q);
    var a, c := v[SideCell(n, NorthWall, i)], v[SideCell(n, NorthWall, i + 1)];
    var k0, k1 := o + 2 * i, o + 2 * i + 2;
    assert PairAt(u, k0, a, h) && PairAt(u, k1, c, h) by {
      assert PairIndex(n, NorthWall, i) == 2 * i && PairIndex(n, NorthWall, i + 1) == 2 * i + 2;
    }
    FramedPair(n, v, NorthWall, i, i + 1);
    DownFirstQuad(u, k0, k1, h, NorthWall, a, c);
    if s == 0 {
      assert o + t.a == k0 && o + t.b == k0 + 1 && o + t.c == k1;
    } else {
      assert o + t.a == k1 && o + t.b == k0 + 1 && o + t.c == k1 + 1;
    }
  }

  /** Every west/east-wall triangle faces along the left or right axis. */
  lemma WestEastFaces(n: nat, h: real, v: seq<Vec3>, u: seq<Vec3>, o: nat, q: nat)
    requires n >= 2 && |v| >= n * n && 2 * (n - 1) <= q < 6 * (n - 1) && Framed(n, v) && WallsAt(n, h, v, u, o)
    ensures FaceAlongWall(n, h, v, u, o, q)
  {
    var p := q - 2 * (n - 1);
    if p % 4 < 2 {
      WestFaces(n, h, v, u, o, q, p / 4, p % 4);
    } else {
      EastFaces(n, h, v, u, o, q, p / 4, p % 4);
    }
  }

  /** Triangle s of row segment i of the west and east walls: its corners,
      its segment and its wall. */
  lemma WestEastTriangle(n: nat, q: nat, i: nat, s: nat)
    requires n >= 2 && i < n - 1 && s < 4 && q == 2 * (n - 1) + 4 * i + s
    ensures Corners(n, q) == Shift(2 * n + 4 * i, WestEastOffsets(s))
    ensures Segment(n, q) == i && TriangleSide(n, q) == (if s < 2 then WestWall else EastWall)
  {
    WestEastCorners(n, q, i, s);
  }

  /** The west-wall triangles s = 0, 1 of row segment i face along the left
      axis. */
  lemma WestFaces(n: nat, h: real, v: seq<Vec3>, u: seq<Vec3>, o: nat, q: nat, i: nat, s: nat)
    requires n >= 2 && |v| >= n * n && i < n - 1 && s < 2 && q == 2 * (n - 1) + 4 * i + s
    requires Framed(n, v) && WallsAt(n, h, v, u, o)
    ensures FaceAlongWall(n, h, v, u, o, q)
  {
    WestEastTriangle(n, q, i, s);
    var t, k := Corners(n, q), 2 * n + 4 * i;
    var a, c := v[SideCell(n, WestWall, i)], v[SideCell(n, WestWall, i + 1)];
    var k0, k1 := o + k, o + k + 4;
    assert PairAt(u, k0, a, h) && PairAt(u, k1, c, h) by {
      assert PairIndex(n, WestWall, i) == k && PairIndex(n, WestWall, i + 1) == k + 4;
    }
    FramedPair(n, v, WestWall, i, i + 1);
    AlongFirstQuad(u, k0, k1, h, WestWall, a, c);
    if s == 0 {
      assert o + t.a == k0 && o + t.b == k1 && o + t.c == k0 + 1;
    } else {
      assert o + t.a == k1 && o + t.b == k1 + 1 && o + t.c == k0 + 1;
    }
  }

  /** The east-wall triangles s = 2, 3 of row segment i face along the right
      axis. */
  lemma EastFaces(n: nat, h: real, v: seq<Vec3>, u: seq<Vec3>, o: nat, q: nat, i: nat, s: nat)
    requires n >= 2 && |v| >= n * n && i < n - 1 && 2 <= s < 4 && q == 2 * (n - 1) + 4 * i + s
    requires Framed(n, v) && WallsAt(n, h, v, u, o)
    ensures FaceAlongWall(n, h, v, u, o, q)
  {
    WestEastTriangle(n, q, i, s);
    var t, k := Corners(n, q), 2 * n + 4 * i;
    var a, c := v[SideCell(n, EastWall, i)], v[SideCell(n, EastWall, i + 1)];
    var k0, k1 := o + k + 2, o + k + 6;
    assert PairAt(u, k0, a, h) && PairAt(u, k1, c, h) by {
      assert PairIndex(n, EastWall, i) == k + 2 && PairIndex(n, EastWall, i + 1) == k + 6;
    }
    FramedPair(n, v, EastWall, i, i + 1);
    DownFirstQuad(u, k0, k1, h, EastWall, a, c);
    if s == 2 {
      assert o + t.a == k0 && o + t.b == k0 + 1 && o + t.c == k1;
    } else {
      assert o + t.a == k1 && o + t.b == k0 + 1 && o + t.c == k1 + 1;
    }
  }

  /** Every south-wall triangle lies on the south wall and faces along the
      back axis. */
  lemma SouthFaces(n: nat, h: real, v: seq<Vec3>, u: seq<Vec3>, o: nat, q: nat)
    requires n >= 2 && |v| >= n * n && 6 * (n - 1) <= q < 8 * (n - 1) && Framed(n, v) && WallsAt(n, h, v, u, o)
    ensures FaceAlongWall(n, h, v, u, o, q)
  {
    var p := q - 6 * (n - 1);
    var i, s := p / 2, p % 2;
    SouthCorners(n, q, i, s);
    var t := Corners(n, q);
    var a, c := v[SideCell(n, SouthWall, i)], v[SideCell(n, SouthWall, i + 1)];
    var k0, k1 := o + 6 * n + 2 * i, o + 6 * n + 2 * i + 2;
    assert PairAt(u, k0, a, h) && PairAt(u, k1, c, h) by {
      assert PairIndex(n, SouthWall, i) == 6 * n + 2 * i && PairIndex(n, SouthWall, i + 1) == 6 * n + 2 * i + 2;
    }
    FramedPair(n, v, SouthWall, i, i + 1);
    AlongFirstQuad(u, k0, k1, h, SouthWall, a, c);
    if s == 0 {
      assert o + t.a == k0 && o + t.b == k1 && o + t.c == k0 + 1;
    } else {
      assert o + t.a == k1 && o + t.b == k1 + 1 && o + t.c == k0 + 1;
    }
  }

  /** On a framed border, every wall triangle lies on its wall and faces
      along that wall's axis. */
  lemma WallTriangleFaces(n: nat, h: real, v: seq<Vec3>, u: seq<Vec3>, o: nat, q: nat)
    requires n >= 2 && |v| >= n * n && q < 8 * (n - 1) && Framed(n, v) && WallsAt(n, h, v, u, o)
    ensures FaceAlongWall(n, h, v, u, o, q)
  {
    if q < 2 * (n - 1) {
      NorthFaces(n, h, v, u, o, q);
    } else if q < 6 * (n - 1) {
      WestEastFaces(n, h, v, u, o, q);
    } else {
      SouthFaces(n, h, v, u, o, q);
    }
  }

  /** Whether a wall triangle faces along its wall depends on the border
      vertices only through their ground position. */
  lemma FaceAlongWallOverGround(n: nat, h: real, v: seq<Vec3>, g: seq<Vec3>, u: seq<Vec3>, o: nat, q: nat)
    requires n >= 2 && |v| >= n * n && |g| >= n * n && q < 8 * (n - 1) && FaceAlongWall(n, h, v, u, o, q)
    requires forall j :: 0 <= j < n * n ==> SameGround(v[j], g[j])
    ensures FaceAlongWall(n, h, g, u, o, q)
  {
    var t, side, i := Corners(n, q), TriangleSide(n, q), Segment(n, q);
    var p0, p1 := SideCell(n, side, i), SideCell(n, side, i + 1);
    assert SameGround(v[p0], g[p0]) && SameGround(v[p1], g[p1]);
    FacesAlongOverGround(u, o + t.a, o + t.b, o + t.c, h, side, v[p0], v[p1], g[p0], g[p1]);
  }

  /** The winding of the walls: on a border framed in g, a vertex list over
      the same ground as the mesh (the mesh itself, or the grid before it was
      displaced), wall triangle q is wound along its wall (WallWound). */
  lemma WallWinding(n: nat, h: real, m: Mesh, g: seq<Vec3>, q: nat)
    requires n >= 2 && m.Aligned() && |m.vertices| >= n * n && |g| >= n * n && q < 8 * (n - 1)
    requires Framed(n, g) && forall j :: 0 <= j < n * n ==> SameGround(m.vertices[j], g[j])
    ensures WallWound(n, h, WithWalls(n, h, m), g, q)
  {
    var r, L := WithWalls(n, h, m), |m.vertices|;
    FramedOverSameGround(n, m.vertices, g);
    TriangleAt(n, h, m, q);
    WallsAtEnd(n, h, m);
    WallTriangleFaces(n, h, m.vertices, r.vertices, L, q);
    FaceAlongWallOverGround(n, h, m.vertices, g, r.vertices, L, q);
    TriangleOnItsWall(n, q);
    var a, b, c := Corners(n, q).a, Corners(n, q).b, Corners(n, q).c;
    WallNormalAt(n, h, m, a);
    WallNormalAt(n, h, m, b);
    WallNormalAt(n, h, m, c);
  }

  /** The normal the mesh with walls gives wall vertex k: its wall's axis. */
  lemma WallNormalAt(n: nat, h: real, m: Mesh, k: nat)
    requires n >= 2 && m.Aligned() && |m.vertices| >= n * n && k < WallVertexCount(n)
    ensures |m.vertices| + k < |WithWalls(n, h, m).normals|
    ensures WithWalls(n, h, m).normals[|m.vertices| + k] == SideNormal(WallSide(n, k))
  {
    WallAt(n, h, m, k);
  }

  /** Wall triangle q of mesh r winds along its wall: its three corners
      carry the outward axis of the wall as their normal, and its face normal
      is the wall height h times the signed ground step from border vertex
      Segment(n, q) of g to the next, times that axis. */
  predicate WallWound(n: nat, h: real, r: Mesh, g: seq<Vec3>, q: nat)
    requires n >= 2 && |g| >= n * n && q < 8 * (n - 1)
  {
    var side, i := TriangleSide(n, q), Segment(n, q);
    && i + 1 < n
    && 3 * q + 2 < |r.wallTriangles|
    && var a, b, c := r.wallTriangles[3 * q], r.wallTriangles[3 * q + 1], r.wallTriangles[3 * q + 2];
       && a < |r.normals| && b < |r.normals| && c < |r.normals|
       && r.normals[a] == SideNormal(side) && r.normals[b] == SideNormal(side) && r.normals[c] == SideNormal(side)
       && FacesAlong(r.vertices, a, b, c, h, side, g[SideCell(n, side, i)], g[SideCell(n, side, i + 1)])
  }

  /** A wound wall triangle whose border step is d has face normal h * d
      times its wall's axis. */
  lemma WoundByStep(n: nat, h: real, r: Mesh, g: seq<Vec3>, q: nat, d: real)
    requires n >= 2 && |g| >= n * n && q < 8 * (n - 1) && WallWound(n, h, r, g, q)
    requires Advance(TriangleSide(n, q), g[SideCell(n, TriangleSide(n, q), Segment(n, q))],
                     g[SideCell(n, TriangleSide(n, q), Segment(n, q) + 1)]) == d
    ensures 3 * q + 2 < |r.wallTriangles|
    ensures FacesBy(r.vertices, r.wallTriangles[3 * q], r.wallTriangles[3 * q + 1], r.wallTriangles[3 * q + 2], h, TriangleSide(n, q), d)
  {
    var side, i := TriangleSide(n, q), Segment(n, q);
    var a, b, c := r.wallTriangles[3 * q], r.wallTriangles[3 * q + 1], r.wallTriangles[3 * q + 2];
    FaceOfStep(r.vertices, a, b, c, h, side, g[SideCell(n, side, i)], g[SideCell(n, side, i + 1)], d);
  }

  /** A mesh whose walls wind over the flat base mesh: every wall triangle's
      face normal is the wall height times BaseStep times its wall's axis. */
  lemma WoundOverBase(n: nat, h: real, r: Mesh, rect: Rect, scale: real, q: nat)
    requires n >= 2 && q < 8 * (n - 1) && WallWound(n, h, r, BaseMesh(n, rect, scale).vertices, q)
    ensures 3 * q + 2 < |r.wallTriangles|
    ensures FacesBy(r.vertices, r.wallTriangles[3 * q], r.wallTriangles[3 * q + 1], r.wallTriangles[3 * q + 2],
                    h, TriangleSide(n, q), BaseStep(n, rect, scale, TriangleSide(n, q)))
  {
    var side := TriangleSide(n, q);
    BaseMeshAdvance(n, rect, scale, side, Segment(n, q));
    WoundByStep(n, h, r, BaseMesh(n, rect, scale).vertices, q, BaseStep(n, rect, scale, side));
  }

  /** Wall triangles 2p and 2p + 1 are the two halves of one quad: they lie
      on the same wall, on the same segment. */
  lemma QuadHalves(n: nat, p: nat)
    requires n >= 2 && 2 * p + 1 < 8 * (n - 1)
    ensures TriangleSide(n, 2 * p) == TriangleSide(n, 2 * p + 1) && Segment(n, 2 * p) == Segment(n, 2 * p + 1)
  {
    var q := 2 * p;
    if p < n - 1 {
      assert q / 2 == p && (q + 1) / 2 == p;
    } else if p < 3 * (n - 1) {
      var g := p - (n - 1);
      var d, s := g / 2, g % 2;
      assert q - 2 * (n - 1) == 4 * d + 2 * s;
      assert (4 * d + 2 * s) / 4 == d && (4 * d + 2 * s) % 4 == 2 * s;
      assert (4 * d + 2 * s + 1) / 4 == d && (4 * d + 2 * s + 1) % 4 == 2 * s + 1;
    } else {
      var g := p - 3 * (n - 1);
      assert q - 6 * (n - 1) == 2 * g;
      assert (2 * g) / 2 == g && (2 * g + 1) / 2 == g;
    }
  }

  /** The north wall's vertex pair at column i. */
  lemma NorthPair(n: nat, h: real, v: seq<Vec3>, i: nat)
    requires n >= 2 && i < n && |v| >= n * n
    ensures WallVertex(n, h, v, 2 * i) == v[i] && WallVertex(n, h, v, 2 * i + 1) == Add(v[i], Drop(h))
    ensures WallNormal(n, 2 * i) == Forward && WallNormal(n, 2 * i + 1) == Forward
    ensures WallUv(n, 2 * i) == Vec2(Ratio(i, n), 1.0) && WallUv(n, 2 * i + 1) == Vec2(Ratio(i, n), 0.0)
  {
    assert WallStep(n, 2 * i) == i && WallStep(n, 2 * i + 1) == i;
    assert Idx(n, i, 0) == i;
  }

  /** The west wall's vertex pair at row i. */
  lemma WestPair(n: nat, h: real, v: seq<Vec3>, i: nat)
    requires n >= 2 && i < n && |v| >= n * n
    ensures i * n < n * n
    ensures var k := 2 * n + 4 * i;
      && WallVertex(n, h, v, k) == v[i * n] && WallVertex(n, h, v, k + 1) == Add(v[i * n], Drop(h))
      && WallNormal(n, k) == Left && WallNormal(n, k + 1) == Left
      && WallUv(n, k) == Vec2(Ratio(i, n), 1.0) && WallUv(n, k + 1) == Vec2(Ratio(i, n), 0.0)
  {
    WestEastQuad(n, h, v, i);
  }

  /** The east wall's vertex pair at row i. */
  lemma EastPair(n: nat, h: real, v: seq<Vec3>, i: nat)
    requires n >= 2 && i < n && |v| >= n * n
    ensures i * n + (n - 1) < n * n
    ensures var k := 2 * n + 4 * i + 2;
      && WallVertex(n, h, v, k) == v[i * n + (n - 1)] && WallVertex(n, h, v, k + 1) == Add(v[i * n + (n - 1)], Drop(h))
      && WallNormal(n, k) == Right && WallNormal(n, k + 1) == Right
      && WallUv(n, k) == Vec2(Ratio(i, n), 1.0) && WallUv(n, k + 1) == Vec2(Ratio(i, n), 0.0)
  {
    WestEastQuad(n, h, v, i);
  }

  /** The west/east block's four vertices at row i. */
  lemma WestEastQuad(n: nat, h: real, v: seq<Vec3>, i: nat)
    requires n >= 2 && i < n && |v| >= n * n
    ensures i * n + (n - 1) < n * n
    ensures var k := 2 * n + 4 * i;
      && WallVertex(n, h, v, k) == v[i * n] && WallVertex(n, h, v, k + 1) == Add(v[i * n], Drop(h))
      && WallVertex(n, h, v, k + 2) == v[i * n + (n - 1)]
      && WallVertex(n, h, v, k + 3) == Add(v[i * n + (n - 1)], Drop(h))
      && WallNormal(n, k) == Left && WallNormal(n, k + 1) == Left
      && WallNormal(n, k + 2) == Right && WallNormal(n, k + 3) == Right
      && WallUv(n, k) == Vec2(Ratio(i, n), 1.0) && WallUv(n, k + 1) == Vec2(Ratio(i, n), 0.0)
      && WallUv(n, k + 2) == Vec2(Ratio(i, n), 1.0) && WallUv(n, k + 3) == Vec2(Ratio(i, n), 0.0)
  {
    IdxInGrid(n, n - 1, i);
    WestEastGroup(n, i);
    var k := 2 * n + 4 * i;
    assert k % 2 == 0;
    assert Idx(n, 0, i) == i * n && Idx(n, n - 1, i) == i * n + (n - 1);
  }

  /** The south wall's vertex pair at column i. */
  lemma SouthPair(n: nat, h: real, v: seq<Vec3>, i: nat)
    requires n >= 2 && i < n && |v| >= n * n
    ensures n * n - n + i < n * n
    ensures var k := 6 * n + 2 * i;
      && WallVertex(n, h, v, k) == v[n * n - n + i] && WallVertex(n, h, v, k + 1) == Add(v[n * n - n + i], Drop(h))
      && WallNormal(n, k) == Back && WallNormal(n, k + 1) == Back
      && WallUv(n, k) == Vec2(Ratio(i, n), 1.0) && WallUv(n, k + 1) == Vec2(Ratio(i, n), 0.0)
  {
    IdxInGrid(n, i, n - 1);
    assert (n - 1) * n == n * n - n;
    assert WallStep(n, 6 * n + 2 * i) == i && WallStep(n, 6 * n + 2 * i + 1) == i;
  }

  /** North-wall triangle index t, entry e of segment i. */
  lemma NorthOffsetAt(n: nat, i: nat, e: nat, t: nat)
    requires n >= 2 && i < n - 1 && e < 6 && t == 6 * i + e
    ensures t < WallIndexCount(n)
    ensures WallOffset(n, t) == 2 * i + [0, 1, 2, 2, 1, 3][e]
  {
    assert t / 6 == i && t % 6 == e;
  }

  /** South-wall triangle index t, entry e of segment i. */
  lemma SouthOffsetAt(n: nat, i: nat, e: nat, t: nat)
    requires n >= 2 && i < n - 1 && e < 6 && t == 18 * (n - 1) + 6 * i + e
    ensures t < WallIndexCount(n)
    ensures WallOffset(n, t) == 6 * n + 2 * i + [0, 2, 1, 2, 3, 1][e]
  {
    var m := t - 18 * (n - 1);
    assert m / 6 == i && m % 6 == e;
  }

  /** The buffers hold m's own entries followed by the first `count` wall
      vertices, normals and UVs of the reference layout. */
  predicate Built(n: nat, h: real, m: Mesh, vs: seq<Vec3>, ns: seq<Vec3>, uvs: seq<Vec2>, count: nat)
    requires n >= 2 && |m.vertices| >= n * n
  {
    && count <= WallVertexCount(n)
    && vs == m.vertices + WallVertices(n, h, m.vertices)[..count]
    && ns == m.normals + WallNormals(n)[..count]
    && uvs == m.uv + WallUvs(n)[..count]
  }

  /** The list holds the first `count` wall triangle indices of the reference
      layout, whose first wall vertex is at `base`. */
  predicate Indexed(n: nat, base: nat, tris: seq<nat>, count: nat)
    requires n >= 2
  {
    count <= WallIndexCount(n) && tris == WallTriangleList(n, base)[..count]
  }

  /** Appending the next `|a|` elements of a reference sequence to a prefix of
      it extends the prefix. */
  lemma PrefixGrows<T>(front: seq<T>, w: seq<T>, count: nat, a: seq<T>)
    requires count + |a| <= |w|
    requires forall e :: 0 <= e < |a| ==> a[e] == w[count + e]
    ensures (front + w[..count]) + a == front + w[..count + |a|]
  {
    assert w[..count + |a|] == w[..count] + a;
  }

  /** Appending two entries that continue a prefix of a reference sequence
      extends the prefix by two. */
  lemma PairGrows<T>(front: seq<T>, w: seq<T>, count: nat, x: T, y: T)
    requires count + 2 <= |w| && w[count] == x && w[count + 1] == y
    ensures (front + w[..count]) + [x, y] == front + w[..count + 2]
  {
    assert w[..count + 2] == w[..count] + [x, y];
  }

  /** Appending the next top/bottom pair of the reference layout keeps the
      buffers built. */
  lemma BuiltPair(n: nat, h: real, m: Mesh, vs: seq<Vec3>, ns: seq<Vec3>, uvs: seq<Vec2>, count: nat,
                  top: Vec3, nrm: Vec3, u: real)
    requires n >= 2 && |m.vertices| >= n * n
    requires Built(n, h, m, vs, ns, uvs, count) && count + 2 <= WallVertexCount(n)
    requires WallVertex(n, h, m.vertices, count) == top
    requires WallVertex(n, h, m.vertices, count + 1) == Add(top, Drop(h))
    requires WallNormal(n, count) == nrm && WallNormal(n, count + 1) == nrm
    requires WallUv(n, count) == Vec2(u, 1.0) && WallUv(n, count + 1) == Vec2(u, 0.0)
    ensures Built(n, h, m, vs + [top, Add(top, Drop(h))], ns + [nrm, nrm],
                  uvs + [Vec2(u, 1.0), Vec2(u, 0.0)], count + 2)
  {
    PairGrows(m.vertices, WallVertices(n, h, m.vertices), count, top, Add(top, Drop(h)));
    PairGrows(m.normals, WallNormals(n), count, nrm, nrm);
    PairGrows(m.uv, WallUvs(n), count, Vec2(u, 1.0), Vec2(u, 0.0));
  }

  /** Appending the next wall triangle indices of the reference layout keeps
      the list indexed. */
  lemma IndexedAppend(n: nat, base: nat, tris: seq<nat>, count: nat, a: seq<nat>)
    requires n >= 2 && Indexed(n, base, tris, count)
    requires count + |a| <= WallIndexCount(n)
    requires forall e :: 0 <= e < |a| ==> a[e] == base + WallOffset(n, count + e)
    ensures Indexed(n, base, tris + a, count + |a|)
  {
    PrefixGrows([], WallTriangleList(n, base), count, a);
    assert [] + tris == tris;
  }

  /** Fully built buffers are exactly the walled mesh. */
  lemma BuiltIsWithWalls(n: nat, h: real, m: Mesh, vs: seq<Vec3>, ns: seq<Vec3>, uvs: seq<Vec2>, tris: seq<nat>)
    requires n >= 2 && m.Aligned() && |m.vertices| >= n * n
    requires Built(n, h, m, vs, ns, uvs, WallVertexCount(n))
    requires Indexed(n, |m.vertices|, tris, WallIndexCount(n))
    ensures m.(vertices := vs, normals := ns, uv := uvs, wallTriangles := tris) == WithWalls(n, h, m)
  {
    assert WallVertices(n, h, m.vertices)[..WallVertexCount(n)] == WallVertices(n, h, m.vertices);
    assert WallNormals(n)[..WallVertexCount(n)] == WallNormals(n);
    assert WallUvs(n)[..WallVertexCount(n)] == WallUvs(n);
    assert WallTriangleList(n, |m.vertices|)[..WallIndexCount(n)] == WallTriangleList(n, |m.vertices|);
  }

  /** Built buffers still hold the grid vertices at their original indices. */
  lemma BuiltReadsGrid(n: nat, h: real, m: Mesh, vs: seq<Vec3>, ns: seq<Vec3>, uvs: seq<Vec2>, count: nat, j: nat)
    requires n >= 2 && m.Aligned() && |m.vertices| >= n * n
    requires Built(n, h, m, vs, ns, uvs, count) && j < n * n
    ensures j < |vs| && vs[j] == m.vertices[j]
  {
  }

  /** Appends the top and bottom copies of grid vertex `src` as the next
      wall pair, given that they are the pair's reference entries. */
  method AppendPair(n: nat, h: real, m: Mesh, vs0: seq<Vec3>, ns0: seq<Vec3>, uvs0: seq<Vec2>, count: nat,
                    src: nat, nrm: Vec3, u: real)
    returns (vs: seq<Vec3>, ns: seq<Vec3>, uvs: seq<Vec2>)
    requires n >= 2 && m.Aligned() && |m.vertices| >= n * n
    requires Built(n, h, m, vs0, ns0, uvs0, count) && count + 2 <= WallVertexCount(n) && src < n * n
    requires WallVertex(n, h, m.vertices, count) == m.vertices[src]
    requires WallVertex(n, h, m.vertices, count + 1) == Add(m.vertices[src], Drop(h))
    requires WallNormal(n, count) == nrm && WallNormal(n, count + 1) == nrm
    requires WallUv(n, count) == Vec2(u, 1.0) && WallUv(n, count + 1) == Vec2(u, 0.0)
    ensures Built(n, h, m, vs, ns, uvs, count + 2)
  {
    BuiltReadsGrid(n, h, m, vs0, ns0, uvs0, count, src);
    var top := vs0[src];
    BuiltPair(n, h, m, vs0, ns0, uvs0, count, top, nrm, u);
    vs, ns, uvs := vs0 + [top, Add(top, Drop(h))], ns0 + [nrm, nrm], uvs0 + [Vec2(u, 1.0), Vec2(u, 0.0)];
  }

  /** Appends the north-wall pair of column i: the copies of grid vertex i. */
  method AppendNorthColumn(n: nat, h: real, m: Mesh, vs0: seq<Vec3>, ns0: seq<Vec3>, uvs0: seq<Vec2>, i: nat, u: real)
    returns (vs: seq<Vec3>, ns: seq<Vec3>, uvs: seq<Vec2>)
    requires n >= 2 && m.Aligned() && |m.vertices| >= n * n
    requires i < n && Built(n, h, m, vs0, ns0, uvs0, 2 * i) && u == Ratio(i, n)
    ensures Built(n, h, m, vs, ns, uvs, 2 * i + 2)
  {
    IdxInGrid(n, i, 0);
    NorthPair(n, h, m.vertices, i);
    vs, ns, uvs := AppendPair(n, h, m, vs0, ns0, uvs0, 2 * i, i, Forward, u);
  }

  /** Appends the west and east wall pairs of grid row `row`: the copies of
      the row's first vertex, then of its last. */
  method AppendWestEastRow(n: nat, h: real, m: Mesh, vs0: seq<Vec3>, ns0: seq<Vec3>, uvs0: seq<Vec2>, row: nat, u: real)
    returns (vs: seq<Vec3>, ns: seq<Vec3>, uvs: seq<Vec2>)
    requires n >= 2 && m.Aligned() && |m.vertices| >= n * n
    requires row < n && Built(n, h, m, vs0, ns0, uvs0, 2 * n + 4 * row) && u == Ratio(row, n)
    ensures Built(n, h, m, vs, ns, uvs, 2 * n + 4 * row + 4)
  {
    vs, ns, uvs := AppendWestPair(n, h, m, vs0, ns0, uvs0, row, u);
    vs, ns, uvs := AppendEastPair(n, h, m, vs, ns, uvs, row, u);
  }

  /** Appends the west wall pair of grid row `row`: the copies of the row's
      first vertex. */
  method AppendWestPair(n: nat, h: real, m: Mesh, vs0: seq<Vec3>, ns0: seq<Vec3>, uvs0: seq<Vec2>, row: nat, u: real)
    returns (vs: seq<Vec3>, ns: seq<Vec3>, uvs: seq<Vec2>)
    requires n >= 2 && m.Aligned() && |m.vertices| >= n * n
    requires row < n && Built(n, h, m, vs0, ns0, uvs0, 2 * n + 4 * row) && u == Ratio(row, n)
    ensures Built(n, h, m, vs, ns, uvs, 2 * n + 4 * row + 2)
  {
    WestPair(n, h, m.vertices, row);
    vs, ns, uvs := AppendPair(n, h, m, vs0, ns0, uvs0, 2 * n + 4 * row, row * n, Left, u);
  }

  /** Appends the east wall pair of grid row `row`: the copies of the row's
      last vertex. */
  method AppendEastPair(n: nat, h: real, m: Mesh, vs0: seq<Vec3>, ns0: seq<Vec3>, uvs0: seq<Vec2>, row: nat, u: real)
    returns (vs: seq<Vec3>, ns: seq<Vec3>, uvs: seq<Vec2>)
    requires n >= 2 && m.Aligned() && |m.vertices| >= n * n
    requires row < n && Built(n, h, m, vs0, ns0, uvs0, 2 * n + 4 * row + 2) && u == Ratio(row, n)
    ensures Built(n, h, m, vs, ns, uvs, 2 * n + 4 * row + 4)
  {
    EastPair(n, h, m.vertices, row);
    vs, ns, uvs := AppendPair(n, h, m, vs0, ns0, uvs0, 2 * n + 4 * row + 2, row * n + (n - 1), Right, u);
  }

  /** Appends the south-wall pair of column s: the copies of the vertex in
      column s of the last row. */
  method AppendSouthColumn(n: nat, h: real, m: Mesh, vs0: seq<Vec3>, ns0: seq<Vec3>, uvs0: seq<Vec2>, s: nat, u: real)
    returns (vs: seq<Vec3>, ns: seq<Vec3>, uvs: seq<Vec2>)
    requires n >= 2 && m.Aligned() && |m.vertices| >= n * n
    requires s < n && Built(n, h, m, vs0, ns0, uvs0, 6 * n + 2 * s) && u == Ratio(s, n)
    ensures Built(n, h, m, vs, ns, uvs, 6 * n + 2 * s + 2)
  {
    SouthPair(n, h, m.vertices, s);
    vs, ns, uvs := AppendPair(n, h, m, vs0, ns0, uvs0, 6 * n + 2 * s, n * n - n + s, Back, u);
  }

  /** The north-wall triangle indices of segment i, as the loop writes them. */
  lemma NorthIndices(n: nat, base: nat, i: nat, index: nat, a: seq<nat>)
    requires n >= 2 && i < n - 1 && index == base + 2 * i
    requires a == [index, index + 1, index + 2, index + 2, index + 1, index + 3]
    ensures forall e :: 0 <= e < |a| ==> a[e] == base + WallOffset(n, 6 * i + e)
  {
    forall e | 0 <= e < |a|
      ensures a[e] == base + WallOffset(n, 6 * i + e)
    {
      NorthOffsetAt(n, i, e, 6 * i + e);
    }
  }

  /** Appends the two north-wall triangles of segment i. */
  method AppendNorthSegment(n: nat, base: nat, tris0: seq<nat>, i: nat, index: nat) returns (tris: seq<nat>)
    requires n >= 2 && i < n - 1 && Indexed(n, base, tris0, 6 * i) && index == base + 2 * i
    ensures Indexed(n, base, tris, 6 * i + 6)
  {
    var a := [index, index + 1, index + 2, index + 2, index + 1, index + 3];
    NorthIndices(n, base, i, index, a);
    IndexedAppend(n, base, tris0, 6 * i, a);
    tris := tris0 + a;
  }

  /** The west/east triangle indices of row segment i, as the loop writes them. */
  lemma WestEastIndices(n: nat, base: nat, i: nat, index: nat, a: seq<nat>)
    requires n >= 2 && i < n - 1 && index == base + 2 * n + 4 * i
    requires a == [index, index + 4, index + 1, index + 4, index + 5, index + 1,
                   index + 2, index + 3, index + 6, index + 6, index + 3, index + 7]
    ensures forall e :: 0 <= e < |a| ==> a[e] == base + WallOffset(n, 6 * (n - 1) + 12 * i + e)
  {
    forall e | 0 <= e < |a|
      ensures a[e] == base + WallOffset(n, 6 * (n - 1) + 12 * i + e)
    {
      WestEastOffsetAt(n, i, e, 6 * (n - 1) + 12 * i + e);
    }
  }

  /** Appends the four west/east triangles of row segment i: two on the west
      wall, then two on the east wall. */
  method AppendWestEastSegment(n: nat, base: nat, tris0: seq<nat>, i: nat, index: nat) returns (tris: seq<nat>)
    requires n >= 2 && i < n - 1 && Indexed(n, base, tris0, 6 * (n - 1) + 12 * i)
    requires index == base + 2 * n + 4 * i
    ensures Indexed(n, base, tris, 6 * (n - 1) + 12 * i + 12)
  {
    var a := [index, index + 4, index + 1, index + 4, index + 5, index + 1,
              index + 2, index + 3, index + 6, index + 6, index + 3, index + 7];
    WestEastIndices(n, base, i, index, a);
    IndexedAppend(n, base, tris0, 6 * (n - 1) + 12 * i, a);
    tris := tris0 + a;
  }

  /** The south-wall triangle indices of segment s, as the loop writes them. */
  lemma SouthIndices(n: nat, base: nat, s: nat, index: nat, a: seq<nat>)
    requires n >= 2 && s < n - 1 && index == base + 6 * n + 2 * s
    requires a == [index, index + 2, index + 1, index + 2, index + 3, index + 1]
    ensures forall e :: 0 <= e < |a| ==> a[e] == base + WallOffset(n, 18 * (n - 1) + 6 * s + e)
  {
    forall e | 0 <= e < |a|
      ensures a[e] == base + WallOffset(n, 18 * (n - 1) + 6 * s + e)
    {
      SouthOffsetAt(n, s, e, 18 * (n - 1) + 6 * s + e);
    }
  }

  /** Appends the two south-wall triangles of segment s. */
  method AppendSouthSegment(n: nat, base: nat, tris0: seq<nat>, s: nat, index: nat) returns (tris: seq<nat>)
    requires n >= 2 && s < n - 1 && Indexed(n, base, tris0, 18 * (n - 1) + 6 * s)
    requires index == base + 6 * n + 2 * s
    ensures Indexed(n, base, tris, 18 * (n - 1) + 6 * s + 6)
  {
    var a := [index, index + 2, index + 1, index + 2, index + 3, index + 1];
    SouthIndices(n, base, s, index, a);
    IndexedAppend(n, base, tris0, 18 * (n - 1) + 6 * s, a);
    tris := tris0 + a;
  }

  /** The north wall loop: one vertex pair per column of the first grid row,
      two triangles per segment. */
  method CreateNorthWall(n: nat, h: real, m: Mesh)
    returns (vs: seq<Vec3>, ns: seq<Vec3>, uvs: seq<Vec2>, tris: seq<nat>, index: nat)
    requires n >= 2 && m.Aligned() && |m.vertices| >= n * n
    ensures Built(n, h, m, vs, ns, uvs, 2 * n)
    ensures Indexed(n, |m.vertices|, tris, 6 * (n - 1))
    ensures index == |m.vertices| + 2 * n
  {
    vs, ns, uvs, tris := m.vertices, m.normals, m.uv, [];
    index := |vs|;
    var base := index;
    var i := 0;
    while i < n - 1
      invariant 0 <= i <= n - 1
      invariant Built(n, h, m, vs, ns, uvs, if i == 0 then 0 else 2 * i + 2)
      invariant Indexed(n, base, tris, 6 * i)
      invariant index == base + 2 * i
    {
      vs, ns, uvs, tris := NorthPass(n, h, m, vs, ns, uvs, tris, base, index, i);
      index := index + 2;
      i := i + 1;
    }
    index := index + 2;
  }

  /** One pass of the north wall loop: on the first pass the pair of column
      0, then on every pass the pair of the next column and the triangles
      between the two. */
  method NorthPass(n: nat, h: real, m: Mesh, vs0: seq<Vec3>, ns0: seq<Vec3>, uvs0: seq<Vec2>,
                   tris0: seq<nat>, base: nat, index: nat, i: nat)
    returns (vs: seq<Vec3>, ns: seq<Vec3>, uvs: seq<Vec2>, tris: seq<nat>)
    requires n >= 2 && m.Aligned() && |m.vertices| >= n * n && base == |m.vertices|
    requires i < n - 1
    requires Built(n, h, m, vs0, ns0, uvs0, if i == 0 then 0 else 2 * i + 2)
    requires Indexed(n, base, tris0, 6 * i)
    requires index == base + 2 * i
    ensures Built(n, h, m, vs, ns, uvs, 2 * (i + 1) + 2)
    ensures Indexed(n, base, tris, 6 * (i + 1))
  {
    var columns := n - 1;
    vs, ns, uvs := vs0, ns0, uvs0;
    if i == 0 {
      vs, ns, uvs := AppendNorthColumn(n, h, m, vs, ns, uvs, i, 0.0);
    }
    var u := ((i as real) + 1.0) / (columns as real);
    vs, ns, uvs := AppendNorthColumn(n, h, m, vs, ns, uvs, i + 1, u);
    tris := AppendNorthSegment(n, base, tris0, i, index);
  }

  /** The west/east wall loop: per grid row, a vertex pair for its first
      column (west) and its last column (east), and two triangles per wall per
      segment. Continues from the north wall's buffers. */
  method CreateWestEastWalls(n: nat, h: real, m: Mesh,
                             vs0: seq<Vec3>, ns0: seq<Vec3>, uvs0: seq<Vec2>, tris0: seq<nat>, index0: nat)
    returns (vs: seq<Vec3>, ns: seq<Vec3>, uvs: seq<Vec2>, tris: seq<nat>, index: nat)
    requires n >= 2 && m.Aligned() && |m.vertices| >= n * n
    requires Built(n, h, m, vs0, ns0, uvs0, 2 * n)
    requires Indexed(n, |m.vertices|, tris0, 6 * (n - 1))
    requires index0 == |m.vertices| + 2 * n
    ensures Built(n, h, m, vs, ns, uvs, 6 * n)
    ensures Indexed(n, |m.vertices|, tris, 18 * (n - 1))
    ensures index == |m.vertices| + 6 * n
  {
    vs, ns, uvs, tris, index := vs0, ns0, uvs0, tris0, index0;
    var base := |m.vertices|;
    var i := 0;
    while i < n - 1
      invariant 0 <= i <= n - 1
      invariant Built(n, h, m, vs, ns, uvs, if i == 0 then 2 * n else 2 * n + 4 * i + 4)
      invariant Indexed(n, base, tris, 6 * (n - 1) + 12 * i)
      invariant index == base + 2 * n + 4 * i
    {
      vs, ns, uvs, tris := WestEastPass(n, h, m, vs, ns, uvs, tris, base, index, i);
      index := index + 4;
      i := i + 1;
    }
    index := index + 4;
  }

  /** One pass of the west/east wall loop: on the first pass the pairs of
      row 0, then on every pass the pairs of the next row and the triangles
      between the two rows. */
  method WestEastPass(n: nat, h: real, m: Mesh, vs0: seq<Vec3>, ns0: seq<Vec3>, uvs0: seq<Vec2>,
                      tris0: seq<nat>, base: nat, index: nat, i: nat)
    returns (vs: seq<Vec3>, ns: seq<Vec3>, uvs: seq<Vec2>, tris: seq<nat>)
    requires n >= 2 && m.Aligned() && |m.vertices| >= n * n && base == |m.vertices|
    requires i < n - 1
    requires Built(n, h, m, vs0, ns0, uvs0, if i == 0 then 2 * n else 2 * n + 4 * i + 4)
    requires Indexed(n, base, tris0, 6 * (n - 1) + 12 * i)
    requires index == base + 2 * n + 4 * i
    ensures Built(n, h, m, vs, ns, uvs, 2 * n + 4 * (i + 1) + 4)
    ensures Indexed(n, base, tris, 6 * (n - 1) + 12 * (i + 1))
  {
    var columns := n - 1;
    vs, ns, uvs := vs0, ns0, uvs0;
    if i == 0 {
      vs, ns, uvs := AppendWestEastRow(n, h, m, vs, ns, uvs, i, 0.0);
    }
    var u := ((i as real) + 1.0) / (columns as real);
    vs, ns, uvs := AppendWestEastRow(n, h, m, vs, ns, uvs, i + 1, u);
    tris := AppendWestEastSegment(n, base, tris0, i, index);
  }

  /** The south wall loop, which walks the flat indices of the last grid row
      and derives each column's texture coordinate from its distance to the
      end of the grid. Continues from the west/east walls' buffers. */
  method CreateSouthWall(n: nat, h: real, m: Mesh,
                         vs0: seq<Vec3>, ns0: seq<Vec3>, uvs0: seq<Vec2>, tris0: seq<nat>, index0: nat)
    returns (vs: seq<Vec3>, ns: seq<Vec3>, uvs: seq<Vec2>, tris: seq<nat>)
    requires n >= 2 && m.Aligned() && |m.vertices| >= n * n
    requires Built(n, h, m, vs0, ns0, uvs0, 6 * n)
    requires Indexed(n, |m.vertices|, tris0, 18 * (n - 1))
    requires index0 == |m.vertices| + 6 * n
    ensures Built(n, h, m, vs, ns, uvs, WallVertexCount(n))
    ensures Indexed(n, |m.vertices|, tris, WallIndexCount(n))
  {
    vs, ns, uvs, tris := vs0, ns0, uvs0, tris0;
    var index := index0;
    var base := |m.vertices|;
    var cc := n * n;
    var i := cc - n;
    ghost var step := 0;
    while i < cc - 1
      invariant i == cc - n + step && step <= n - 1
      invariant Built(n, h, m, vs, ns, uvs, if step == 0 then 6 * n else 6 * n + 2 * step + 2)
      invariant Indexed(n, base, tris, 18 * (n - 1) + 6 * step)
      invariant index == base + 6 * n + 2 * step
    {
      vs, ns, uvs, tris := SouthPass(n, h, m, vs, ns, uvs, tris, base, index, cc, i, step);
      index := index + 2;
      i := i + 1;
      step := step + 1;
    }
  }

  /** One pass of the south wall loop at flat index i of the last row: on the
      first pass the pair of that vertex, then on every pass the pair of the
      next vertex and the triangles between the two. */
  method SouthPass(n: nat, h: real, m: Mesh, vs0: seq<Vec3>, ns0: seq<Vec3>, uvs0: seq<Vec2>,
                   tris0: seq<nat>, base: nat, index: nat, cc: nat, i: nat, ghost step: nat)
    returns (vs: seq<Vec3>, ns: seq<Vec3>, uvs: seq<Vec2>, tris: seq<nat>)
    requires n >= 2 && m.Aligned() && |m.vertices| >= n * n && base == |m.vertices|
    requires cc == n * n && i == cc - n + step && step < n - 1
    requires Built(n, h, m, vs0, ns0, uvs0, if step == 0 then 6 * n else 6 * n + 2 * step + 2)
    requires Indexed(n, base, tris0, 18 * (n - 1) + 6 * step)
    requires index == base + 6 * n + 2 * step
    ensures Built(n, h, m, vs, ns, uvs, 6 * n + 2 * (step + 1) + 2)
    ensures Indexed(n, base, tris, 18 * (n - 1) + 6 * (step + 1))
  {
    var columns := n - 1;
    vs, ns, uvs := vs0, ns0, uvs0;
    if i == cc - n {
      vs, ns, uvs := AppendSouthColumn(n, h, m, vs, ns, uvs, 0, 0.0);
    }
    var column := n - (cc - i);
    var u := (column as real + 1.0) / (columns as real);
    vs, ns, uvs, tris := SouthStep(n, h, m, vs, ns, uvs, tris0, base, index, column, u);
  }

  /** The part of a south wall pass every pass does: the pair of the vertex
      after column `column`, then the two triangles between the pairs. */
  method SouthStep(n: nat, h: real, m: Mesh, vs0: seq<Vec3>, ns0: seq<Vec3>, uvs0: seq<Vec2>,
                   tris0: seq<nat>, base: nat, index: nat, column: nat, u: real)
    returns (vs: seq<Vec3>, ns: seq<Vec3>, uvs: seq<Vec2>, tris: seq<nat>)
    requires n >= 2 && m.Aligned() && |m.vertices| >= n * n && column < n - 1
    requires Built(n, h, m, vs0, ns0, uvs0, 6 * n + 2 * column + 2)
    requires Indexed(n, base, tris0, 18 * (n - 1) + 6 * column)
    requires index == base + 6 * n + 2 * column && u == (column as real + 1.0) / ((n - 1) as real)
    ensures Built(n, h, m, vs, ns, uvs, 6 * n + 2 * (column + 1) + 2)
    ensures Indexed(n, base, tris, 18 * (n - 1) + 6 * (column + 1))
  {
    assert u == Ratio(column + 1, n);
    vs, ns, uvs := AppendSouthColumn(n, h, m, vs0, ns0, uvs0, column + 1, u);
    tris := AppendSouthSegment(n, base, tris0, column, index);
  }

  /** Appends the four side walls to a mesh: the three loops in order, north,
      west/east, south, each continuing where the previous one stopped. The
      result is exactly the reference layout of the walled mesh. */
  method CreateSides(n: nat, h: real, m: Mesh) returns (r: Mesh)
    requires n >= 2 && m.Aligned() && |m.vertices| >= n * n
    ensures r == WithWalls(n, h, m)
  {
    var vs, ns, uvs, tris, index := CreateNorthWall(n, h, m);
    vs, ns, uvs, tris, index := CreateWestEastWalls(n, h, m, vs, ns, uvs, tris, index);
    vs, ns, uvs, tris := CreateSouthWall(n, h, m, vs, ns, uvs, tris, index);
    BuiltIsWithWalls(n, h, m, vs, ns, uvs, tris);
    r := m.(vertices := vs, normals := ns, uv := uvs, wallTriangles := tris);
  }

  /** Base mesh vertex (x, y) is the grid vertex of that cell. */
  lemma BaseVertexAt(n: nat, rect: Rect, scale: real, x: nat, y: nat)
    requires n >= 2 && x < n && y < n
    ensures Idx(n, x, y) < n * n
    ensures BaseMesh(n, rect, scale).vertices[Idx(n, x, y)] == GridVertex(n, rect, scale, x, y)
  {
    IdxInGrid(n, x, y);
    CellOfIdx(n, x, y);
  }

  /** One border vertex of the base mesh lies in its wall's plane. */
  lemma BaseMeshFramedAt(n: nat, rect: Rect, scale: real, side: Side, i: nat)
    requires n >= 2 && i < n
    ensures var v := BaseMesh(n, rect, scale).vertices;
      Across(side, v[SideCell(n, side, i)]) == Across(side, v[SideCell(n, side, 0)])
  {
    var c: (nat, nat, nat, nat) := match side
      case NorthWall => (i, 0, 0, 0)
      case WestWall => (0, i, 0, 0)
      case EastWall => (n - 1, i, n - 1, 0)
      case SouthWall => (i, n - 1, 0, n - 1);
    var x1, y1, x0, y0 := c.0, c.1, c.2, c.3;
    assert SideCell(n, side, i) == Idx(n, x1, y1) && SideCell(n, side, 0) == Idx(n, x0, y0);
    BaseVertexAt(n, rect, scale, x1, y1);
    BaseVertexAt(n, rect, scale, x0, y0);
    var p, q := GridVertex(n, rect, scale, x1, y1), GridVertex(n, rect, scale, x0, y0);
    assert Across(side, p) == Across(side, q);
  }

  /** The flat base mesh is laid out on a rectangle, so its border is framed. */
  lemma BaseMeshFramed(n: nat, rect: Rect, scale: real)
    requires n >= 2
    ensures Framed(n, BaseMesh(n, rect, scale).vertices)
  {
    forall side: Side, i | 0 <= i < n
      ensures var v := BaseMesh(n, rect, scale).vertices;
        Across(side, v[SideCell(n, side, i)]) == Across(side, v[SideCell(n, side, 0)])
    {
      BaseMeshFramedAt(n, rect, scale, side, i);
    }
  }

  /** The signed step between neighbouring border vertices of a wall of the
      flat base mesh: one column of the rectangle's width for the north and
      south walls, one row of its height, negated, for the west and east
      walls; both scaled. */
  function BaseStep(n: nat, rect: Rect, scale: real, side: Side): real
    requires n >= 2
  {
    if side == NorthWall || side == SouthWall then (rect.maxX - rect.minX) * scale / (n - 1) as real
    else (rect.minY - rect.maxY) * scale / (n - 1) as real
  }

  /** On a rectangle whose X grows from minimum to maximum and whose Y falls,
      at a positive scale, every wall of the base mesh steps forward. */
  lemma BaseStepPositive(n: nat, rect: Rect, scale: real, side: Side)
    requires n >= 2
    ensures scale > 0.0 && rect.minX < rect.maxX && rect.maxY < rect.minY ==> BaseStep(n, rect, scale, side) > 0.0
  {
    if scale > 0.0 && rect.minX < rect.maxX && rect.maxY < rect.minY {
      var w := if side == NorthWall || side == SouthWall then rect.maxX - rect.minX else rect.minY - rect.maxY;
      assert w * scale > 0.0;
      assert BaseStep(n, rect, scale, side) == w * scale / (n - 1) as real;
    }
  }

  /** One grid step along the interpolation moves a scaled coordinate by one
      (n-1)-th of the scaled span. */
  lemma LerpStep(n: nat, lo: real, hi: real, c: real, scale: real, i: nat)
    requires n >= 2 && i + 1 < n
    ensures (Lerp(lo, hi, Ratio(i + 1, n)) - c) * scale - (Lerp(lo, hi, Ratio(i, n)) - c) * scale
            == (hi - lo) * scale / (n - 1) as real
  {
    RatioInUnit(n, i);
    RatioInUnit(n, i + 1);
    var d, r0, r1 := (n - 1) as real, Ratio(i, n), Ratio(i + 1, n);
    assert r1 - r0 == 1.0 / d;
    assert (lo + (hi - lo) * r1 - c) * scale - (lo + (hi - lo) * r0 - c) * scale == (hi - lo) * scale * (r1 - r0);
    assert (hi - lo) * scale * (1.0 / d) == (hi - lo) * scale / d;
  }

  /** The base mesh steps evenly along each wall: the signed step between any
      two neighbouring border vertices is BaseStep. */
  lemma BaseMeshAdvance(n: nat, rect: Rect, scale: real, side: Side, i: nat)
    requires n >= 2 && i + 1 < n
    ensures var v := BaseMesh(n, rect, scale).vertices;
      Advance(side, v[SideCell(n, side, i)], v[SideCell(n, side, i + 1)]) == BaseStep(n, rect, scale, side)
  {
    BaseBorderVertex(n, rect, scale, side, i);
    BaseBorderVertex(n, rect, scale, side, i + 1);
    GridAdvance(n, rect, scale, side, i);
  }

  /** The grid column of border vertex i of a wall. */
  function BorderX(n: nat, side: Side, i: nat): nat
    requires n >= 2
  {
    match side
    case NorthWall => i
    case WestWall => 0
    case EastWall => n - 1
    case SouthWall => i
  }

  /** The grid row of border vertex i of a wall. */
  function BorderY(n: nat, side: Side, i: nat): nat
    requires n >= 2
  {
    match side
    case NorthWall => 0
    case WestWall => i
    case EastWall => i
    case SouthWall => n - 1
  }

  /** Border vertex i of a wall of the base mesh is the flat grid vertex at
      its column and row. */
  lemma BaseBorderVertex(n: nat, rect: Rect, scale: real, side: Side, i: nat)
    requires n >= 2 && i < n
    ensures BorderX(n, side, i) < n && BorderY(n, side, i) < n
    ensures BaseMesh(n, rect, scale).vertices[SideCell(n, side, i)]
            == GridVertex(n, rect, scale, BorderX(n, side, i), BorderY(n, side, i))
  {
    var x, y := BorderX(n, side, i), BorderY(n, side, i);
    assert SideCell(n, side, i) == Idx(n, x, y);
    BaseVertexAt(n, rect, scale, x, y);
  }

  /** On the flat grid, neighbouring border vertices of a wall are BaseStep
      apart along it. */
  lemma GridAdvance(n: nat, rect: Rect, scale: real, side: Side, i: nat)
    requires n >= 2 && i + 1 < n
    ensures Advance(side, GridVertex(n, rect, scale, BorderX(n, side, i), BorderY(n, side, i)),
                    GridVertex(n, rect, scale, BorderX(n, side, i + 1), BorderY(n, side, i + 1)))
            == BaseStep(n, rect, scale, side)
  {
    match side
    case NorthWall => GridStepAcross(n, rect, scale, side, i, 0);
    case SouthWall => GridStepAcross(n, rect, scale, side, i, n - 1);
    case WestWall => GridStepDown(n, rect, scale, side, 0, i);
    case EastWall => GridStepDown(n, rect, scale, side, n - 1, i);
  }

  /** GridVertex steps by one column of the scaled width from column x to
      column x + 1: the step along the north and south walls. */
  lemma GridStepAcross(n: nat, rect: Rect, scale: real, side: Side, x: nat, y: nat)
    requires n >= 2 && x + 1 < n && (side == NorthWall || side == SouthWall)
    ensures Advance(side, GridVertex(n, rect, scale, x, y), GridVertex(n, rect, scale, x + 1, y)) == BaseStep(n, rect, scale, side)
  {
    GridColumnStep(n, rect, scale, x, y);
    var a, c := GridVertex(n, rect, scale, x, y), GridVertex(n, rect, scale, x + 1, y);
    assert Advance(side, a, c) == c.x - a.x;
  }

  /** From column x to column x + 1, GridVertex's X grows by one column of
      the scaled width. */
  lemma GridColumnStep(n: nat, rect: Rect, scale: real, x: nat, y: nat)
    requires n >= 2 && x + 1 < n
    ensures GridVertex(n, rect, scale, x + 1, y).x - GridVertex(n, rect, scale, x, y).x
            == (rect.maxX - rect.minX) * scale / (n - 1) as real
  {
    LerpStep(n, rect.minX, rect.maxX, rect.centerX, scale, x);
  }

  /** GridVertex's Z falls by one row of the scaled height from row y to row
      y + 1: the step along the west and east walls. */
  lemma GridStepDown(n: nat, rect: Rect, scale: real, side: Side, x: nat, y: nat)
    requires n >= 2 && y + 1 < n && (side == WestWall || side == EastWall)
    ensures Advance(side, GridVertex(n, rect, scale, x, y), GridVertex(n, rect, scale, x, y + 1)) == BaseStep(n, rect, scale, side)
  {
    GridRowStep(n, rect, scale, x, y);
    var a, c := GridVertex(n, rect, scale, x, y), GridVertex(n, rect, scale, x, y + 1);
    assert Advance(side, a, c) == a.z - c.z;
  }

  /** From row y to row y + 1, GridVertex's Z falls by one row of the scaled
      height, negated. */
  lemma GridRowStep(n: nat, rect: Rect, scale: real, x: nat, y: nat)
    requires n >= 2 && y + 1 < n
    ensures GridVertex(n, rect, scale, x, y).z - GridVertex(n, rect, scale, x, y + 1).z
            == (rect.minY - rect.maxY) * scale / (n - 1) as real
  {
    LerpStep(n, rect.minY, rect.maxY, rect.centerY, scale, y);
    assert -((rect.maxY - rect.minY) * scale / (n - 1) as real) == (rect.minY - rect.maxY) * scale / (n - 1) as real;
  }

  /** Moving grid vertices only vertically keeps a framed border framed. */
  lemma FramedOverSameGround(n: nat, u: seq<Vec3>, v: seq<Vec3>)
    requires n >= 2 && |u| >= n * n && |v| >= n * n
    requires forall j :: 0 <= j < n * n ==> SameGround(u[j], v[j])
    requires Framed(n, v)
    ensures Framed(n, u)
  {
    forall side: Side, i | 0 <= i < n
      ensures Across(side, u[SideCell(n, side, i)]) == Across(side, u[SideCell(n, side, 0)])
    {
      assert SameGround(u[SideCell(n, side, i)], v[SideCell(n, side, i)]);
      assert SameGround(u[SideCell(n, side, 0)], v[SideCell(n, side, 0)]);
    }
  }
}
