/** Height displacement of the grid and per-vertex normal accumulation. */
module Displacement {
  import opened Geometry
  import opened Grid

  /** Replaces the Y of every grid vertex with the height sampled at the
      cell's texture coordinate, and resets every grid normal to zero so it can
      accumulate face normals. Entries past the grid are left alone. */
  function Displace(n: nat, s: Surface, height: (real, real) -> real): (r: Surface)
    requires n >= 2 && Fits(n, s)
    ensures |r.vertices| == |s.vertices| && |r.normals| == |s.normals|
    ensures forall j :: 0 <= j < |s.vertices| ==> SameGround(r.vertices[j], s.vertices[j])
    ensures forall j :: n * n <= j < |s.vertices| ==> r.vertices[j] == s.vertices[j]
    ensures forall j :: 0 <= j < n * n ==> r.normals[j] == Zero
    ensures forall j :: n * n <= j < |s.normals| ==> r.normals[j] == s.normals[j]
  {
    Surface(
      seq(|s.vertices|, j requires 0 <= j < |s.vertices| =>
        if j < n * n then
          var uv := CellUv(n, Col(n, j), Row(n, j));
          Vec3(s.vertices[j].x, height(uv.u, uv.v), s.vertices[j].z)
        else s.vertices[j]),
      seq(|s.normals|, j requires 0 <= j < |s.normals| => if j < n * n then Zero else s.normals[j]))
  }

  /** Texture and height stay aligned: every grid vertex of a displaced base
      mesh takes the height sampled at exactly that vertex's UV. */
  lemma HeightSampledAtVertexUv(n: nat, rect: Rect, scale: real, height: (real, real) -> real, j: nat)
    requires n >= 2 && j < n * n
    ensures var b := BaseMesh(n, rect, scale);
      Displace(n, b.AsSurface(), height).vertices[j].y == height(b.uv[j].u, b.uv[j].v)
  {
  }

  /** A triangle list whose indices all address vertices and normals. */
  predicate ValidTriangles(tris: seq<nat>, vertexCount: nat, normalCount: nat) {
    && |tris| % 3 == 0
    && forall t :: 0 <= t < |tris| ==> tris[t] < vertexCount && tris[t] < normalCount
  }

  /** The unnormalised face normal of triangle (a, b, c): cross(B - A, C - A). */
  function FaceNormal(v: seq<Vec3>, a: nat, b: nat, c: nat): Vec3
    requires a < |v| && b < |v| && c < |v|
  {
    Cross(Sub(v[b], v[a]), Sub(v[c], v[a]))
  }

  /** Adds one face normal into the normals of A, then B, then C. */
  function AddFace(v: seq<Vec3>, normals: seq<Vec3>, a: nat, b: nat, c: nat): (r: seq<Vec3>)
    requires a < |v| && b < |v| && c < |v|
    requires a < |normals| && b < |normals| && c < |normals|
    ensures |r| == |normals|
  {
    var f := FaceNormal(v, a, b, c);
    var na := normals[a := Add(normals[a], f)];
    var nb := na[b := Add(na[b], f)];
    nb[c := Add(nb[c], f)]
  }

  /** The accumulation loop: every triangle in list order adds its face normal
      into its three vertices' normals. */
  function AccumulateNormals(v: seq<Vec3>, normals: seq<Vec3>, tris: seq<nat>): (r: seq<Vec3>)
    requires ValidTriangles(tris, |v|, |normals|)
    ensures |r| == |normals|
    decreases |tris|
  {
    if |tris| == 0 then normals
    else AccumulateNormals(v, AddFace(v, normals, tris[0], tris[1], tris[2]), tris[3..])
  }

  /** What triangle (a, b, c) adds to vertex j: its face normal once for each
      of its corners that is j. */
  function Contribution(v: seq<Vec3>, a: nat, b: nat, c: nat, j: nat): Vec3
    requires a < |v| && b < |v| && c < |v|
  {
    var f := FaceNormal(v, a, b, c);
    Add(Add(if a == j then f else Zero, if b == j then f else Zero), if c == j then f else Zero)
  }

  /** The sum of the face normals of the triangles incident to vertex j. */
  function IncidentSum(v: seq<Vec3>, tris: seq<nat>, j: nat): Vec3
    requires ValidTriangles(tris, |v|, |v|)
    decreases |tris|
  {
    if |tris| == 0 then Zero
    else Add(Contribution(v, tris[0], tris[1], tris[2], j), IncidentSum(v, tris[3..], j))
  }

  /** Accumulation computes, at every vertex, its starting normal plus the sum
      of the face normals of the triangles incident to it. */
  lemma {:induction false} AccumulatedNormalIsIncidentSum(v: seq<Vec3>, normals: seq<Vec3>, tris: seq<nat>, j: nat)
    requires ValidTriangles(tris, |v|, |normals|) && j < |normals|
    ensures ValidTriangles(tris, |v|, |v|)
    ensures AccumulateNormals(v, normals, tris)[j] == Add(normals[j], IncidentSum(v, tris, j))
    decreases |tris|
  {
    if |tris| > 0 {
      var next := AddFace(v, normals, tris[0], tris[1], tris[2]);
      AddFaceAt(v, normals, tris[0], tris[1], tris[2], j);
      AccumulatedNormalIsIncidentSum(v, next, tris[3..], j);
    }
  }

  /** Adding one face changes the normal of vertex j by that triangle's
      contribution to j. */
  lemma AddFaceAt(v: seq<Vec3>, normals: seq<Vec3>, a: nat, b: nat, c: nat, j: nat)
    requires a < |v| && b < |v| && c < |v|
    requires a < |normals| && b < |normals| && c < |normals| && j < |normals|
    ensures AddFace(v, normals, a, b, c)[j] == Add(normals[j], Contribution(v, a, b, c, j))
  {
    var f := FaceNormal(v, a, b, c);
    var ea, eb, ec := (if a == j then f else Zero), (if b == j then f else Zero), (if c == j then f else Zero);
    var na := normals[a := Add(normals[a], f)];
    var nb := na[b := Add(na[b], f)];
    assert na[j] == Add(normals[j], ea) by { AddZero(normals[j]); }
    assert nb[j] == Add(na[j], eb) by { AddZero(na[j]); }
    assert AddFace(v, normals, a, b, c)[j] == Add(nb[j], ec) by { AddZero(nb[j]); }
    AddRegroup(normals[j], ea, eb, ec);
  }

  /** The incident sum of a concatenation is the sum of the parts' sums. */
  lemma {:induction false} IncidentSumAppend(v: seq<Vec3>, a: seq<nat>, b: seq<nat>, j: nat)
    requires ValidTriangles(a, |v|, |v|) && ValidTriangles(b, |v|, |v|)
    ensures ValidTriangles(a + b, |v|, |v|)
    ensures IncidentSum(v, a + b, j) == Add(IncidentSum(v, a, j), IncidentSum(v, b, j))
    decreases |a|
  {
    ConcatValid(a, b, |v|, |v|);
    if |a| == 0 {
      assert a + b == b;
    } else {
      var ab, rest := a + b, a[3..];
      assert ab[0] == a[0] && ab[1] == a[1] && ab[2] == a[2];
      assert ab[3..] == rest + b;
      assert ValidTriangles(rest, |v|, |v|) by {
        assert forall t :: 0 <= t < |rest| ==> rest[t] == a[t + 3];
      }
      IncidentSumAppend(v, rest, b, j);
      var c := Contribution(v, a[0], a[1], a[2], j);
      assert IncidentSum(v, ab, j) == Add(c, IncidentSum(v, rest + b, j));
      assert IncidentSum(v, a, j) == Add(c, IncidentSum(v, rest, j));
      AddAssoc(c, IncidentSum(v, rest, j), IncidentSum(v, b, j));
    }
  }

  /** Concatenating two valid triangle lists gives a valid list. */
  lemma ConcatValid(a: seq<nat>, b: seq<nat>, vertexCount: nat, normalCount: nat)
    requires ValidTriangles(a, vertexCount, normalCount) && ValidTriangles(b, vertexCount, normalCount)
    ensures ValidTriangles(a + b, vertexCount, normalCount)
  {
    assert forall t :: 0 <= t < |a + b| ==> (a + b)[t] == if t < |a| then a[t] else b[t - |a|];
  }

  /** At one vertex, visiting a before b or b before a accumulates the same normal. */
  lemma AccumulationOrderIrrelevantAt(v: seq<Vec3>, normals: seq<Vec3>, a: seq<nat>, b: seq<nat>, j: nat)
    requires ValidTriangles(a, |v|, |normals|) && ValidTriangles(b, |v|, |normals|) && j < |normals|
    ensures ValidTriangles(a + b, |v|, |normals|) && ValidTriangles(b + a, |v|, |normals|)
    ensures AccumulateNormals(v, normals, a + b)[j] == AccumulateNormals(v, normals, b + a)[j]
  {
    ConcatValid(a, b, |v|, |normals|);
    ConcatValid(b, a, |v|, |normals|);
    var sa, sb := IncidentSum(v, a, j), IncidentSum(v, b, j);
    assert AccumulateNormals(v, normals, a + b)[j] == Add(normals[j], Add(sa, sb)) by {
      AccumulatedNormalIsIncidentSum(v, normals, a + b, j);
      IncidentSumAppend(v, a, b, j);
    }
    assert AccumulateNormals(v, normals, b + a)[j] == Add(normals[j], Add(sb, sa)) by {
      AccumulatedNormalIsIncidentSum(v, normals, b + a, j);
      IncidentSumAppend(v, b, a, j);
    }
  }

  /** The order in which triangles are visited does not change the
      accumulated normals. */
  lemma AccumulationOrderIrrelevant(v: seq<Vec3>, normals: seq<Vec3>, a: seq<nat>, b: seq<nat>)
    requires ValidTriangles(a, |v|, |normals|) && ValidTriangles(b, |v|, |normals|)
    ensures ValidTriangles(a + b, |v|, |normals|) && ValidTriangles(b + a, |v|, |normals|)
    ensures AccumulateNormals(v, normals, a + b) == AccumulateNormals(v, normals, b + a)
  {
    OrderIrrelevantEverywhere(v, normals, a, b);
  }

  /** Order irrelevance at every vertex at once. */
  lemma OrderIrrelevantEverywhere(v: seq<Vec3>, normals: seq<Vec3>, a: seq<nat>, b: seq<nat>)
    requires ValidTriangles(a, |v|, |normals|) && ValidTriangles(b, |v|, |normals|)
    ensures ValidTriangles(a + b, |v|, |normals|) && ValidTriangles(b + a, |v|, |normals|)
    ensures forall j :: 0 <= j < |normals| ==>
      AccumulateNormals(v, normals, a + b)[j] == AccumulateNormals(v, normals, b + a)[j]
  {
    ConcatValid(a, b, |v|, |normals|);
    ConcatValid(b, a, |v|, |normals|);
    forall j | 0 <= j < |normals|
      ensures AccumulateNormals(v, normals, a + b)[j] == AccumulateNormals(v, normals, b + a)[j]
    {
      AccumulationOrderIrrelevantAt(v, normals, a, b, j);
    }
  }

  /** Triangles whose corners all lie at height h have vertical face normals,
      so their sum has no X or Z component. */
  lemma {:induction false} LevelTrianglesSumVertical(v: seq<Vec3>, tris: seq<nat>, j: nat, h: real)
    requires ValidTriangles(tris, |v|, |v|)
    requires forall t :: 0 <= t < |tris| ==> v[tris[t]].y == h
    ensures IncidentSum(v, tris, j).x == 0.0 && IncidentSum(v, tris, j).z == 0.0
    decreases |tris|
  {
    if |tris| > 0 {
      assert v[tris[0]].y == h && v[tris[1]].y == h && v[tris[2]].y == h;
      CrossOfLevelEdges(Sub(v[tris[1]], v[tris[0]]), Sub(v[tris[2]], v[tris[0]]));
      LevelTrianglesSumVertical(v, tris[3..], j, h);
    }
  }

  /** A constant height source levels every grid vertex at that height. */
  lemma ConstantHeightLevelsGrid(n: nat, s: Surface, height: (real, real) -> real, h: real)
    requires n >= 2 && Fits(n, s)
    requires forall u, w :: height(u, w) == h
    ensures forall j :: 0 <= j < n * n ==> Displace(n, s, height).vertices[j].y == h
  {
  }

  /** A constant height source gives a level grid whose accumulated normals
      all point straight up or down (no X or Z component). */
  lemma ConstantHeightGivesVerticalNormals(n: nat, s: Surface, height: (real, real) -> real, h: real)
    requires n >= 2 && Fits(n, s)
    requires forall u, w :: height(u, w) == h
    ensures var d := Displace(n, s, height);
      && ValidTriangles(SurfaceTriangles(n), |d.vertices|, |d.normals|)
      && var acc := AccumulateNormals(d.vertices, d.normals, SurfaceTriangles(n));
         forall j :: 0 <= j < n * n ==> acc[j].x == 0.0 && acc[j].z == 0.0
  {
    var d := Displace(n, s, height);
    var tris := SurfaceTriangles(n);
    ConstantHeightLevelsGrid(n, s, height, h);
    assert ValidTriangles(tris, |d.vertices|, |d.normals|);
    assert forall t :: 0 <= t < |tris| ==> d.vertices[tris[t]].y == h;
    var acc := AccumulateNormals(d.vertices, d.normals, tris);
    forall j | 0 <= j < n * n
      ensures acc[j].x == 0.0 && acc[j].z == 0.0
    {
      AccumulatedNormalIsIncidentSum(d.vertices, d.normals, tris, j);
      LevelTrianglesSumVertical(d.vertices, tris, j, h);
    }
  }

  /** Displacement reads only the ground position (X and Z) of each grid
      vertex, so two surfaces over the same ground with the same entries past
      the grid displace to the same surface. */
  lemma DisplaceReadsOnlyGround(n: nat, a: Surface, b: Surface, height: (real, real) -> real)
    requires n >= 2 && Fits(n, a) && Fits(n, b)
    requires |a.vertices| == |b.vertices| && |a.normals| == |b.normals|
    requires forall j :: 0 <= j < n * n ==> SameGround(a.vertices[j], b.vertices[j])
    requires forall j :: n * n <= j < |a.vertices| ==> a.vertices[j] == b.vertices[j]
    requires forall j :: n * n <= j < |a.normals| ==> a.normals[j] == b.normals[j]
    ensures Displace(n, a, height) == Displace(n, b, height)
  {
    var da, db := Displace(n, a, height), Displace(n, b, height);
    assert da.vertices == db.vertices;
    assert da.normals == db.normals;
  }

  /** A vertex no triangle references keeps its normal through accumulation. */
  lemma {:induction false} AccumulateLeavesUnreferenced(v: seq<Vec3>, normals: seq<Vec3>, tris: seq<nat>, j: nat)
    requires ValidTriangles(tris, |v|, |normals|) && j < |normals|
    requires forall t :: 0 <= t < |tris| ==> tris[t] != j
    ensures AccumulateNormals(v, normals, tris)[j] == normals[j]
    decreases |tris|
  {
    if |tris| > 0 {
      var next := AddFace(v, normals, tris[0], tris[1], tris[2]);
      assert next[j] == normals[j];
      AccumulateLeavesUnreferenced(v, next, tris[3..], j);
    }
  }

  /** Grid vertex (x, y) after displacement: the height sampled at
      (x / (n-1), 1 - y / (n-1)) over the same ground, with a cleared normal. */
  lemma DisplacedAt(n: nat, s: Surface, height: (real, real) -> real, x: nat, y: nat)
    requires n >= 2 && Fits(n, s) && x < n && y < n
    ensures Idx(n, x, y) < n * n
    ensures var j := Idx(n, x, y);
      var d := Displace(n, s, height);
      && d.vertices[j] == Vec3(s.vertices[j].x, height((x as real) / ((n - 1) as real), 1.0 - (y as real) / ((n - 1) as real)), s.vertices[j].z)
      && d.normals[j] == Zero
  {
    IdxInGrid(n, x, y);
    CellOfIdx(n, x, y);
    var j := Idx(n, x, y);
    var uv := CellUv(n, Col(n, j), Row(n, j));
    assert uv == Vec2((x as real) / ((n - 1) as real), 1.0 - (y as real) / ((n - 1) as real));
    assert Displace(n, s, height).vertices[j] == Vec3(s.vertices[j].x, height(uv.u, uv.v), s.vertices[j].z);
  }

  /** The displacement loop, row by row and column by column: each grid
      vertex takes the height sampled at (x / (n-1), 1 - y / (n-1)) and its
      normal is cleared. */
  method DisplaceGrid(n: nat, s: Surface, height: (real, real) -> real) returns (r: Surface)
    requires n >= 2 && Fits(n, s)
    ensures r == Displace(n, s, height)
  {
    ghost var target := Displace(n, s, height);
    var vertices, normals := s.vertices, s.normals;
    var y := 0;
    while y < n
      invariant 0 <= y <= n
      invariant |vertices| == |s.vertices| && |normals| == |s.normals|
      invariant DisplacedUpTo(n, s, target, vertices, normals, y * n)
    {
      var x := 0;
      assert (y + 1) * n <= n * n by {
        MulMono(y + 1, n, n);
      }
      while x < n
        invariant 0 <= x <= n
        invariant |vertices| == |s.vertices| && |normals| == |s.normals|
        invariant y * n + x <= n * n
        invariant DisplacedUpTo(n, s, target, vertices, normals, y * n + x)
      {
        var j := y * n + x;
        DisplacedAt(n, s, height, x, y);
        var h := height((x as real) / ((n - 1) as real), 1.0 - (y as real) / ((n - 1) as real));
        vertices := vertices[j := Vec3(vertices[j].x, h, vertices[j].z)];
        normals := normals[j := Zero];
        x := x + 1;
      }
      MulSucc(y, n);
      y := y + 1;
    }
    r := Surface(vertices, normals);
    assert r.vertices == target.vertices;
    assert r.normals == target.normals;
  }

  /** The loop's buffers agree with the displaced surface t below flat index
      k and with the original surface s from k on. */
  ghost predicate DisplacedUpTo(n: nat, s: Surface, t: Surface, vertices: seq<Vec3>, normals: seq<Vec3>, k: nat)
    requires |vertices| == |s.vertices| == |t.vertices| && |normals| == |s.normals| == |t.normals|
  {
    && (forall j :: 0 <= j < k && j < |vertices| ==> vertices[j] == t.vertices[j])
    && (forall j :: 0 <= j < k && j < |normals| ==> normals[j] == t.normals[j])
    && (forall j :: k <= j < |vertices| ==> vertices[j] == s.vertices[j])
    && (forall j :: k <= j < |normals| ==> normals[j] == s.normals[j])
  }

  /** Accumulating a concatenation accumulates the first part, then the
      second part on top. */
  lemma {:induction false} AccumulateAppend(v: seq<Vec3>, normals: seq<Vec3>, a: seq<nat>, b: seq<nat>)
    requires ValidTriangles(a, |v|, |normals|) && ValidTriangles(b, |v|, |normals|)
    ensures ValidTriangles(a + b, |v|, |normals|)
    ensures AccumulateNormals(v, normals, a + b) == AccumulateNormals(v, AccumulateNormals(v, normals, a), b)
    decreases |a|
  {
    ConcatValid(a, b, |v|, |normals|);
    if |a| == 0 {
      assert a + b == b;
    } else {
      var ab := a + b;
      assert ab[0] == a[0] && ab[1] == a[1] && ab[2] == a[2];
      assert ab[3..] == a[3..] + b;
      var next := AddFace(v, normals, a[0], a[1], a[2]);
      AccumulateAppend(v, next, a[3..], b);
    }
  }

  /** Accumulating one cell's six indices adds its two face normals in order. */
  lemma AccumulateCell(v: seq<Vec3>, normals: seq<Vec3>, n: nat, x: nat, y: nat)
    requires n >= 2 && x < n - 1 && y < n - 1 && |v| >= n * n && |normals| >= n * n
    ensures Idx(n, x, y) + n + 1 < n * n
    ensures ValidTriangles(CellTriangles(n, x, y), |v|, |normals|)
    ensures var a := Idx(n, x, y);
      AccumulateNormals(v, normals, CellTriangles(n, x, y))
        == AddFace(v, AddFace(v, normals, a, a + n + 1, a + n), a, a + 1, a + n + 1)
  {
    CellInGrid(n, x, y);
    var a := Idx(n, x, y);
    var t := CellTriangles(n, x, y);
    var first := AddFace(v, normals, a, a + n + 1, a + n);
    var second := AddFace(v, first, a, a + 1, a + n + 1);
    assert t[3..] == [a, a + 1, a + n + 1];
    assert t[3..][3..] == [];
    assert AccumulateNormals(v, second, t[3..][3..]) == second;
  }

  /** One cell of the accumulation loop extends the accumulated prefix pre
      by the cell's two triangles. */
  lemma AccumulateCellStep(v: seq<Vec3>, start: seq<Vec3>, normals: seq<Vec3>, n: nat, x: nat, y: nat, pre: seq<nat>)
    requires n >= 2 && x < n - 1 && y < n - 1 && |v| >= n * n && |start| >= n * n
    requires ValidTriangles(pre, |v|, |start|)
    requires normals == AccumulateNormals(v, start, pre)
    ensures Idx(n, x, y) + n + 1 < n * n && |normals| == |start|
    ensures ValidTriangles(pre + CellTriangles(n, x, y), |v|, |start|)
    ensures var a := Idx(n, x, y);
      AddFace(v, AddFace(v, normals, a, a + n + 1, a + n), a, a + 1, a + n + 1)
        == AccumulateNormals(v, start, pre + CellTriangles(n, x, y))
  {
    var cell := CellTriangles(n, x, y);
    AccumulateCell(v, normals, n, x, y);
    ConcatValid(pre, cell, |v|, |start|);
    AccumulateAppend(v, start, pre, cell);
  }

  /** Every prefix of the surface triangle list of whole triangles is valid. */
  lemma SurfacePrefixValid(n: nat, cells: nat, vertexCount: nat, normalCount: nat)
    requires n >= 2 && 6 * cells <= SurfaceIndexCount(n)
    requires vertexCount >= n * n && normalCount >= n * n
    ensures ValidTriangles(SurfaceTriangles(n)[..6 * cells], vertexCount, normalCount)
  {
  }

  /** Adds the face normal of triangle (a, b, c) into its corners' normals,
      one corner after the other. */
  method AddFaceNormal(v: seq<Vec3>, normals: seq<Vec3>, a: nat, b: nat, c: nat) returns (r: seq<Vec3>)
    requires a < |v| && b < |v| && c < |v|
    requires a < |normals| && b < |normals| && c < |normals|
    ensures r == AddFace(v, normals, a, b, c)
  {
    var dir := Cross(Sub(v[b], v[a]), Sub(v[c], v[a]));
    r := normals[a := Add(normals[a], dir)];
    r := r[b := Add(r[b], dir)];
    r := r[c := Add(r[c], dir)];
  }

  /** The body of the accumulation loop for cell (x, y): the face normal of
      triangle (A, A+n+1, A+n), then of (A, A+1, A+n+1), is added into the
      normals of its three corners. */
  method AccumulateCellNormals(v: seq<Vec3>, normals: seq<Vec3>, n: nat, x: nat, y: nat) returns (r: seq<Vec3>)
    requires n >= 2 && x < n - 1 && y < n - 1
    requires Idx(n, x, y) + n + 1 < |v| && Idx(n, x, y) + n + 1 < |normals|
    ensures var a := Idx(n, x, y);
      r == AddFace(v, AddFace(v, normals, a, a + n + 1, a + n), a, a + 1, a + n + 1)
  {
    var vertA := y * n + x;
    var vertB := y * n + x + n + 1;
    var vertC := y * n + x + n;
    r := AddFaceNormal(v, normals, vertA, vertB, vertC);
    vertA := y * n + x;
    vertB := y * n + x + 1;
    vertC := y * n + x + n + 1;
    r := AddFaceNormal(v, r, vertA, vertB, vertC);
  }

  /** The normals after accumulating the first `cells` cells of the surface
      triangle list. */
  function AccumulatedCells(n: nat, v: seq<Vec3>, start: seq<Vec3>, cells: nat): seq<Vec3>
    requires n >= 2 && |v| >= n * n && |start| >= n * n && 6 * cells <= SurfaceIndexCount(n)
  {
    SurfacePrefixValid(n, cells, |v|, |start|);
    AccumulateNormals(v, start, SurfaceTriangles(n)[..6 * cells])
  }

  /** The normal-accumulation loop over the grid cells: per cell, the face
      normal of triangle (A, A+n+1, A+n), then of (A, A+1, A+n+1), is added
      into the normals of its three corners. */
  method AccumulateGridNormals(n: nat, v: seq<Vec3>, start: seq<Vec3>) returns (normals: seq<Vec3>)
    requires n >= 2 && |v| >= n * n && |start| >= n * n
    ensures ValidTriangles(SurfaceTriangles(n), |v|, |start|)
    ensures normals == AccumulateNormals(v, start, SurfaceTriangles(n))
  {
    normals := start;
    ghost var cells := 0;
    assert SurfaceTriangles(n)[..0] == [];
    var y := 0;
    while y < n - 1
      invariant 0 <= y <= n - 1
      invariant cells == y * (n - 1) && 6 * cells <= SurfaceIndexCount(n)
      invariant normals == AccumulatedCells(n, v, start, cells)
    {
      normals := AccumulateRowNormals(n, v, start, normals, y, cells);
      MulSucc(y, n - 1);
      cells := cells + (n - 1);
      y := y + 1;
    }
    SurfacePrefixValid(n, cells, |v|, |start|);
    assert SurfaceTriangles(n)[..6 * cells] == SurfaceTriangles(n);
  }

  /** One pass of the accumulation loop's outer loop: the cells of grid row
      y, left to right, continuing from the first `cells` cells. */
  method AccumulateRowNormals(n: nat, v: seq<Vec3>, start: seq<Vec3>, normals0: seq<Vec3>, y: nat, ghost cells: nat)
    returns (normals: seq<Vec3>)
    requires n >= 2 && |v| >= n * n && |start| >= n * n && y < n - 1 && cells == y * (n - 1)
    requires 6 * cells <= SurfaceIndexCount(n)
    requires normals0 == AccumulatedCells(n, v, start, cells)
    ensures 6 * (cells + (n - 1)) <= SurfaceIndexCount(n)
    ensures normals == AccumulatedCells(n, v, start, cells + (n - 1))
  {
    normals := normals0;
    var x := 0;
    while x < n - 1
      invariant 0 <= x <= n - 1
      invariant 6 * (cells + x) <= SurfaceIndexCount(n)
      invariant normals == AccumulatedCells(n, v, start, cells + x)
    {
      SurfacePrefixStep(n, x, y);
      SurfacePrefixValid(n, cells + x, |v|, |start|);
      AccumulateCellStep(v, start, normals, n, x, y, SurfaceTriangles(n)[..6 * (cells + x)]);
      normals := AccumulateCellNormals(v, normals, n, x, y);
      x := x + 1;
    }
  }
}
