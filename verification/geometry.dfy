/** Vectors and mesh buffers of the elevated terrain strategy.

    Positions, normals and texture coordinates are modelled over the reals:
    the single-precision rounding of the engine's vector types is not modelled. */
module Geometry {

  /** A point or direction in the engine's 3D space (Y is up). */
  datatype Vec3 = Vec3(x: real, y: real, z: real)

  /** A texture coordinate. */
  datatype Vec2 = Vec2(u: real, v: real)

  const Zero := Vec3(0.0, 0.0, 0.0)
  const Up := Vec3(0.0, 1.0, 0.0)
  const Forward := Vec3(0.0, 0.0, 1.0)
  const Back := Vec3(0.0, 0.0, -1.0)
  const Left := Vec3(-1.0, 0.0, 0.0)
  const Right := Vec3(1.0, 0.0, 0.0)

  /** Componentwise sum. */
  function Add(a: Vec3, b: Vec3): Vec3 {
    Vec3(a.x + b.x, a.y + b.y, a.z + b.z)
  }

  /** Componentwise difference. */
  function Sub(a: Vec3, b: Vec3): Vec3 {
    Vec3(a.x - b.x, a.y - b.y, a.z - b.z)
  }

  /** A vector multiplied by a number. */
  function Scale(k: real, p: Vec3): Vec3 {
    Vec3(k * p.x, k * p.y, k * p.z)
  }

  /** The engine's cross product, used as the face normal of two triangle edges. */
  function Cross(a: Vec3, b: Vec3): Vec3 {
    Vec3(a.y * b.z - a.z * b.y, a.z * b.x - a.x * b.z, a.x * b.y - a.y * b.x)
  }

  /** Zero is neutral for addition. */
  lemma AddZero(x: Vec3)
    ensures Add(x, Zero) == x
  {
  }

  /** Vector addition is associative. */
  lemma AddAssoc(p: Vec3, q: Vec3, r: Vec3)
    ensures Add(p, Add(q, r)) == Add(Add(p, q), r)
  {
  }

  /** Adding three vectors one by one equals adding their sum. */
  lemma AddRegroup(x: Vec3, p: Vec3, q: Vec3, r: Vec3)
    ensures Add(Add(Add(x, p), q), r) == Add(x, Add(Add(p, q), r))
  {
  }

  /** Two edges lying in a horizontal plane give a vertical face normal. */
  lemma CrossOfLevelEdges(a: Vec3, b: Vec3)
    requires a.y == 0.0 && b.y == 0.0
    ensures Cross(a, b).x == 0.0 && Cross(a, b).z == 0.0
  {
  }

  /** Two edges with no Z extent give a face normal along the Z axis. */
  lemma CrossOfEdgesAcrossZ(a: Vec3, b: Vec3)
    requires a.z == 0.0 && b.z == 0.0
    ensures Cross(a, b).x == 0.0 && Cross(a, b).y == 0.0
  {
  }

  /** Two edges with no X extent give a face normal along the X axis. */
  lemma CrossOfEdgesAcrossX(a: Vec3, b: Vec3)
    requires a.x == 0.0 && b.x == 0.0
    ensures Cross(a, b).y == 0.0 && Cross(a, b).z == 0.0
  {
  }

  /** Two points over the same spot of the ground plane (same X and Z). */
  predicate SameGround(a: Vec3, b: Vec3) {
    a.x == b.x && a.z == b.z
  }

  /** The vertex and normal arrays of a mesh, index-aligned. This is the part
      of a mesh that stitching reads from a neighbour and writes on a tile. */
  datatype Surface = Surface(vertices: seq<Vec3>, normals: seq<Vec3>)

  /** A tile mesh: vertices, normals and UVs (index-aligned), submesh 0 (the
      terrain surface triangles) and submesh 1 (the side-wall triangles, empty
      when the mesh has none). Each triangle list is a flat list of vertex
      indices, three per triangle. */
  datatype Mesh = Mesh(
    vertices: seq<Vec3>,
    normals: seq<Vec3>,
    uv: seq<Vec2>,
    surfaceTriangles: seq<nat>,
    wallTriangles: seq<nat>)
  {
    function AsSurface(): Surface {
      Surface(vertices, normals)
    }

    /** The vertex attributes are index-aligned: one normal and one UV per vertex. */
    predicate Aligned() {
      |normals| == |vertices| && |uv| == |vertices|
    }
  }
}

module Wrappers {
  datatype Option<+T> = None | Some(value: T)
}
