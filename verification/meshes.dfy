/** An indexed mesh as ofMesh holds it: parallel buffers of vertices,
    normals, texture coordinates and colours, an index buffer and a primitive
    mode. The vertex type is a parameter so that each user can describe its
    vertices symbolically instead of by floating-point coordinates. */
module Meshes {
  import opened Common

  datatype Primitive = Triangles | TriangleStrip

  datatype TexCoord = TexCoord(u: real, v: real)

  datatype Mesh<V> = Mesh(
    mode: Primitive,
    vertices: seq<V>,
    normals: seq<Vec3>,
    texcoords: seq<TexCoord>,
    colors: seq<Color>,
    indices: seq<nat>)

  /** A mesh with no data, in the default triangle mode. */
  function Empty<V>(): Mesh<V> {
    Mesh(Triangles, [], [], [], [], [])
  }

  /** ofMesh::clear: every buffer is emptied; the primitive mode is kept. */
  function Clear<V>(m: Mesh<V>): (r: Mesh<V>)
    ensures r.mode == m.mode
    ensures |r.vertices| == 0 && |r.indices| == 0 && |r.colors| == 0
  {
    Mesh(m.mode, [], [], [], [], [])
  }

  /** Every index names an existing vertex. */
  predicate IndicesInRange<V>(m: Mesh<V>) {
    forall k :: 0 <= k < |m.indices| ==> m.indices[k] < |m.vertices|
  }

  /** Every vertex has exactly one normal and one texture coordinate. */
  predicate Attributed<V>(m: Mesh<V>) {
    |m.normals| == |m.vertices| && |m.texcoords| == |m.vertices|
  }
}
