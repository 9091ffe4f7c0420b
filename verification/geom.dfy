/** The wireframe box of entropy::geom::Box: each edge of the box is a thin
    bar, and each bar is drawn as one or more quads ("faces"). The model keeps
    the mesh topology exactly -- which vertices, normals, texture coordinates
    and indices are appended, in which order, at which vertex offset -- and
    replaces vertex coordinates by a symbolic description of the vertex. */
module Geom {
  import opened Common
  import opened Meshes

  /** The faces of a bar. addEdge receives a set of them (a bit mask in the
      program) and emits the selected ones. */
  datatype Face = Front | Right | Left | Back | Bottom | Top

  /** The order in which addEdge tests the face flags. */
  const FaceOrder: seq<Face> := [Front, Right, Left, Back, Bottom, Top]

  /** The order in which rebuildMesh draws the sides of the box. */
  const SideOrder: seq<Face> := [Front, Back, Left, Right, Top, Bottom]

  datatype Run = Horizontal | Vertical

  /** The bar an addEdge call draws: the side of the box it lies on, whether
      it belongs to the horizontal or the vertical run of that side, and its
      step along the run. It stands for the centre and dimensions that
      rebuildMesh passes to addEdge. */
  datatype Edge = Edge(side: Face, run: Run, step: nat)

  /** A vertex: corner (u, v) of the grid of face `face` of bar `edge`. Its
      coordinates are a function of these four values. */
  datatype Corner = Corner(edge: Edge, face: Face, u: nat, v: nat)

  /** Grid resolution of a face (resX, resY and resZ are all 2). */
  const Res: nat := 2

  function Normal(f: Face): (n: Vec3)
    ensures n.x * n.x + n.y * n.y + n.z * n.z == 1.0
  {
    match f
    case Front => Vec3(0.0, 0.0, 1.0)
    case Right => Vec3(1.0, 0.0, 0.0)
    case Left => Vec3(-1.0, 0.0, 0.0)
    case Back => Vec3(0.0, 0.0, -1.0)
    case Bottom => Vec3(0.0, -1.0, 0.0)
    case Top => Vec3(0.0, 1.0, 0.0)
  }

  lemma NormalsDistinct(f: Face, g: Face)
    requires f != g
    ensures Normal(f) != Normal(g)
  {
  }

  /** Texture coordinates are exactly 0 or 1 in each component. */
  predicate UnitTexcoords<V>(m: Mesh<V>) {
    forall k :: 0 <= k < |m.texcoords| ==>
      (m.texcoords[k].u == 0.0 || m.texcoords[k].u == 1.0) &&
      (m.texcoords[k].v == 0.0 || m.texcoords[k].v == 1.0)
  }

  /** The mesh invariant of a box: one normal and texture coordinate per
      vertex, every index in range, texture coordinates on the unit corners. */
  predicate WellFormed<V>(m: Mesh<V>) {
    Attributed(m) && IndicesInRange(m) && UnitTexcoords(m)
  }

  // ---------------------------------------------------------------------
  // One face of a bar: the nested vertex and index loops of addEdge.

  /** Vertices of a cols x rows face grid, rows outermost as in the loops. */
  function GridVertices(e: Edge, f: Face, cols: nat, rows: nat): seq<Corner> {
    seq(cols * rows, k requires 0 <= k < cols * rows => Corner(e, f, k % cols, k / cols))
  }

  /** Texture coordinates (ix / (cols - 1), iy / (rows - 1)) of the grid. */
  function GridTexcoords(cols: nat, rows: nat): seq<TexCoord>
    requires cols > 1 && rows > 1
  {
    seq(cols * rows, k requires 0 <= k < cols * rows =>
      TexCoord((k % cols) as real / (cols - 1) as real, (k / cols) as real / (rows - 1) as real))
  }

  /** The two triangles of the grid cell whose first corner is vertex `a`. */
  function Quad(cols: nat, a: nat): seq<nat> {
    [a, a + 1, a + cols, a + 1, a + cols + 1, a + cols]
  }

  /** Indices of cells c, c+1, ... of a cols x rows grid whose first vertex is
      `off`; cell c is column c % (cols - 1) of row c / (cols - 1). */
  function GridIndices(cols: nat, rows: nat, off: nat, c: nat): (r: seq<nat>)
    requires cols > 1 && rows > 0 && c <= (cols - 1) * (rows - 1)
    ensures |r| == 6 * ((cols - 1) * (rows - 1) - c)
    ensures forall k :: 0 <= k < |r| ==> off <= r[k] < off + cols * rows
    decreases (cols - 1) * (rows - 1) - c
  {
    var cells := (cols - 1) * (rows - 1);
    if c == cells then []
    else
      Cell(cols, rows, off, c) + GridIndices(cols, rows, off, c + 1)
  }

  /** The six indices of cell c, all inside the grid. */
  function Cell(cols: nat, rows: nat, off: nat, c: nat): (q: seq<nat>)
    requires cols > 1 && rows > 0 && c < (cols - 1) * (rows - 1)
    ensures |q| == 6 && forall k :: 0 <= k < 6 ==> off <= q[k] < off + cols * rows
  {
    CellBound(cols, rows, c);
    Quad(cols, off + (c / (cols - 1)) * cols + c % (cols - 1))
  }

  /** The last corner of cell c is still inside the grid. */
  lemma CellBound(cols: nat, rows: nat, c: nat)
    requires cols > 1 && rows > 0 && c < (cols - 1) * (rows - 1)
    ensures (c / (cols - 1)) * cols + c % (cols - 1) + cols + 1 < cols * rows
  {
    var y, x := c / (cols - 1), c % (cols - 1);
    assert c == y * (cols - 1) + x;
    if y > rows - 2 {
      MulMono(rows - 1, y, cols - 1);
      assert false;
    }
    MulMono(y, rows - 2, cols);
    assert (rows - 2) * cols + cols + cols == rows * cols;
  }

  lemma MulMono(a: nat, b: nat, k: nat)
    requires a <= b
    ensures a * k <= b * k
  {
  }

  /** The index pattern of one 2 x 2 face: off + {0, 1, 2, 1, 3, 2}. */
  function QuadAt(off: nat): seq<nat> {
    [off, off + 1, off + 2, off + 1, off + 3, off + 2]
  }

  lemma FaceIndicesPattern(off: nat)
    ensures GridIndices(Res, Res, off, 0) == QuadAt(off)
  {
    assert GridIndices(Res, Res, off, 1) == [];
  }

  /** The four vertices of a face, in loop order. */
  function FaceVertices(e: Edge, f: Face): (r: seq<Corner>)
    ensures |r| == 4
    ensures forall k :: 0 <= k < 4 ==> r[k] == Corner(e, f, k % 2, k / 2)
  {
    GridVertices(e, f, Res, Res)
  }

  function FaceTexcoords(): (r: seq<TexCoord>)
    ensures |r| == 4
    ensures r == [TexCoord(0.0, 0.0), TexCoord(1.0, 0.0), TexCoord(0.0, 1.0), TexCoord(1.0, 1.0)]
  {
    GridTexcoords(Res, Res)
  }

  function FaceNormals(f: Face): seq<Vec3> {
    [Normal(f), Normal(f), Normal(f), Normal(f)]
  }

  /** One face of addEdge: four vertices with their texture coordinates and
      normals, then six indices, at offset `off`, the vertex count before it. */
  function AddFace(m: Mesh<Corner>, e: Edge, f: Face): (r: Mesh<Corner>)
    ensures r.mode == m.mode && r.colors == m.colors
    ensures r.vertices == m.vertices + FaceVertices(e, f)
    ensures r.normals == m.normals + FaceNormals(f)
    ensures r.texcoords == m.texcoords + FaceTexcoords()
    ensures r.indices == m.indices + QuadAt(|m.vertices|)
  {
    var off := |m.vertices|;
    FaceIndicesPattern(off);
    m.(vertices := m.vertices + GridVertices(e, f, Res, Res),
       texcoords := m.texcoords + GridTexcoords(Res, Res),
       normals := m.normals + FaceNormals(f),
       indices := m.indices + GridIndices(Res, Res, off, 0))
  }

  // ---------------------------------------------------------------------
  // addEdge: the selected faces, in the fixed order.

  /** addEdge(center, dimensions, faces): the six flag tests in FaceOrder,
      each emitting its face at the running vertex offset when selected.
      The whole call emits the list Emitted(faces) face after face. */
  function AddEdge(m: Mesh<Corner>, e: Edge, faces: set<Face>): (r: Mesh<Corner>)
    ensures r == AddFaces(m, e, Emitted(faces))
  {
    FlagTestsEmit(m, e, faces);
    FlagTests(m, e, faces)
  }

  /** The flag tests of addEdge, in the order they appear. */
  function FlagTests(m: Mesh<Corner>, e: Edge, faces: set<Face>): Mesh<Corner> {
    var m1 := if Front in faces then AddFace(m, e, Front) else m;
    var m2 := if Right in faces then AddFace(m1, e, Right) else m1;
    var m3 := if Left in faces then AddFace(m2, e, Left) else m2;
    var m4 := if Back in faces then AddFace(m3, e, Back) else m3;
    var m5 := if Bottom in faces then AddFace(m4, e, Bottom) else m4;
    if Top in faces then AddFace(m5, e, Top) else m5
  }

  /** The faces of `order` that are in `faces`, keeping their order. */
  function Select(order: seq<Face>, faces: set<Face>): (r: seq<Face>)
    ensures forall f :: f in r <==> f in order && f in faces
    ensures |r| <= |order|
  {
    if |order| == 0 then []
    else (if order[0] in faces then [order[0]] else []) + Select(order[1..], faces)
  }

  /** The faces of `faces` in the order addEdge emits them. */
  function Emitted(faces: set<Face>): seq<Face> {
    Select(FaceOrder, faces)
  }

  predicate NoRepeats(s: seq<Face>) {
    forall i, j :: 0 <= i < j < |s| ==> s[i] != s[j]
  }

  /** A selection from a list without repeats has no repeats. */
  lemma {:induction false} SelectDistinct(order: seq<Face>, faces: set<Face>)
    requires NoRepeats(order)
    ensures NoRepeats(Select(order, faces))
  {
    if |order| > 0 {
      var tail := order[1..];
      assert NoRepeats(tail) by {
        forall i, j | 0 <= i < j < |tail| ensures tail[i] != tail[j] {
          assert tail[i] == order[i + 1] && tail[j] == order[j + 1];
        }
      }
      SelectDistinct(tail, faces);
      assert order[0] !in tail by {
        forall j | 0 <= j < |tail| ensures tail[j] != order[0] {
          assert tail[j] == order[j + 1];
        }
      }
      var t := Select(tail, faces);
      assert order[0] !in t;
      var r := Select(order, faces);
      if order[0] in faces {
        assert r == [order[0]] + t;
        forall i, j | 0 <= i < j < |r| ensures r[i] != r[j] {
          assert r[j] == t[j - 1];
          if i > 0 {
            assert r[i] == t[i - 1];
          }
        }
      } else {
        assert r == t;
      }
    }
  }

  /** No face is emitted twice, so there is one face block per selected face. */
  lemma EmittedCount(faces: set<Face>)
    ensures |Emitted(faces)| == |faces|
    ensures NoRepeats(Emitted(faces))
  {
    assert NoRepeats(FaceOrder);
    SelectDistinct(FaceOrder, faces);
    forall f | f in faces ensures f in FaceOrder {
      match f
      case Front => assert FaceOrder[0] == f;
      case Right => assert FaceOrder[1] == f;
      case Left => assert FaceOrder[2] == f;
      case Back => assert FaceOrder[3] == f;
      case Bottom => assert FaceOrder[4] == f;
      case Top => assert FaceOrder[5] == f;
    }
    DistinctCard(Emitted(faces), faces);
  }

  lemma {:induction false} DistinctCard(s: seq<Face>, faces: set<Face>)
    requires NoRepeats(s)
    requires forall f :: f in s <==> f in faces
    ensures |s| == |faces|
  {
    if |s| > 0 {
      var rest := faces - {s[0]};
      forall f | f in s[1..] ensures f in rest {
        var j :| 0 <= j < |s[1..]| && s[1..][j] == f;
        assert s[j + 1] == f;
      }
      forall f | f in rest ensures f in s[1..] {
        var j :| 0 <= j < |s| && s[j] == f;
        assert j != 0;
        assert s[1..][j - 1] == f;
      }
      DistinctCard(s[1..], rest);
    }
  }

  /** The vertices of the faces `fs` of bar `e`, face after face. */
  function VerticesOf(e: Edge, fs: seq<Face>): (r: seq<Corner>)
    ensures |r| == 4 * |fs|
  {
    if |fs| == 0 then [] else FaceVertices(e, fs[0]) + VerticesOf(e, fs[1..])
  }

  function NormalsOf(fs: seq<Face>): (r: seq<Vec3>)
    ensures |r| == 4 * |fs|
  {
    if |fs| == 0 then [] else FaceNormals(fs[0]) + NormalsOf(fs[1..])
  }

  function TexcoordsOf(n: nat): (r: seq<TexCoord>)
    ensures |r| == 4 * n
  {
    if n == 0 then [] else FaceTexcoords() + TexcoordsOf(n - 1)
  }

  /** The index blocks of n faces whose first vertex is `off`. */
  function IndicesOf(off: nat, n: nat): (r: seq<nat>)
    ensures |r| == 6 * n
    decreases n
  {
    if n == 0 then [] else QuadAt(off) + IndicesOf(off + 4, n - 1)
  }

  /** Emits faces `fs` in order, each at the vertex count reached so far. */
  function AddFaces(m: Mesh<Corner>, e: Edge, fs: seq<Face>): (r: Mesh<Corner>)
    ensures r.mode == m.mode && r.colors == m.colors
    ensures r.vertices == m.vertices + VerticesOf(e, fs)
    ensures r.normals == m.normals + NormalsOf(fs)
    ensures r.texcoords == m.texcoords + TexcoordsOf(|fs|)
    ensures r.indices == m.indices + IndicesOf(|m.vertices|, |fs|)
    decreases |fs|
  {
    if |fs| == 0 then m
    else
      var m1 := AddFace(m, e, fs[0]);
      assert m1.vertices + VerticesOf(e, fs[1..]) == m.vertices + VerticesOf(e, fs);
      assert m1.normals + NormalsOf(fs[1..]) == m.normals + NormalsOf(fs);
      assert m1.texcoords + TexcoordsOf(|fs| - 1) == m.texcoords + TexcoordsOf(|fs|);
      assert m1.indices + IndicesOf(|m.vertices| + 4, |fs| - 1) == m.indices + IndicesOf(|m.vertices|, |fs|);
      AddFaces(m1, e, fs[1..])
  }

  /** Block i of the index blocks is the quad pattern at offset off + 4 i. */
  lemma {:induction false} IndicesOfBlock(off: nat, n: nat, i: nat)
    requires i < n
    ensures IndicesOf(off, n)[6 * i .. 6 * i + 6] == QuadAt(off + 4 * i)
    decreases i
  {
    if i > 0 {
      IndicesOfBlock(off + 4, n - 1, i - 1);
      assert IndicesOf(off, n)[6 * i .. 6 * i + 6] == IndicesOf(off + 4, n - 1)[6 * (i - 1) .. 6 * (i - 1) + 6];
    }
  }

  /** Block i of the vertices is face fs[i] of the bar. */
  lemma {:induction false} VerticesOfBlock(e: Edge, fs: seq<Face>, i: nat)
    requires i < |fs|
    ensures VerticesOf(e, fs)[4 * i .. 4 * i + 4] == FaceVertices(e, fs[i])
    ensures NormalsOf(fs)[4 * i .. 4 * i + 4] == FaceNormals(fs[i])
  {
    if i > 0 {
      VerticesOfBlock(e, fs[1..], i - 1);
      assert VerticesOf(e, fs)[4 * i .. 4 * i + 4] == VerticesOf(e, fs[1..])[4 * (i - 1) .. 4 * (i - 1) + 4];
      assert NormalsOf(fs)[4 * i .. 4 * i + 4] == NormalsOf(fs[1..])[4 * (i - 1) .. 4 * (i - 1) + 4];
    }
  }

  /** Every index of n blocks at `off` names one of the 4 n vertices from `off`. */
  lemma {:induction false} IndicesOfBounds(off: nat, n: nat)
    ensures forall k :: 0 <= k < |IndicesOf(off, n)| ==> off <= IndicesOf(off, n)[k] < off + 4 * n
    decreases n
  {
    if n > 0 {
      IndicesOfBounds(off + 4, n - 1);
      var r := IndicesOf(off, n);
      assert forall k :: 6 <= k < |r| ==> r[k] == IndicesOf(off + 4, n - 1)[k - 6];
    }
  }

  lemma {:induction false} TexcoordsOfUnit(n: nat)
    ensures forall k :: 0 <= k < |TexcoordsOf(n)| ==>
      (TexcoordsOf(n)[k].u == 0.0 || TexcoordsOf(n)[k].u == 1.0) &&
      (TexcoordsOf(n)[k].v == 0.0 || TexcoordsOf(n)[k].v == 1.0)
  {
    if n > 0 {
      TexcoordsOfUnit(n - 1);
      var r := TexcoordsOf(n);
      assert forall k :: 4 <= k < |r| ==> r[k] == TexcoordsOf(n - 1)[k - 4];
    }
  }

  /** One conditional face followed by the rest is a face list. */
  lemma AddFacesStep(m: Mesh<Corner>, e: Edge, b: bool, f: Face, rest: seq<Face>)
    ensures AddFaces(if b then AddFace(m, e, f) else m, e, rest) ==
            AddFaces(m, e, (if b then [f] else []) + rest)
  {
    if b {
      assert ([f] + rest)[1..] == rest;
    } else {
      assert [] + rest == rest;
    }
  }

  /** The one-face list [f] if f is selected, else the empty list. */
  function Pick(f: Face, faces: set<Face>): seq<Face> {
    if f in faces then [f] else []
  }

  lemma EmittedUnfold(faces: set<Face>)
    ensures Emitted(faces) ==
      Pick(Front, faces) + (Pick(Right, faces) + (Pick(Left, faces) +
      (Pick(Back, faces) + (Pick(Bottom, faces) + Pick(Top, faces)))))
  {
    var o5: seq<Face> := [Top];
    var o4: seq<Face> := [Bottom] + o5;
    var o3: seq<Face> := [Back] + o4;
    var o2: seq<Face> := [Left] + o3;
    var o1: seq<Face> := [Right] + o2;
    assert FaceOrder == [Front] + o1;
    var s5 := Select(o5, faces);
    assert s5 == Pick(Top, faces) by {
      SelectCons(Top, [], faces);
      assert [Top] + [] == [Top];
    }
    var s4 := Select(o4, faces);
    SelectCons(Bottom, o5, faces);
    var s3 := Select(o3, faces);
    SelectCons(Back, o4, faces);
    var s2 := Select(o2, faces);
    SelectCons(Left, o3, faces);
    var s1 := Select(o1, faces);
    SelectCons(Right, o2, faces);
    SelectCons(Front, o1, faces);
  }

  lemma SelectCons(f: Face, rest: seq<Face>, faces: set<Face>)
    ensures Select([f] + rest, faces) == Pick(f, faces) + Select(rest, faces)
  {
    assert ([f] + rest)[1..] == rest;
  }

  /** The flag tests emit the face list Emitted(faces) in order. */
  lemma FlagTestsEmit(m: Mesh<Corner>, e: Edge, faces: set<Face>)
    ensures FlagTests(m, e, faces) == AddFaces(m, e, Emitted(faces))
  {
    var m1 := if Front in faces then AddFace(m, e, Front) else m;
    var m2 := if Right in faces then AddFace(m1, e, Right) else m1;
    var m3 := if Left in faces then AddFace(m2, e, Left) else m2;
    var m4 := if Back in faces then AddFace(m3, e, Back) else m3;
    var m5 := if Bottom in faces then AddFace(m4, e, Bottom) else m4;
    var t6 := Pick(Top, faces);
    var t5 := Pick(Bottom, faces) + t6;
    var t4 := Pick(Back, faces) + t5;
    var t3 := Pick(Left, faces) + t4;
    var t2 := Pick(Right, faces) + t3;
    EmittedUnfold(faces);
    assert FlagTests(m, e, faces) == AddFaces(m5, e, t6) by {
      AddFacesStep(m5, e, Top in faces, Top, []);
      assert t6 + [] == t6;
    }
    AddFacesStep(m4, e, Bottom in faces, Bottom, t6);
    AddFacesStep(m3, e, Back in faces, Back, t5);
    AddFacesStep(m2, e, Left in faces, Left, t4);
    AddFacesStep(m1, e, Right in faces, Right, t3);
    AddFacesStep(m, e, Front in faces, Front, t2);
  }

  /** addEdge emits exactly the selected faces, in FaceOrder: block i holds
      the four vertices and normals of face Emitted(faces)[i] and the six
      indices of the quad pattern at the vertex count before it. */
  lemma AddEdgeFaceBlocks(m: Mesh<Corner>, e: Edge, faces: set<Face>, i: nat)
    requires i < |faces|
    ensures var r := AddFaces(m, e, Emitted(faces));
      var v, n, x := |m.vertices|, |m.normals|, |m.indices|;
      && |r.vertices| == v + 4 * |faces|
      && |r.indices| == x + 6 * |faces|
      && r.vertices[v + 4 * i .. v + 4 * i + 4] == FaceVertices(e, Emitted(faces)[i])
      && r.normals[n + 4 * i .. n + 4 * i + 4] == FaceNormals(Emitted(faces)[i])
      && r.indices[x + 6 * i .. x + 6 * i + 6] == QuadAt(v + 4 * i)
  {
    EmittedCount(faces);
    var fs := Emitted(faces);
    AppendedBlock(m, AddFaces(m, e, fs), e, fs, i);
  }

  /** Block i of a mesh with the face list fs appended holds the i-th face. */
  lemma AppendedBlock(m: Mesh<Corner>, r: Mesh<Corner>, e: Edge, fs: seq<Face>, i: nat)
    requires i < |fs|
    requires r.vertices == m.vertices + VerticesOf(e, fs) && r.normals == m.normals + NormalsOf(fs)
    requires r.indices == m.indices + IndicesOf(|m.vertices|, |fs|)
    ensures var v, n, x := |m.vertices|, |m.normals|, |m.indices|;
      && |r.vertices| == v + 4 * |fs|
      && |r.indices| == x + 6 * |fs|
      && r.vertices[v + 4 * i .. v + 4 * i + 4] == FaceVertices(e, fs[i])
      && r.normals[n + 4 * i .. n + 4 * i + 4] == FaceNormals(fs[i])
      && r.indices[x + 6 * i .. x + 6 * i + 6] == QuadAt(v + 4 * i)
  {
    VerticesOfBlock(e, fs, i);
    IndicesOfBlock(|m.vertices|, |fs|, i);
    BlockOfAppend(m.vertices, VerticesOf(e, fs), r.vertices, 4 * i, 4, FaceVertices(e, fs[i]));
    BlockOfAppend(m.normals, NormalsOf(fs), r.normals, 4 * i, 4, FaceNormals(fs[i]));
    BlockOfAppend(m.indices, IndicesOf(|m.vertices|, |fs|), r.indices, 6 * i, 6, QuadAt(|m.vertices| + 4 * i));
  }

  /** A block of the appended part of a + b is the same block of b. */
  lemma BlockOfAppend<T>(a: seq<T>, b: seq<T>, c: seq<T>, lo: nat, len: nat, blk: seq<T>)
    requires c == a + b && lo + len <= |b| && b[lo .. lo + len] == blk
    ensures c[|a| + lo .. |a| + lo + len] == blk
  {
    SliceAfter(a, b, lo, lo + len);
  }

  /** A slice of the appended part of a + b is the same slice of b. */
  lemma SliceAfter<T>(a: seq<T>, b: seq<T>, lo: nat, hi: nat)
    requires lo <= hi <= |b|
    ensures (a + b)[|a| + lo .. |a| + hi] == b[lo .. hi]
  {
  }

  /** A single selected face appends exactly 4 vertices, texture coordinates
      and normals and the 6 indices off + {0, 1, 2, 1, 3, 2}. */
  lemma AddEdgeSingleFace(m: Mesh<Corner>, e: Edge, f: Face)
    ensures AddEdge(m, e, {f}) == AddFace(m, e, f)
    ensures |AddEdge(m, e, {f}).vertices| == |m.vertices| + 4
    ensures |AddEdge(m, e, {f}).texcoords| == |m.texcoords| + 4
    ensures |AddEdge(m, e, {f}).normals| == |m.normals| + 4
    ensures AddEdge(m, e, {f}).indices == m.indices + QuadAt(|m.vertices|)
  {
  }

  /** Every index addEdge appends lies between the vertex count before and
      the vertex count after the call, and the rest of the mesh is kept. */
  lemma AddEdgeIndexBounds(m: Mesh<Corner>, e: Edge, faces: set<Face>)
    ensures var r := AddEdge(m, e, faces);
      && r.vertices[..|m.vertices|] == m.vertices
      && r.indices[..|m.indices|] == m.indices
      && forall k :: |m.indices| <= k < |r.indices| ==> |m.vertices| <= r.indices[k] < |r.vertices|
  {
    var fs := Emitted(faces);
    var r := AddFaces(m, e, fs);
    IndicesOfBounds(|m.vertices|, |fs|);
    assert forall k :: |m.indices| <= k < |r.indices| ==>
      r.indices[k] == IndicesOf(|m.vertices|, |fs|)[k - |m.indices|];
  }

  /** Texture coordinates from addEdge are always 0 or 1 in each component. */
  lemma AddEdgeTexcoordsUnit(m: Mesh<Corner>, e: Edge, faces: set<Face>)
    requires UnitTexcoords(m)
    ensures UnitTexcoords(AddEdge(m, e, faces))
  {
    var fs := Emitted(faces);
    var r := AddFaces(m, e, fs);
    TexcoordsOfUnit(|fs|);
    assert forall k :: |m.texcoords| <= k < |r.texcoords| ==>
      r.texcoords[k] == TexcoordsOf(|fs|)[k - |m.texcoords|];
  }

  lemma AddEdgeWellFormed(m: Mesh<Corner>, e: Edge, faces: set<Face>)
    requires WellFormed(m)
    ensures WellFormed(AddEdge(m, e, faces))
  {
    AddEdgeIndexBounds(m, e, faces);
    AddEdgeTexcoordsUnit(m, e, faces);

  }

  // ---------------------------------------------------------------------
  // rebuildMesh

  /** Iterations of `for (int i = 0; i <= subdivisions; ++i)`: none when
      subdivisions is negative. */
  function EdgesPerRun(subdivisions: int): nat {
    if subdivisions >= 0 then subdivisions + 1 else 0
  }

  /** Bars i, i+1, ..., n-1 of one run, each a single face of `side`. */
  function AddRun(m: Mesh<Corner>, side: Face, run: Run, i: nat, n: nat): (r: Mesh<Corner>)
    requires WellFormed(m) && i <= n
    ensures WellFormed(r)
    ensures r.mode == m.mode && r.colors == m.colors
    ensures |r.vertices| == |m.vertices| + 4 * (n - i) && |r.indices| == |m.indices| + 6 * (n - i)
    decreases n - i
  {
    if i == n then m
    else
      AddEdgeWellFormed(m, Edge(side, run, i), {side});
      AddEdgeSingleFace(m, Edge(side, run, i), side);
      AddRun(AddEdge(m, Edge(side, run, i), {side}), side, run, i + 1, n)
  }

  /** The horizontal then the vertical run of each side in `sides`. */
  function AddSides(m: Mesh<Corner>, sides: seq<Face>, n: nat): (r: Mesh<Corner>)
    requires WellFormed(m)
    ensures WellFormed(r)
    ensures r.mode == m.mode && r.colors == m.colors
    ensures |r.vertices| == |m.vertices| + 8 * n * |sides| && |r.indices| == |m.indices| + 12 * n * |sides|
    decreases |sides|
  {
    if |sides| == 0 then m
    else
      var m1 := AddRun(AddRun(m, sides[0], Horizontal, 0, n), sides[0], Vertical, 0, n);
      var r := AddSides(m1, sides[1..], n);
      assert 8 * n * |sides| == 8 * n + 8 * n * (|sides| - 1);
      assert 12 * n * |sides| == 12 * n + 12 * n * (|sides| - 1);
      r
  }

  // ---------------------------------------------------------------------
  // The box and its dirty flags.

  datatype Box = Box(
    enabled: bool,
    size: real,
    edgeWidth: real,
    subdivisions: int,
    color: Color,
    meshDirty: bool,
    colorDirty: bool,
    mesh: Mesh<Corner>)

  /** Box(): both dirty flags are raised, so the first update builds the
      mesh and colours it. */
  function NewBox(enabled: bool, size: real, edgeWidth: real, subdivisions: int, color: Color): (b: Box)
    ensures b.meshDirty && b.colorDirty
    ensures |b.mesh.vertices| == 0 && WellFormed(b.mesh)
    ensures b.enabled == enabled && b.size == size && b.edgeWidth == edgeWidth
    ensures b.subdivisions == subdivisions && b.color == color
  {
    Box(enabled, size, edgeWidth, subdivisions, color, true, true, Empty())
  }

  /** The colour listener marks only the colours dirty. */
  function SetColor(b: Box, c: Color): (r: Box)
    ensures r.colorDirty && r.meshDirty == b.meshDirty && r.color == c
    ensures r == b.(color := c, colorDirty := true)
  {
    b.(color := c, colorDirty := true)
  }

  /** The size, edge width and subdivision listeners mark the mesh dirty. */
  function SetSize(b: Box, s: real): (r: Box)
    ensures r.meshDirty && r.colorDirty == b.colorDirty && r.size == s
    ensures r == b.(size := s, meshDirty := true)
  {
    b.(size := s, meshDirty := true)
  }

  function SetEdgeWidth(b: Box, w: real): (r: Box)
    ensures r.meshDirty && r.colorDirty == b.colorDirty && r.edgeWidth == w
    ensures r == b.(edgeWidth := w, meshDirty := true)
  {
    b.(edgeWidth := w, meshDirty := true)
  }

  function SetSubdivisions(b: Box, s: int): (r: Box)
    ensures r.meshDirty && r.colorDirty == b.colorDirty && r.subdivisions == s
    ensures r == b.(subdivisions := s, meshDirty := true)
  {
    b.(subdivisions := s, meshDirty := true)
  }

  /** clear(): the mesh is emptied. */
  function Clear(b: Box): (r: Box)
    ensures |r.mesh.vertices| == 0 && |r.mesh.indices| == 0 && |r.mesh.colors| == 0
    ensures WellFormed(r.mesh)
    ensures r.meshDirty == b.meshDirty && r.colorDirty == b.colorDirty
  {
    b.(mesh := Meshes.Clear(b.mesh))
  }

  /** rebuildMesh(): clears the mesh, draws 12 runs of bars, one horizontal
      and one vertical run per side in SideOrder, and lowers meshDirty. */
  function RebuildMesh(b: Box): (r: Box)
    ensures !r.meshDirty && r.colorDirty == b.colorDirty
    ensures WellFormed(r.mesh) && |r.mesh.colors| == 0
    ensures |r.mesh.vertices| == 48 * EdgesPerRun(b.subdivisions)
    ensures |r.mesh.indices| == 72 * EdgesPerRun(b.subdivisions)
    ensures r.enabled == b.enabled && r.size == b.size && r.edgeWidth == b.edgeWidth
    ensures r.subdivisions == b.subdivisions && r.color == b.color
  {
    var c := Clear(b);
    c.(mesh := AddSides(c.mesh, SideOrder, EdgesPerRun(b.subdivisions)), meshDirty := false)
  }

  datatype Updated = Updated(changed: bool, box: Box)

  /** Box::update: a disabled box does nothing; an enabled one rebuilds the
      mesh if it is dirty, then recolours every vertex if the colour is
      dirty, and reports whether it did either. */
  function Update(b: Box): (r: Updated)
    ensures !b.enabled ==> !r.changed && r.box == b
    ensures b.enabled ==> r.changed == (b.meshDirty || b.colorDirty)
    ensures b.enabled ==> !r.box.meshDirty && !r.box.colorDirty
    ensures b.enabled && b.colorDirty ==>
      |r.box.mesh.colors| == |r.box.mesh.vertices| &&
      forall k :: 0 <= k < |r.box.mesh.colors| ==> r.box.mesh.colors[k] == b.color
    ensures b.enabled && b.meshDirty ==>
      |r.box.mesh.vertices| == 48 * EdgesPerRun(b.subdivisions) &&
      |r.box.mesh.indices| == 72 * EdgesPerRun(b.subdivisions)
    ensures b.enabled && !b.meshDirty ==>
      r.box.mesh.vertices == b.mesh.vertices && r.box.mesh.indices == b.mesh.indices
    ensures WellFormed(b.mesh) ==> WellFormed(r.box.mesh)
    ensures r.box.enabled == b.enabled && r.box.size == b.size && r.box.edgeWidth == b.edgeWidth
    ensures r.box.subdivisions == b.subdivisions && r.box.color == b.color
  {
    if !b.enabled then Updated(false, b)
    else
      var b1 := if b.meshDirty then RebuildMesh(b) else b;
      var b2 := if b1.colorDirty then Recolour(b1) else b1;
      Updated(b.meshDirty || b.colorDirty, b2)
  }

  /** The colour step of Box::update: every vertex takes the box colour. */
  function Recolour(b: Box): (r: Box)
    ensures !r.colorDirty && r.meshDirty == b.meshDirty
    ensures |r.mesh.colors| == |r.mesh.vertices| &&
      forall k :: 0 <= k < |r.mesh.colors| ==> r.mesh.colors[k] == b.color
    ensures r.mesh.vertices == b.mesh.vertices && r.mesh.indices == b.mesh.indices
    ensures r.mesh.normals == b.mesh.normals && r.mesh.texcoords == b.mesh.texcoords
    ensures r.enabled == b.enabled && r.size == b.size && r.edgeWidth == b.edgeWidth
    ensures r.subdivisions == b.subdivisions && r.color == b.color
  {
    b.(mesh := b.mesh.(colors := seq(|b.mesh.vertices|, _ => b.color)), colorDirty := false)
  }

  /** A second update in a row has nothing left to do. */
  lemma UpdateIdempotent(b: Box)
    ensures var r := Update(b).box; !Update(r).changed && Update(r).box == r
  {
  }

  /** Changing a parameter of an enabled box makes the next update report work. */
  lemma SetThenUpdateChanges(b: Box, c: Color, s: real, w: real, n: int)
    requires b.enabled
    ensures Update(SetColor(b, c)).changed && Update(SetSize(b, s)).changed
    ensures Update(SetEdgeWidth(b, w)).changed && Update(SetSubdivisions(b, n)).changed
  {
  }

  /** A rebuild clears the colour buffer, so an update that rebuilds the mesh
      without a colour change leaves the mesh with no per-vertex colours. */
  lemma RebuildWithoutRecolourLeavesNoColours(b: Box)
    requires b.enabled && b.meshDirty && !b.colorDirty
    ensures |Update(b).box.mesh.colors| == 0
    ensures |Update(b).box.mesh.vertices| == 48 * EdgesPerRun(b.subdivisions)
  {
  }
}
