/** The scene's static geometry: the pyramid and the ground plane, each an
    interleaved vertex array of 11 floats per vertex (position, colour, texture
    coordinate, normal) and an element array drawn with `GL_TRIANGLES`. The arrays
    are written here as one record per vertex row; `Encode` lays them out as the
    flat float arrays the vertex buffers receive. */
module SceneTables {
  import opened Mesh

  datatype Vec2 = Vec2(s: real, t: real)

  /** One row of an interleaved vertex array. */
  datatype Vertex = Vertex(position: Vec3<real>, colour: Vec3<real>, tex: Vec2, normal: Vec3<real>)

  /** Floats per vertex, the stride both vertex arrays are linked with. */
  const Stride: nat := 11

  /** One `LinkAttrib` call: shader location, component count and offset in floats. */
  datatype Attribute = Attribute(location: nat, size: nat, offset: nat)

  /** The attribute pointers of both the pyramid and the ground arrays. */
  const InterleavedLayout: seq<Attribute> :=
    [Attribute(0, 3, 0), Attribute(1, 3, 3), Attribute(2, 2, 6), Attribute(3, 3, 8)]

  /** The attributes sit side by side in location order, each starting where the one
      before it ends, and together fill exactly one stride. */
  predicate TilesStride(layout: seq<Attribute>, stride: nat)
  {
    && |layout| > 0
    && layout[0].offset == 0
    && (forall k :: 0 <= k < |layout| ==> layout[k].location == k)
    && (forall k :: 0 < k < |layout| ==> layout[k].offset == layout[k - 1].offset + layout[k - 1].size)
    && layout[|layout| - 1].offset + layout[|layout| - 1].size == stride
  }

  /** The components of the attribute at shader location `location`, in the order its
      pointer reads them: position, colour, texture coordinate, normal. */
  function AttributeOf(v: Vertex, location: nat): seq<real>
  {
    match location
    case 0 => [v.position.x, v.position.y, v.position.z]
    case 1 => [v.colour.x, v.colour.y, v.colour.z]
    case 2 => [v.tex.s, v.tex.t]
    case 3 => [v.normal.x, v.normal.y, v.normal.z]
    case _ => []
  }

  /** The 11 floats of one vertex row: every attribute pointer of the layout finds its
      attribute of `v` at its offset. */
  function EncodeVertex(v: Vertex): (r: seq<real>)
    ensures |r| == Stride
    ensures forall a <- InterleavedLayout ::
      a.offset + a.size <= |r| && r[a.offset .. a.offset + a.size] == AttributeOf(v, a.location)
  {
    AttributeOf(v, 0) + AttributeOf(v, 1) + AttributeOf(v, 2) + AttributeOf(v, 3)
  }

  /** The flat float array holding `vs` row after row. */
  function Encode(vs: seq<Vertex>): (r: seq<real>)
    ensures |r| == Stride * |vs|
  {
    if vs == [] then [] else Encode(vs[..|vs| - 1]) + EncodeVertex(vs[|vs| - 1])
  }

  /** What the pointer of attribute `a` reads for vertex `k` of a flat array. */
  function ReadAttribute(buffer: seq<real>, k: nat, a: Attribute): (r: seq<real>)
    requires a.offset + a.size <= Stride && Stride * k + Stride <= |buffer|
    ensures |r| == a.size
  {
    buffer[Stride * k + a.offset .. Stride * k + a.offset + a.size]
  }

  /** What the four attribute pointers read for vertex `k` of a flat array. */
  function DecodeVertex(buffer: seq<real>, k: nat): Vertex
    requires Stride * k + Stride <= |buffer|
  {
    var position := ReadAttribute(buffer, k, InterleavedLayout[0]);
    var colour := ReadAttribute(buffer, k, InterleavedLayout[1]);
    var tex := ReadAttribute(buffer, k, InterleavedLayout[2]);
    var normal := ReadAttribute(buffer, k, InterleavedLayout[3]);
    Vertex(Vec3(position[0], position[1], position[2]),
           Vec3(colour[0], colour[1], colour[2]),
           Vec2(tex[0], tex[1]),
           Vec3(normal[0], normal[1], normal[2]))
  }

  lemma DecodeEncodeVertex(v: Vertex)
    ensures DecodeVertex(EncodeVertex(v), 0) == v
  {
    var r := EncodeVertex(v);
    assert InterleavedLayout[0] in InterleavedLayout && InterleavedLayout[1] in InterleavedLayout;
    assert InterleavedLayout[2] in InterleavedLayout && InterleavedLayout[3] in InterleavedLayout;
  }

  /** A vertex inside a prefix of the buffer reads the same in the whole buffer. */
  lemma DecodeInPrefix(xs: seq<real>, ys: seq<real>, k: nat)
    requires xs <= ys && Stride * k + Stride <= |xs|
    ensures DecodeVertex(ys, k) == DecodeVertex(xs, k)
  {
    forall a | a in InterleavedLayout
      ensures ReadAttribute(ys, k, a) == ReadAttribute(xs, k, a)
    {
      SliceOfPrefix(xs, ys, Stride * k + a.offset, Stride * k + a.offset + a.size);
    }
    assert InterleavedLayout[0] in InterleavedLayout && InterleavedLayout[1] in InterleavedLayout;
    assert InterleavedLayout[2] in InterleavedLayout && InterleavedLayout[3] in InterleavedLayout;
  }

  /** The vertex right after `m` whole rows is the first vertex of what follows them. */
  lemma DecodeAfterRows(xs: seq<real>, ys: seq<real>, m: nat)
    requires |xs| == Stride * m && Stride <= |ys|
    ensures DecodeVertex(xs + ys, m) == DecodeVertex(ys, 0)
  {
    forall a | a in InterleavedLayout
      ensures ReadAttribute(xs + ys, m, a) == ReadAttribute(ys, 0, a)
    {
      SliceOfSuffix(xs, ys, a.offset, a.offset + a.size);
    }
    assert InterleavedLayout[0] in InterleavedLayout && InterleavedLayout[1] in InterleavedLayout;
    assert InterleavedLayout[2] in InterleavedLayout && InterleavedLayout[3] in InterleavedLayout;
  }

  /** Appending one row keeps the rows before it and adds it at the end. */
  lemma DecodeAppended(xs: seq<real>, init: seq<Vertex>, last: Vertex, k: nat)
    requires |xs| == Stride * |init| && k <= |init|
    requires k < |init| ==> DecodeVertex(xs, k) == init[k]
    ensures DecodeVertex(xs + EncodeVertex(last), k) == (init + [last])[k]
  {
    if k < |init| {
      DecodeInPrefix(xs, xs + EncodeVertex(last), k);
    } else {
      DecodeAfterRows(xs, EncodeVertex(last), |init|);
      DecodeEncodeVertex(last);
    }
  }

  /** Reading the flat array back through the attribute pointers gives every row. */
  lemma {:induction false} DecodeEncode(vs: seq<Vertex>)
    ensures forall k :: 0 <= k < |vs| ==> DecodeVertex(Encode(vs), k) == vs[k]
    decreases |vs|
  {
    if vs != [] {
      var init := vs[..|vs| - 1];
      var last := vs[|vs| - 1];
      DecodeEncode(init);
      assert vs == init + [last];
      forall k | 0 <= k < |vs|
        ensures DecodeVertex(Encode(init) + EncodeVertex(last), k) == vs[k]
      {
        DecodeAppended(Encode(init), init, last, k);
      }
    }
  }

  // The pyramid: a square base of four vertices and four sides of three, the sides'
  // apex repeated so that every face carries its own normal.

  const Sand: Vec3<real> := Vec3(0.83, 0.70, 0.44)
  const Tip: Vec3<real> := Vec3(0.92, 0.86, 0.76)
  const Apex: Vec3<real> := Vec3(0.0, 0.8, 0.0)
  const Down: Vec3<real> := Vec3(0.0, -1.0, 0.0)
  const LeftFace: Vec3<real> := Vec3(-0.8, 0.5, 0.0)
  const BackFace: Vec3<real> := Vec3(0.0, 0.5, -0.8)
  const RightFace: Vec3<real> := Vec3(0.8, 0.5, 0.0)
  const FrontFace: Vec3<real> := Vec3(0.0, 0.5, 0.8)

  const PyramidRows: seq<Vertex> := [
    // base
    Vertex(Vec3(-0.5, 0.0, 0.5), Sand, Vec2(0.0, 0.0), Down),
    Vertex(Vec3(-0.5, 0.0, -0.5), Sand, Vec2(0.0, 5.0), Down),
    Vertex(Vec3(0.5, 0.0, -0.5), Sand, Vec2(5.0, 5.0), Down),
    Vertex(Vec3(0.5, 0.0, 0.5), Sand, Vec2(5.0, 0.0), Down),
    // left side
    Vertex(Vec3(-0.5, 0.0, 0.5), Sand, Vec2(0.0, 0.0), LeftFace),
    Vertex(Vec3(-0.5, 0.0, -0.5), Sand, Vec2(5.0, 0.0), LeftFace),
    Vertex(Apex, Tip, Vec2(2.5, 5.0), LeftFace),
    // back side
    Vertex(Vec3(-0.5, 0.0, -0.5), Sand, Vec2(5.0, 0.0), BackFace),
    Vertex(Vec3(0.5, 0.0, -0.5), Sand, Vec2(0.0, 0.0), BackFace),
    Vertex(Apex, Tip, Vec2(2.5, 5.0), BackFace),
    // right side
    Vertex(Vec3(0.5, 0.0, -0.5), Sand, Vec2(0.0, 0.0), RightFace),
    Vertex(Vec3(0.5, 0.0, 0.5), Sand, Vec2(5.0, 0.0), RightFace),
    Vertex(Apex, Tip, Vec2(2.5, 5.0), RightFace),
    // front side
    Vertex(Vec3(0.5, 0.0, 0.5), Sand, Vec2(5.0, 0.0), FrontFace),
    Vertex(Vec3(-0.5, 0.0, 0.5), Sand, Vec2(0.0, 0.0), FrontFace),
    Vertex(Apex, Tip, Vec2(2.5, 5.0), FrontFace)
  ]

  /** `pyramidVertices` as the vertex buffer receives it. */
  function PyramidVertices(): seq<real>
  {
    Encode(PyramidRows)
  }

  /** `pyramidIndices`: two base triangles, then one per side. */
  const PyramidIndices: seq<nat> :=
    [0, 1, 2, 0, 2, 3,
     4, 6, 5,
     7, 9, 8,
     10, 12, 11,
     13, 15, 14]

  /** The pyramid draw's count, `sizeof(pyramidIndices) / sizeof(GLuint)`: the number
      of elements of the array. */
  function PyramidDrawCount(): int
  {
    |PyramidIndices|
  }

  // The ground: one square of side 100 at y = 0, textured with coordinates up to 50
  // so that the sand repeats, every normal pointing up.

  const White: Vec3<real> := Vec3(1.0, 1.0, 1.0)
  const Up: Vec3<real> := Vec3(0.0, 1.0, 0.0)

  const GroundRows: seq<Vertex> := [
    Vertex(Vec3(50.0, 0.0, 50.0), White, Vec2(50.0, 0.0), Up),
    Vertex(Vec3(50.0, 0.0, -50.0), White, Vec2(50.0, 50.0), Up),
    Vertex(Vec3(-50.0, 0.0, -50.0), White, Vec2(0.0, 50.0), Up),
    Vertex(Vec3(-50.0, 0.0, 50.0), White, Vec2(0.0, 0.0), Up)
  ]

  /** `groundVertices` as the vertex buffer receives it. */
  function GroundVertices(): seq<real>
  {
    Encode(GroundRows)
  }

  /** `groundIndices`: the square split along the diagonal from vertex 1 to vertex 3. */
  const GroundIndices: seq<nat> := [0, 1, 3, 1, 2, 3]

  /** The ground draw's count, written in the draw call as the literal 6. */
  const GroundDrawCount: int := 6

  // The pyramid instances: the draw loop runs `numPyramids` times and reads entry `i`
  // of each of the three per-instance arrays.

  const PyramidPositions: seq<Vec3<real>> :=
    [Vec3(0.9, 0.0, -0.3), Vec3(-0.7, 0.0, 0.0), Vec3(0.2, 0.0, -1.5), Vec3(-1.5, 0.0, -1.0)]
  const PyramidScales: seq<real> := [1.1, 1.0, 0.85, 0.7]
  const PyramidYRotations: seq<real> := [-20.0, 25.0, 5.0, 45.0]

  /** `numPyramids`, `sizeof(pyramidPositions) / sizeof(glm::vec3)`. */
  function NumPyramids(): nat
  {
    |PyramidPositions|
  }

  /** The loop over the instances reads the scale and rotation arrays in bounds. */
  lemma InstanceArraysAgree()
    ensures NumPyramids() == 4
    ensures |PyramidScales| == NumPyramids() && |PyramidYRotations| == NumPyramids()
    ensures forall i :: 0 <= i < NumPyramids() ==> PyramidScales[i] > 0.0
  {
  }

  /** Both vertex arrays are read with the same interleaved layout of 11 floats. */
  lemma LayoutTilesStride()
    ensures TilesStride(InterleavedLayout, Stride)
  {
  }

  /** The pyramid arrays: 16 vertices of 11 floats and 18 indices, each naming one of
      the 16 vertices. */
  lemma PyramidTablesValid()
    ensures |PyramidVertices()| == 176 && |PyramidVertices()| == Stride * |PyramidRows|
    ensures |PyramidRows| == 16 && |PyramidIndices| == 18
    ensures forall x <- PyramidIndices :: x < |PyramidRows|
  {
  }

  /** Each pyramid instance's draw reads all 18 indices as 6 whole triangles of defined
      vertices. */
  lemma PyramidDrawValid()
    ensures PyramidDrawCount() == 18
    ensures ValidTriangleDraw(|PyramidRows|, PyramidIndices, PyramidDrawCount())
  {
    WholeBufferDraw(|PyramidRows|, PyramidIndices);
  }

  /** The ground arrays: 4 vertices of 11 floats and 6 indices, each naming one of
      the 4 vertices. */
  lemma GroundTablesValid()
    ensures |GroundVertices()| == 44 && |GroundVertices()| == Stride * |GroundRows|
    ensures |GroundRows| == 4 && |GroundIndices| == 6
    ensures forall x <- GroundIndices :: x < |GroundRows|
  {
  }

  /** The literal count 6 of the ground draw is exactly the length of its index array,
      so the draw covers both triangles and nothing past them. */
  lemma GroundDrawValid()
    ensures GroundDrawCount == |GroundIndices|
    ensures ValidTriangleDraw(|GroundRows|, GroundIndices, GroundDrawCount)
  {
    WholeBufferDraw(|GroundRows|, GroundIndices);
  }

  /** Every triangle of the two element arrays has three distinct corners. */
  lemma TrianglesNonDegenerate()
    ensures forall k :: 0 <= k < 6 ==> NonDegenerate(TriangleAt(PyramidIndices, k))
    ensures forall k :: 0 <= k < 2 ==> NonDegenerate(TriangleAt(GroundIndices, k))
  {
  }

  /** No vertex row is dead weight: each is a corner of some triangle. */
  lemma EveryVertexUsed()
    ensures forall v :: 0 <= v < |PyramidRows| ==> v in PyramidIndices
    ensures forall v :: 0 <= v < |GroundRows| ==> v in GroundIndices
  {
    assert PyramidIndices[1] == 1 && PyramidIndices[5] == 3;
    assert PyramidIndices[7] == 6 && PyramidIndices[8] == 5;
    assert PyramidIndices[10] == 9 && PyramidIndices[11] == 8;
    assert PyramidIndices[13] == 12 && PyramidIndices[14] == 11;
    assert PyramidIndices[16] == 15 && PyramidIndices[17] == 14;
    assert GroundIndices[4] == 2;
  }

  function Sub(a: Vec3<real>, b: Vec3<real>): Vec3<real>
  {
    Vec3(a.x - b.x, a.y - b.y, a.z - b.z)
  }

  function Cross(a: Vec3<real>, b: Vec3<real>): Vec3<real>
  {
    Vec3(a.y * b.z - a.z * b.y, a.z * b.x - a.x * b.z, a.x * b.y - a.y * b.x)
  }

  function Dot(a: Vec3<real>, b: Vec3<real>): real
  {
    a.x * b.x + a.y * b.y + a.z * b.z
  }

  /** A triangle is lit as one flat face facing the way its corners wind: the three
      corners carry the same normal, and that normal lies on the side from which the
      corners run counter-clockwise. */
  predicate FlatFrontFace(rows: seq<Vertex>, t: Triangle)
    requires WithinVertices(t, |rows|)
  {
    var a := rows[t.a];
    var b := rows[t.b];
    var c := rows[t.c];
    && a.normal == b.normal == c.normal
    && Dot(Cross(Sub(b.position, a.position), Sub(c.position, a.position)), a.normal) > 0.0
  }

  /** `FlatFrontFace` from the triangle's two edges out of its first corner and their
      cross product, each worked out separately. */
  lemma FrontFaceFromEdges(rows: seq<Vertex>, t: Triangle, e1: Vec3<real>, e2: Vec3<real>, n: Vec3<real>)
    requires WithinVertices(t, |rows|)
    requires rows[t.a].normal == rows[t.b].normal == rows[t.c].normal
    requires Sub(rows[t.b].position, rows[t.a].position) == e1
    requires Sub(rows[t.c].position, rows[t.a].position) == e2
    requires Cross(e1, e2) == n
    requires Dot(n, rows[t.a].normal) > 0.0
    ensures FlatFrontFace(rows, t)
  {
  }

  // One lemma per triangle: the solver handles each face's arithmetic on its own.

  lemma BaseFaceNear()
    ensures WithinVertices(TriangleAt(PyramidIndices, 0), |PyramidRows|)
    ensures FlatFrontFace(PyramidRows, TriangleAt(PyramidIndices, 0))
  {
    assert TriangleAt(PyramidIndices, 0) == Triangle(0, 1, 2);
    FrontFaceFromEdges(PyramidRows, Triangle(0, 1, 2), Vec3(0.0, 0.0, -1.0), Vec3(1.0, 0.0, -1.0), Down);
  }

  lemma BaseFaceFar()
    ensures WithinVertices(TriangleAt(PyramidIndices, 1), |PyramidRows|)
    ensures FlatFrontFace(PyramidRows, TriangleAt(PyramidIndices, 1))
  {
    assert TriangleAt(PyramidIndices, 1) == Triangle(0, 2, 3);
    FrontFaceFromEdges(PyramidRows, Triangle(0, 2, 3), Vec3(1.0, 0.0, -1.0), Vec3(1.0, 0.0, 0.0), Down);
  }

  lemma LeftSideFace()
    ensures WithinVertices(TriangleAt(PyramidIndices, 2), |PyramidRows|)
    ensures FlatFrontFace(PyramidRows, TriangleAt(PyramidIndices, 2))
  {
    assert TriangleAt(PyramidIndices, 2) == Triangle(4, 6, 5);
    FrontFaceFromEdges(PyramidRows, Triangle(4, 6, 5), Vec3(0.5, 0.8, -0.5), Vec3(0.0, 0.0, -1.0), LeftFace);
  }

  lemma BackSideFace()
    ensures WithinVertices(TriangleAt(PyramidIndices, 3), |PyramidRows|)
    ensures FlatFrontFace(PyramidRows, TriangleAt(PyramidIndices, 3))
  {
    assert TriangleAt(PyramidIndices, 3) == Triangle(7, 9, 8);
    FrontFaceFromEdges(PyramidRows, Triangle(7, 9, 8), Vec3(0.5, 0.8, 0.5), Vec3(1.0, 0.0, 0.0), BackFace);
  }

  lemma RightSideFace()
    ensures WithinVertices(TriangleAt(PyramidIndices, 4), |PyramidRows|)
    ensures FlatFrontFace(PyramidRows, TriangleAt(PyramidIndices, 4))
  {
    assert TriangleAt(PyramidIndices, 4) == Triangle(10, 12, 11);
    FrontFaceFromEdges(PyramidRows, Triangle(10, 12, 11), Vec3(-0.5, 0.8, 0.5), Vec3(0.0, 0.0, 1.0), RightFace);
  }

  lemma FrontSideFace()
    ensures WithinVertices(TriangleAt(PyramidIndices, 5), |PyramidRows|)
    ensures FlatFrontFace(PyramidRows, TriangleAt(PyramidIndices, 5))
  {
    assert TriangleAt(PyramidIndices, 5) == Triangle(13, 15, 14);
    FrontFaceFromEdges(PyramidRows, Triangle(13, 15, 14), Vec3(-0.5, 0.8, -0.5), Vec3(-1.0, 0.0, 0.0), FrontFace);
  }

  lemma GroundFaceNear()
    ensures WithinVertices(TriangleAt(GroundIndices, 0), |GroundRows|)
    ensures FlatFrontFace(GroundRows, TriangleAt(GroundIndices, 0))
  {
    assert TriangleAt(GroundIndices, 0) == Triangle(0, 1, 3);
    FrontFaceFromEdges(GroundRows, Triangle(0, 1, 3), Vec3(0.0, 0.0, -100.0), Vec3(-100.0, 0.0, 0.0), Vec3(0.0, 10000.0, 0.0));
  }

  lemma GroundFaceFar()
    ensures WithinVertices(TriangleAt(GroundIndices, 1), |GroundRows|)
    ensures FlatFrontFace(GroundRows, TriangleAt(GroundIndices, 1))
  {
    assert TriangleAt(GroundIndices, 1) == Triangle(1, 2, 3);
    FrontFaceFromEdges(GroundRows, Triangle(1, 2, 3), Vec3(-100.0, 0.0, 0.0), Vec3(-100.0, 0.0, 100.0), Vec3(0.0, 10000.0, 0.0));
  }

  lemma PyramidFaceAt(k: nat)
    requires k < 6
    ensures WithinVertices(TriangleAt(PyramidIndices, k), |PyramidRows|)
    ensures FlatFrontFace(PyramidRows, TriangleAt(PyramidIndices, k))
  {
    if k == 0 {
      BaseFaceNear();
    } else if k == 1 {
      BaseFaceFar();
    } else if k == 2 {
      LeftSideFace();
    } else if k == 3 {
      BackSideFace();
    } else if k == 4 {
      RightSideFace();
    } else {
      FrontSideFace();
    }
  }

  lemma GroundFaceAt(k: nat)
    requires k < 2
    ensures WithinVertices(TriangleAt(GroundIndices, k), |GroundRows|)
    ensures FlatFrontFace(GroundRows, TriangleAt(GroundIndices, k))
  {
    if k == 0 {
      GroundFaceNear();
    } else {
      GroundFaceFar();
    }
  }

  /** Every pyramid and ground triangle is wound counter-clockwise as seen from the
      side its normal points to. */
  lemma FacesAgreeWithNormals()
    ensures forall k :: 0 <= k < 6 ==>
      WithinVertices(TriangleAt(PyramidIndices, k), |PyramidRows|) &&
      FlatFrontFace(PyramidRows, TriangleAt(PyramidIndices, k))
    ensures forall k :: 0 <= k < 2 ==>
      WithinVertices(TriangleAt(GroundIndices, k), |GroundRows|) &&
      FlatFrontFace(GroundRows, TriangleAt(GroundIndices, k))
  {
    forall k | 0 <= k < 6
      ensures WithinVertices(TriangleAt(PyramidIndices, k), |PyramidRows|)
      ensures FlatFrontFace(PyramidRows, TriangleAt(PyramidIndices, k))
    {
      PyramidFaceAt(k);
    }
    forall k | 0 <= k < 2
      ensures WithinVertices(TriangleAt(GroundIndices, k), |GroundRows|)
      ensures FlatFrontFace(GroundRows, TriangleAt(GroundIndices, k))
    {
      GroundFaceAt(k);
    }
  }

  /** The flat arrays hold the rows as listed: vertex `k` of either buffer is row `k`. */
  lemma TablesDecode()
    ensures forall k :: 0 <= k < |PyramidRows| ==> DecodeVertex(PyramidVertices(), k) == PyramidRows[k]
    ensures forall k :: 0 <= k < |GroundRows| ==> DecodeVertex(GroundVertices(), k) == GroundRows[k]
  {
    DecodeEncode(PyramidRows);
    DecodeEncode(GroundRows);
  }
}
