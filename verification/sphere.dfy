/** The UV-sphere generator shared by the sun: `(stackCount + 1) * (sectorCount + 1)`
    interleaved vertices (position, normal, texture coordinate) and a
    counter-clockwise triangle list that leaves out the degenerate triangle of
    each polar cell.

    Counts are `generateSphere`'s `int` parameters, so zero and negative counts are modelled: a
    loop `for (k = 0; k <= n; ++k)` runs `UpTo(n)` times and `for (k = 0; k < n; ++k)`
    runs `Below(n)` times. Positions and normals come from trigonometry and enter
    the model as the opaque `surface` function. */
module Sphere {
  import opened Floats
  import opened Mesh

  /** Position and outward normal of the vertex on stack `i`, sector `j`, as
      `generateSphere`'s `cosf`/`sinf` arithmetic yields them: not necessarily finite,
      since a zero count makes `sectorStep` or `stackStep` infinite and a zero radius
      makes `lengthInv` infinite. */
  datatype SurfacePoint = SurfacePoint(position: Vec3<Float>, normal: Vec3<Float>)

  /** Iterations of `for (k = 0; k < n; ++k)`. */
  function Below(n: int): nat
  {
    if n < 0 then 0 else n
  }

  /** Iterations of `for (k = 0; k <= n; ++k)`. */
  function UpTo(n: int): nat
  {
    Below(n + 1)
  }

  /** Vertices emitted: one per stack row `i` in `0..stackCount` and sector `j` in `0..sectorCount`. */
  function VertexCount(sectorCount: int, stackCount: int): nat
  {
    UpTo(stackCount) * UpTo(sectorCount)
  }

  // ---------------------------------------------------------------------------
  // Vertex buffer

  /** The eight floats of the vertex on stack `i`, sector `j`: position 3, normal 3,
      texture coordinate 2. */
  function VertexFloats(sectorCount: int, stackCount: int, surface: (int, int) -> SurfacePoint,
                        i: nat, j: nat): (r: seq<Float>)
    ensures |r| == 8
  {
    var p := surface(i, j);
    [p.position.x, p.position.y, p.position.z,
     p.normal.x, p.normal.y, p.normal.z,
     Quotient(j, sectorCount), Quotient(i, stackCount)]
  }

  /** The first `cols` vertices of stack row `i`. */
  function RowFloats(sectorCount: int, stackCount: int, surface: (int, int) -> SurfacePoint,
                     i: nat, cols: nat): (r: seq<Float>)
    ensures |r| == 8 * cols
  {
    if cols == 0 then []
    else RowFloats(sectorCount, stackCount, surface, i, cols - 1)
         + VertexFloats(sectorCount, stackCount, surface, i, cols - 1)
  }

  /** The first `rows` complete stack rows. */
  function MeshFloats(sectorCount: int, stackCount: int, surface: (int, int) -> SurfacePoint,
                      rows: nat): seq<Float>
  {
    if rows == 0 then []
    else
      var prefix := MeshFloats(sectorCount, stackCount, surface, rows - 1);
      var row := RowFloats(sectorCount, stackCount, surface, rows - 1, UpTo(sectorCount));
      prefix + row
  }

  /** Each complete row holds `8 * (sectorCount + 1)` floats. */
  lemma {:induction false} MeshFloatsLength(sectorCount: int, stackCount: int, surface: (int, int) -> SurfacePoint,
                                            rows: nat)
    ensures |MeshFloats(sectorCount, stackCount, surface, rows)| == rows * (8 * UpTo(sectorCount))
    decreases rows
  {
    if rows > 0 {
      MeshFloatsLength(sectorCount, stackCount, surface, rows - 1);
      assert (rows - 1) * (8 * UpTo(sectorCount)) + 8 * UpTo(sectorCount) == rows * (8 * UpTo(sectorCount));
    }
  }

  /** The whole vertex buffer `generateSphere` leaves in `outSphereVertices`. */
  function SphereVertices(sectorCount: int, stackCount: int, surface: (int, int) -> SurfacePoint): seq<Float>
  {
    MeshFloats(sectorCount, stackCount, surface, UpTo(stackCount))
  }

  lemma {:induction false} RowLayout(sectorCount: int, stackCount: int, surface: (int, int) -> SurfacePoint,
                                     i: nat, cols: nat, j: nat)
    requires j < cols
    ensures RowFloats(sectorCount, stackCount, surface, i, cols)[8 * j .. 8 * j + 8]
         == VertexFloats(sectorCount, stackCount, surface, i, j)
    decreases cols
  {
    var prefix := RowFloats(sectorCount, stackCount, surface, i, cols - 1);
    var r := RowFloats(sectorCount, stackCount, surface, i, cols);
    assert r == prefix + VertexFloats(sectorCount, stackCount, surface, i, cols - 1);
    if j < cols - 1 {
      RowLayout(sectorCount, stackCount, surface, i, cols - 1, j);
      assert r[8 * j .. 8 * j + 8]
          == prefix[8 * j .. 8 * j + 8];
    } else {
      assert r[|prefix|..] == VertexFloats(sectorCount, stackCount, surface, i, cols - 1);
    }
  }

  /** The first `i` rows are a prefix of the first `rows` rows. */
  lemma {:induction false} MeshPrefix(sectorCount: int, stackCount: int, surface: (int, int) -> SurfacePoint,
                                      i: nat, rows: nat)
    requires i <= rows
    ensures MeshFloats(sectorCount, stackCount, surface, i) <= MeshFloats(sectorCount, stackCount, surface, rows)
    decreases rows
  {
    if i < rows {
      MeshPrefix(sectorCount, stackCount, surface, i, rows - 1);
    }
  }

  /** Vertex `(i, j)` sits `j` vertices past the end of the first `i` rows. */
  lemma MeshRowLayout(sectorCount: int, stackCount: int, surface: (int, int) -> SurfacePoint,
                      rows: nat, i: nat, j: nat)
    requires i < rows && j < UpTo(sectorCount)
    ensures var start := |MeshFloats(sectorCount, stackCount, surface, i)| + 8 * j;
      && start + 8 <= |MeshFloats(sectorCount, stackCount, surface, rows)|
      && MeshFloats(sectorCount, stackCount, surface, rows)[start .. start + 8]
         == VertexFloats(sectorCount, stackCount, surface, i, j)
  {
    var cols := UpTo(sectorCount);
    var prefix := MeshFloats(sectorCount, stackCount, surface, i);
    var row := RowFloats(sectorCount, stackCount, surface, i, cols);
    var upToRow := MeshFloats(sectorCount, stackCount, surface, i + 1);
    assert upToRow == prefix + row;
    MeshPrefix(sectorCount, stackCount, surface, i + 1, rows);
    RowLayout(sectorCount, stackCount, surface, i, cols, j);
    SliceOfSuffix(prefix, row, 8 * j, 8 * j + 8);
    SliceOfPrefix(upToRow, MeshFloats(sectorCount, stackCount, surface, rows),
                  |prefix| + 8 * j, |prefix| + 8 * j + 8);
  }

  /** A vertex of row `i` sits `j` vertices past the first `i` rows. */
  lemma VertexInLastRow(i: nat, j: nat, cols: nat)
    ensures 8 * (i * cols + j) == i * (8 * cols) + 8 * j
  {
  }

  lemma NonNegativeProduct(a: nat, b: nat)
    ensures 0 <= a * b
  {
  }

  lemma MulMonotone(a: nat, b: nat, c: nat)
    requires a <= b
    ensures a * c <= b * c
  {
    assert b * c == a * c + (b - a) * c;
  }

  /** The buffer holds exactly eight floats per vertex, and vertex `(i, j)` occupies
      floats `8 * v .. 8 * v + 8` with `v = i * (sectorCount + 1) + j`: the layout the
      sun's attribute pointers (stride 8, offsets 0, 3, 6) read. */
  lemma SphereVertexLayout(sectorCount: int, stackCount: int, surface: (int, int) -> SurfacePoint,
                           i: nat, j: nat)
    requires i < UpTo(stackCount) && j < UpTo(sectorCount)
    ensures |SphereVertices(sectorCount, stackCount, surface)|
         == 8 * VertexCount(sectorCount, stackCount)
    ensures var v := i * UpTo(sectorCount) + j;
      && 8 * v + 8 <= |SphereVertices(sectorCount, stackCount, surface)|
      && SphereVertices(sectorCount, stackCount, surface)[8 * v .. 8 * v + 8]
         == VertexFloats(sectorCount, stackCount, surface, i, j)
  {
    MeshRowLayout(sectorCount, stackCount, surface, UpTo(stackCount), i, j);
    MeshFloatsLength(sectorCount, stackCount, surface, i);
    VertexInLastRow(i, j, UpTo(sectorCount));
    SphereVerticesLength(sectorCount, stackCount, surface);
  }

  lemma SphereVerticesLength(sectorCount: int, stackCount: int, surface: (int, int) -> SurfacePoint)
    ensures |SphereVertices(sectorCount, stackCount, surface)| == 8 * VertexCount(sectorCount, stackCount)
  {
    MeshFloatsLength(sectorCount, stackCount, surface, UpTo(stackCount));
    VertexInLastRow(UpTo(stackCount), 0, UpTo(sectorCount));
  }

  /** Texture coordinates: `s = j / sectorCount` and `t = i / stackCount` lie in [0, 1];
      the first vertex of every row has `s = 0` and the last `s = 1` (the seam
      duplicate), the top row has `t = 0` and the bottom row `t = 1`. */
  lemma TextureCoordinates(sectorCount: int, stackCount: int, surface: (int, int) -> SurfacePoint,
                           i: nat, j: nat)
    requires 1 <= sectorCount && 1 <= stackCount
    requires i <= stackCount && j <= sectorCount
    ensures var f := VertexFloats(sectorCount, stackCount, surface, i, j);
      && f[6].Finite? && f[7].Finite?
      && 0.0 <= f[6].value <= 1.0 && 0.0 <= f[7].value <= 1.0
      && (j == 0 <==> f[6].value == 0.0)
      && (j == sectorCount <==> f[6].value == 1.0)
      && (i == 0 <==> f[7].value == 0.0)
      && (i == stackCount <==> f[7].value == 1.0)
  {
    QuotientInUnitRange(j, sectorCount);
    QuotientInUnitRange(i, stackCount);
  }

  /** With no sectors every vertex's `s` (and with no stacks every vertex's `t`) divides
      zero by zero. */
  lemma DegenerateTextureCoordinates(sectorCount: int, stackCount: int, surface: (int, int) -> SurfacePoint,
                                     i: nat, j: nat)
    requires sectorCount == 0 || stackCount == 0
    requires i <= stackCount && j <= sectorCount
    ensures var f := VertexFloats(sectorCount, stackCount, surface, i, j);
      (sectorCount == 0 ==> f[6].NaN?) && (stackCount == 0 ==> f[7].NaN?)
  {
  }

  // ---------------------------------------------------------------------------
  // Index buffer

  /** Triangles emitted for the cell between stacks `i`, `i + 1` and sectors `j`, `j + 1`:
      `k1, k2, k1 + 1` unless `i` is the top row, `k1 + 1, k2, k2 + 1` unless `i` is the
      bottom row, where `k1` starts the cell on stack `i` and `k2` below it on stack `i + 1`. */
  function CellTriangles(sectorCount: int, stackCount: int, i: nat, j: nat): (r: seq<Triangle>)
    requires i < stackCount && j < sectorCount
    ensures |r| == TrianglesPerCell(stackCount, i)
  {
    var k1 := i * (sectorCount + 1) + j;
    var k2 := k1 + sectorCount + 1;
    (if i != 0 then [Triangle(k1, k2, k1 + 1)] else [])
    + (if i != stackCount - 1 then [Triangle(k1 + 1, k2, k2 + 1)] else [])
  }

  /** Two triangles per cell, one on the top and bottom rows, none when those coincide. */
  function TrianglesPerCell(stackCount: int, i: nat): nat
  {
    (if i != 0 then 1 else 0) + (if i != stackCount - 1 then 1 else 0)
  }

  /** Every triangle has three distinct corners, each a vertex of the buffer. */
  predicate ValidTriangles(ts: seq<Triangle>, vertexCount: nat)
  {
    forall t <- ts :: NonDegenerate(t) && WithinVertices(t, vertexCount)
  }

  lemma ValidTrianglesAppend(xs: seq<Triangle>, ys: seq<Triangle>, vertexCount: nat)
    requires ValidTriangles(xs, vertexCount) && ValidTriangles(ys, vertexCount)
    ensures ValidTriangles(xs + ys, vertexCount)
  {
  }

  /** The cell's farthest corner `k2 + 1` is a vertex of the next stack row. */
  lemma CellCornersInRange(sectorCount: int, stackCount: int, i: nat, j: nat)
    requires i < stackCount && j < sectorCount
    ensures i * (sectorCount + 1) + j + sectorCount + 2 < VertexCount(sectorCount, stackCount)
  {
    var w := sectorCount + 1;
    assert VertexCount(sectorCount, stackCount) == (stackCount + 1) * w;
    MulMonotone(i + 2, stackCount + 1, w);
    assert (i + 2) * w == i * w + 2 * w;
  }

  /** A cell's triangles have distinct corners (`k2 = k1 + sectorCount + 1` lies a whole
      row past `k1`) and every corner is an emitted vertex. */
  lemma CellTrianglesValid(sectorCount: int, stackCount: int, i: nat, j: nat)
    requires i < stackCount && j < sectorCount
    ensures ValidTriangles(CellTriangles(sectorCount, stackCount, i, j), VertexCount(sectorCount, stackCount))
  {
    CellCornersInRange(sectorCount, stackCount, i, j);
  }

  /** Triangles of the first `cols` cells of stack row `i`. */
  function RowTriangles(sectorCount: int, stackCount: int, i: nat, cols: nat): seq<Triangle>
    requires i < stackCount && cols <= Below(sectorCount)
  {
    if cols == 0 then []
    else RowTriangles(sectorCount, stackCount, i, cols - 1) + CellTriangles(sectorCount, stackCount, i, cols - 1)
  }

  /** Triangles of the first `rows` complete stack rows. */
  function MeshTriangles(sectorCount: int, stackCount: int, rows: nat): seq<Triangle>
    requires rows <= Below(stackCount)
  {
    if rows == 0 then []
    else MeshTriangles(sectorCount, stackCount, rows - 1) + RowTriangles(sectorCount, stackCount, rows - 1, Below(sectorCount))
  }

  lemma {:induction false} RowTrianglesValid(sectorCount: int, stackCount: int, i: nat, cols: nat)
    requires i < stackCount && cols <= Below(sectorCount)
    ensures ValidTriangles(RowTriangles(sectorCount, stackCount, i, cols), VertexCount(sectorCount, stackCount))
    decreases cols
  {
    if cols > 0 {
      RowTrianglesValid(sectorCount, stackCount, i, cols - 1);
      CellTrianglesValid(sectorCount, stackCount, i, cols - 1);
      ValidTrianglesAppend(RowTriangles(sectorCount, stackCount, i, cols - 1),
                           CellTriangles(sectorCount, stackCount, i, cols - 1),
                           VertexCount(sectorCount, stackCount));
    }
  }

  lemma {:induction false} MeshTrianglesValid(sectorCount: int, stackCount: int, rows: nat)
    requires rows <= Below(stackCount)
    ensures ValidTriangles(MeshTriangles(sectorCount, stackCount, rows), VertexCount(sectorCount, stackCount))
    decreases rows
  {
    if rows > 0 {
      MeshTrianglesValid(sectorCount, stackCount, rows - 1);
      RowTrianglesValid(sectorCount, stackCount, rows - 1, Below(sectorCount));
      ValidTrianglesAppend(MeshTriangles(sectorCount, stackCount, rows - 1),
                           RowTriangles(sectorCount, stackCount, rows - 1, Below(sectorCount)),
                           VertexCount(sectorCount, stackCount));
    }
  }

  /** The triangle list of the whole sphere, in emission order. */
  function SphereTriangles(sectorCount: int, stackCount: int): seq<Triangle>
  {
    MeshTriangles(sectorCount, stackCount, Below(stackCount))
  }

  /** The whole index buffer `generateSphere` leaves in `outSphereIndices`. */
  function SphereIndices(sectorCount: int, stackCount: int): seq<nat>
  {
    Flatten(SphereTriangles(sectorCount, stackCount))
  }

  /** Indices emitted: `6 * sectorCount * (stackCount - 1)` for positive counts, none otherwise. */
  function IndexCount(sectorCount: int, stackCount: int): nat
  {
    if sectorCount <= 0 || stackCount <= 0 then 0
    else
      MulMonotone(0, stackCount - 1, sectorCount);
      6 * ((stackCount - 1) * sectorCount)
  }

  lemma {:induction false} RowTrianglesLength(sectorCount: int, stackCount: int, i: nat, cols: nat)
    requires i < stackCount && cols <= Below(sectorCount)
    ensures |RowTriangles(sectorCount, stackCount, i, cols)| == cols * TrianglesPerCell(stackCount, i)
    decreases cols
  {
    if cols > 0 {
      RowTrianglesLength(sectorCount, stackCount, i, cols - 1);
    }
  }

  /** Rows strictly above the bottom row contribute one triangle per sector for the
      top row and two for each interior row. */
  lemma {:induction false} UpperRowsCount(sectorCount: int, stackCount: int, rows: nat)
    requires 1 <= rows < stackCount && 1 <= sectorCount
    ensures |MeshTriangles(sectorCount, stackCount, rows)| == (2 * rows - 1) * sectorCount
    decreases rows
  {
    var last := RowTriangles(sectorCount, stackCount, rows - 1, sectorCount);
    assert MeshTriangles(sectorCount, stackCount, rows)
        == MeshTriangles(sectorCount, stackCount, rows - 1) + last;
    RowTrianglesLength(sectorCount, stackCount, rows - 1, sectorCount);
    if rows > 1 {
      UpperRowsCount(sectorCount, stackCount, rows - 1);
      assert TrianglesPerCell(stackCount, rows - 1) == 2;
      assert |last| == sectorCount * 2;
      RowCountStep(rows, sectorCount);
    } else {
      assert TrianglesPerCell(stackCount, 0) == 1;
    }
  }

  lemma RowCountStep(rows: int, sectorCount: int)
    ensures (2 * (rows - 1) - 1) * sectorCount + sectorCount * 2 == (2 * rows - 1) * sectorCount
  {
  }

  /** Upper rows plus the bottom row's one triangle per sector. */
  lemma BottomRowStep(rows: int, sectorCount: int)
    ensures (2 * rows - 1) * sectorCount + sectorCount == 2 * (rows * sectorCount)
  {
  }

  /** Positive counts give `2 * sectorCount * (stackCount - 1)` triangles. */
  lemma SphereTriangleCount(sectorCount: int, stackCount: int)
    requires 1 <= sectorCount && 1 <= stackCount
    ensures |SphereTriangles(sectorCount, stackCount)| == 2 * ((stackCount - 1) * sectorCount)
  {
    var last := RowTriangles(sectorCount, stackCount, stackCount - 1, sectorCount);
    assert SphereTriangles(sectorCount, stackCount)
        == MeshTriangles(sectorCount, stackCount, stackCount - 1) + last;
    RowTrianglesLength(sectorCount, stackCount, stackCount - 1, sectorCount);
    if stackCount == 1 {
      assert TrianglesPerCell(stackCount, 0) == 0;
      assert |last| == 0;
    } else {
      UpperRowsCount(sectorCount, stackCount, stackCount - 1);
      assert TrianglesPerCell(stackCount, stackCount - 1) == 1;
      assert |last| == sectorCount;
      BottomRowStep(stackCount - 1, sectorCount);
    }
  }

  /** The index buffer has exactly `IndexCount` entries: the top row emits only the
      second triangle of each sector, the bottom row only the first, interior rows both. */
  lemma SphereIndexCount(sectorCount: int, stackCount: int)
    ensures |SphereIndices(sectorCount, stackCount)| == IndexCount(sectorCount, stackCount)
  {
    if sectorCount <= 0 || stackCount <= 0 {
      if stackCount > 0 {
        ZeroSectorRows(sectorCount, stackCount, Below(stackCount));
      }
    } else {
      SphereTriangleCount(sectorCount, stackCount);
    }
  }

  lemma {:induction false} ZeroSectorRows(sectorCount: int, stackCount: int, rows: nat)
    requires sectorCount <= 0 && rows <= Below(stackCount)
    ensures MeshTriangles(sectorCount, stackCount, rows) == []
    decreases rows
  {
    if rows > 0 {
      ZeroSectorRows(sectorCount, stackCount, rows - 1);
    }
  }

  /** Every index names an emitted vertex, and every triangle has three distinct corners
      (`k2 = k1 + sectorCount + 1` with `sectorCount >= 1`). */
  lemma SphereIndicesValid(sectorCount: int, stackCount: int)
    ensures forall x <- SphereIndices(sectorCount, stackCount) :: x < VertexCount(sectorCount, stackCount)
    ensures var s := SphereIndices(sectorCount, stackCount);
      forall k :: 0 <= k < |s| / 3 ==> NonDegenerate(TriangleAt(s, k))
  {
    var tris := SphereTriangles(sectorCount, stackCount);
    MeshTrianglesValid(sectorCount, stackCount, Below(stackCount));
    FlattenWithin(tris, VertexCount(sectorCount, stackCount));
    FlattenTriangleAt(tris);
    var s := SphereIndices(sectorCount, stackCount);
    forall k | 0 <= k < |s| / 3
      ensures NonDegenerate(TriangleAt(s, k))
    {
      assert TriangleAt(s, k) == tris[k];
      assert tris[k] in tris;
    }
  }

  // ---------------------------------------------------------------------------
  // The generator itself

  /** `generateSphere`: both output vectors are cleared first, so the result depends only
      on the counts and the surface, whatever `outVertices` and `outIndices` held. */
  method GenerateSphere(sectorCount: int, stackCount: int, surface: (int, int) -> SurfacePoint,
                        outVertices: seq<Float>, outIndices: seq<nat>)
    returns (vertices: seq<Float>, indices: seq<nat>)
    ensures vertices == SphereVertices(sectorCount, stackCount, surface)
    ensures indices == SphereIndices(sectorCount, stackCount)
    ensures |vertices| == 8 * VertexCount(sectorCount, stackCount)
    ensures |indices| == IndexCount(sectorCount, stackCount)
    ensures forall x <- indices :: x < VertexCount(sectorCount, stackCount)
  {
    vertices := EmitVertices(sectorCount, stackCount, surface);
    indices := EmitIndices(sectorCount, stackCount);
  }

  /** The vertex loops of `generateSphere`, pushing eight floats per vertex. */
  method EmitVertices(sectorCount: int, stackCount: int, surface: (int, int) -> SurfacePoint)
    returns (vertices: seq<Float>)
    ensures vertices == SphereVertices(sectorCount, stackCount, surface)
    ensures |vertices| == 8 * VertexCount(sectorCount, stackCount)
  {
    vertices := [];
    var i := 0;
    while i <= stackCount
      invariant 0 <= i <= UpTo(stackCount)
      invariant vertices == MeshFloats(sectorCount, stackCount, surface, i)
    {
      var j := 0;
      while j <= sectorCount
        invariant 0 <= j <= UpTo(sectorCount)
        invariant vertices == MeshFloats(sectorCount, stackCount, surface, i)
                              + RowFloats(sectorCount, stackCount, surface, i, j)
      {
        var p := surface(i, j);
        vertices := vertices + [p.position.x, p.position.y, p.position.z];
        vertices := vertices + [p.normal.x, p.normal.y, p.normal.z];
        vertices := vertices + [Quotient(j, sectorCount), Quotient(i, stackCount)];
        j := j + 1;
      }
      i := i + 1;
    }
    SphereVerticesLength(sectorCount, stackCount, surface);
  }

  /** The index loops of `generateSphere`: each pass of the outer loop appends the
      indices of one stack row. */
  method EmitIndices(sectorCount: int, stackCount: int) returns (indices: seq<nat>)
    ensures indices == SphereIndices(sectorCount, stackCount)
    ensures |indices| == IndexCount(sectorCount, stackCount)
    ensures forall x <- indices :: x < VertexCount(sectorCount, stackCount)
  {
    indices := [];
    var i := 0;
    while i < stackCount
      invariant 0 <= i <= Below(stackCount)
      invariant indices == Flatten(MeshTriangles(sectorCount, stackCount, i))
    {
      var row := EmitRow(sectorCount, stackCount, i);
      FlattenAppend(MeshTriangles(sectorCount, stackCount, i), RowTriangles(sectorCount, stackCount, i, Below(sectorCount)));
      indices := indices + row;
      i := i + 1;
    }
    SphereIndexCount(sectorCount, stackCount);
    SphereIndicesValid(sectorCount, stackCount);
  }

  /** The inner index loop for stack row `i`, with `k1` and `k2` stepping along this row
      and the next. */
  method EmitRow(sectorCount: int, stackCount: int, i: nat) returns (row: seq<nat>)
    requires i < stackCount
    ensures row == Flatten(RowTriangles(sectorCount, stackCount, i, Below(sectorCount)))
  {
    var k1 := i * (sectorCount + 1);
    var k2 := k1 + sectorCount + 1;
    ghost var rowStart := k1;
    if 0 <= sectorCount {
      NonNegativeProduct(i, sectorCount + 1);
    }
    row := [];
    var j := 0;
    while j < sectorCount
      invariant 0 <= j <= Below(sectorCount)
      invariant k1 == rowStart + j && k2 == k1 + sectorCount + 1
      invariant row == Flatten(RowTriangles(sectorCount, stackCount, i, j))
    {
      CellStep(sectorCount, stackCount, i, j, k1, k2);
      ghost var before := row;
      if i != 0 {
        row := row + [k1, k2, k1 + 1];
      }
      if i != stackCount - 1 {
        row := row + [k1 + 1, k2, k2 + 1];
      }
      assert row == before + (if i != 0 then [k1, k2, k1 + 1] else [])
                           + (if i != stackCount - 1 then [k1 + 1, k2, k2 + 1] else []);
      j, k1, k2 := j + 1, k1 + 1, k2 + 1;
    }
  }

  /** One pass of the inner index loop appends the cell's triangles: both in an
      interior row, only the first in the bottom row, only the second in the top row. */
  lemma CellStep(sectorCount: int, stackCount: int, i: nat, j: nat, k1: nat, k2: nat)
    requires i < stackCount && j < sectorCount
    requires k1 == i * (sectorCount + 1) + j && k2 == k1 + sectorCount + 1
    ensures Flatten(RowTriangles(sectorCount, stackCount, i, j + 1))
         == Flatten(RowTriangles(sectorCount, stackCount, i, j))
            + (if i != 0 then [k1, k2, k1 + 1] else [])
            + (if i != stackCount - 1 then [k1 + 1, k2, k2 + 1] else [])
  {
    FlattenAppend(RowTriangles(sectorCount, stackCount, i, j), CellTriangles(sectorCount, stackCount, i, j));
    FlattenCell(sectorCount, stackCount, i, j, k1, k2);
  }

  lemma FlattenCell(sectorCount: int, stackCount: int, i: nat, j: nat, k1: nat, k2: nat)
    requires i < stackCount && j < sectorCount
    requires k1 == i * (sectorCount + 1) + j && k2 == k1 + sectorCount + 1
    ensures Flatten(CellTriangles(sectorCount, stackCount, i, j))
         == (if i != 0 then [k1, k2, k1 + 1] else [])
            + (if i != stackCount - 1 then [k1 + 1, k2, k2 + 1] else [])
  {
    var first := Triangle(k1, k2, k1 + 1);
    var second := Triangle(k1 + 1, k2, k2 + 1);
    if i != 0 && i != stackCount - 1 {
      FlattenTwo(first, second);
      assert [first] + [second] == [first, second];
    } else if i != 0 {
      FlattenOne(first);
      assert [first] + [] == [first];
    } else if i != stackCount - 1 {
      FlattenOne(second);
      assert [] + [second] == [second];
    } else {
      assert Flatten([]) == [];
    }
  }

  // ---------------------------------------------------------------------------
  // The sun: generateSphere(sunRadius, 36, 18, ...) and its draw call

  const SunSectors: int := 36
  const SunStacks: int := 18

  /** Drawing the whole index buffer, as the sun's `glDrawElements` call does with
      `sphereIndices.size()`, stays within the vertex buffer. */
  lemma SphereDrawValid(sectorCount: int, stackCount: int)
    ensures var s := SphereIndices(sectorCount, stackCount);
      ValidTriangleDraw(VertexCount(sectorCount, stackCount), s, |s|)
  {
    SphereIndicesValid(sectorCount, stackCount);
    WholeBufferDraw(VertexCount(sectorCount, stackCount), SphereIndices(sectorCount, stackCount));
  }

  lemma SunCounts()
    ensures UpTo(SunStacks) == 19 && UpTo(SunSectors) == 37
    ensures VertexCount(SunSectors, SunStacks) == 703
    ensures IndexCount(SunSectors, SunStacks) == 3672
  {
  }

  /** The sun's buffers: 703 vertices in 5624 floats and 3672 indices, all non-empty
      (`main.cpp` takes `&v[0]` of both), and drawing all of them is in range. */
  lemma SunSphere(surface: (int, int) -> SurfacePoint)
    ensures VertexCount(SunSectors, SunStacks) == 703
    ensures |SphereVertices(SunSectors, SunStacks, surface)| == 5624
    ensures |SphereIndices(SunSectors, SunStacks)| == 3672
    ensures var s := SphereIndices(SunSectors, SunStacks); ValidTriangleDraw(703, s, |s|)
  {
    SunCounts();
    SphereVerticesLength(SunSectors, SunStacks, surface);
    SphereIndexCount(SunSectors, SunStacks);
    SphereDrawValid(SunSectors, SunStacks);
  }
}
