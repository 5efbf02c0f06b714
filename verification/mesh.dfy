/** Indexed triangle lists, as the scene hands them to `glDrawElements` with
    `GL_TRIANGLES`: a flat element buffer read three indices at a time. */
module Mesh {

  /** A point or direction in model space, over the component type of its buffer. */
  datatype Vec3<T> = Vec3(x: T, y: T, z: T)

  /** One triangle of an element buffer, its corners in winding order. */
  datatype Triangle = Triangle(a: nat, b: nat, c: nat)

  /** The three corners name three different vertices. */
  predicate NonDegenerate(t: Triangle)
  {
    t.a != t.b && t.b != t.c && t.a != t.c
  }

  /** Every corner names a vertex of a buffer holding `vertexCount` vertices. */
  predicate WithinVertices(t: Triangle, vertexCount: nat)
  {
    t.a < vertexCount && t.b < vertexCount && t.c < vertexCount
  }

  /** The `k`-th triangle of a flat element buffer. */
  function TriangleAt(indices: seq<nat>, k: nat): Triangle
    requires 3 * k + 3 <= |indices|
  {
    Triangle(indices[3 * k], indices[3 * k + 1], indices[3 * k + 2])
  }

  /** The element buffer that lists `ts` corner by corner. */
  function Flatten(ts: seq<Triangle>): (s: seq<nat>)
    ensures |s| == 3 * |ts|
  {
    if ts == [] then []
    else
      var last := ts[|ts| - 1];
      Flatten(ts[..|ts| - 1]) + [last.a, last.b, last.c]
  }

  /** Reading the flattened buffer three indices at a time gives back the triangles. */
  lemma {:induction false} FlattenTriangleAt(ts: seq<Triangle>)
    ensures forall k :: 0 <= k < |ts| ==> TriangleAt(Flatten(ts), k) == ts[k]
    decreases |ts|
  {
    if ts != [] {
      var init := ts[..|ts| - 1];
      FlattenTriangleAt(init);
      var s := Flatten(ts);
      assert s == Flatten(init) + [ts[|ts| - 1].a, ts[|ts| - 1].b, ts[|ts| - 1].c];
      forall k | 0 <= k < |ts|
        ensures TriangleAt(s, k) == ts[k]
      {
        if k < |init| {
          assert TriangleAt(Flatten(init), k) == init[k];
        }
      }
    }
  }

  lemma {:induction false} FlattenAppend(xs: seq<Triangle>, ys: seq<Triangle>)
    ensures Flatten(xs + ys) == Flatten(xs) + Flatten(ys)
    decreases |ys|
  {
    if ys == [] {
      assert xs + ys == xs;
    } else {
      var ys' := ys[..|ys| - 1];
      var last := ys[|ys| - 1];
      assert (xs + ys)[..|xs + ys| - 1] == xs + ys';
      FlattenAppend(xs, ys');
    }
  }

  lemma FlattenOne(t: Triangle)
    ensures Flatten([t]) == [t.a, t.b, t.c]
  {
    assert [t][..0] == [];
  }

  lemma FlattenTwo(t: Triangle, u: Triangle)
    ensures Flatten([t, u]) == [t.a, t.b, t.c, u.a, u.b, u.c]
  {
    assert [t, u][..1] == [t];
    FlattenOne(t);
  }

  /** Every index in the flattened buffer is a corner of one of the triangles,
      so a bound every triangle respects holds of the whole buffer. */
  lemma {:induction false} FlattenWithin(ts: seq<Triangle>, vertexCount: nat)
    requires forall t <- ts :: WithinVertices(t, vertexCount)
    ensures forall x <- Flatten(ts) :: x < vertexCount
    decreases |ts|
  {
    if ts != [] {
      var init := ts[..|ts| - 1];
      var last := ts[|ts| - 1];
      assert forall t <- init :: t in ts;
      FlattenWithin(init, vertexCount);
      assert Flatten(ts) == Flatten(init) + [last.a, last.b, last.c];
      assert WithinVertices(last, vertexCount);
    }
  }

  /** A draw `glDrawElements(GL_TRIANGLES, count, GL_UNSIGNED_INT, 0)` that reads
      only defined data and only whole triangles: `count` indices are present and
      each names one of the `vertexCount` vertices of the bound array buffer, and,
      as this model demands (OpenGL itself would silently skip a trailing partial
      triangle), `count` is a multiple of 3. */
  predicate ValidTriangleDraw(vertexCount: nat, indices: seq<nat>, count: int)
  {
    && 0 <= count <= |indices|
    && count % 3 == 0
    && forall k :: 0 <= k < count ==> indices[k] < vertexCount
  }

  /** Drawing a whole element buffer reads whole triangles of defined vertices exactly
      when every index is in range and the buffer's length is a multiple of 3. */
  lemma WholeBufferDraw(vertexCount: nat, indices: seq<nat>)
    ensures ValidTriangleDraw(vertexCount, indices, |indices|)
        <==> |indices| % 3 == 0 && forall x <- indices :: x < vertexCount
  {
    if forall k :: 0 <= k < |indices| ==> indices[k] < vertexCount {
      forall x | x in indices
        ensures x < vertexCount
      {
        var k :| 0 <= k < |indices| && indices[k] == x;
      }
    }
    if forall x <- indices :: x < vertexCount {
      forall k | 0 <= k < |indices|
        ensures indices[k] < vertexCount
      {
        assert indices[k] in indices;
      }
    }
  }

  // ---------------------------------------------------------------------------
  // Slices of buffers built by appending

  lemma SliceOfSuffix<T>(xs: seq<T>, ys: seq<T>, lo: nat, hi: nat)
    requires lo <= hi <= |ys|
    ensures (xs + ys)[|xs| + lo .. |xs| + hi] == ys[lo..hi]
  {
  }

  lemma SliceOfPrefix<T>(xs: seq<T>, ys: seq<T>, lo: nat, hi: nat)
    requires xs <= ys && lo <= hi <= |xs|
    ensures ys[lo..hi] == xs[lo..hi]
  {
    assert ys[..|xs|] == xs;
  }
}
