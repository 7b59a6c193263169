// The host's mesh builder (UnityEngine.UI.VertexHelper), reduced to the two
// buffers the component fills: a list of vertices and a list of triangles
// whose entries index into it.
module VertexBuffer {
  import opened Engine

  datatype Triangle = Triangle(i0: int, i1: int, i2: int)

  /** Every corner of t is a valid index into a vertex list of length n. */
  predicate TriangleWithin(t: Triangle, n: int)
  {
    0 <= t.i0 < n && 0 <= t.i1 < n && 0 <= t.i2 < n
  }

  /** Every triangle of the list indexes a vertex list of length n. */
  predicate IndicesWithin(tris: seq<Triangle>, n: int)
  {
    forall j :: 0 <= j < |tris| ==> TriangleWithin(tris[j], n)
  }

  class VertexHelper {
    var verts: seq<UIVertex>
    var tris: seq<Triangle>

    constructor ()
      ensures verts == [] && tris == []
    {
      verts, tris := [], [];
    }

    /** VertexHelper.currentVertCount */
    function CurrentVertCount(): (n: nat)
      reads this
      ensures n == |verts|
    {
      |verts|
    }

    /** VertexHelper.Clear: both buffers become empty. */
    method Clear()
      modifies this
      ensures verts == [] && tris == []
    {
      verts, tris := [], [];
    }

    /** VertexHelper.AddVert: appends one vertex. */
    method AddVert(v: UIVertex)
      modifies this
      ensures verts == old(verts) + [v] && tris == old(tris)
    {
      verts := verts + [v];
    }

    /** VertexHelper.AddTriangle: appends one triangle. */
    method AddTriangle(i0: int, i1: int, i2: int)
      modifies this
      ensures tris == old(tris) + [Triangle(i0, i1, i2)] && verts == old(verts)
    {
      tris := tris + [Triangle(i0, i1, i2)];
    }
  }
}
