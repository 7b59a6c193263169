// What OnPopulateMesh builds, as functions of its inputs: the gradient points,
// the rect layout and the sprite's outer UV rectangle. The imperative builder
// (CustomVerticalGradientUIMesh.OnPopulateMesh and AddQuad in module
// GradientUIMesh) is proved to leave exactly StackVertices and StackTriangles
// in the buffer; the lemmas below say what those sequences are.
module GradientMesh {
  import opened Engine
  import opened VertexBuffer

  /** CustomVerticalGradientUIMesh.GradientPoint */
  datatype GradientPoint = GradientPoint(normalizedPosition: real, vertexColor: Color)

  /** What the builder reads from rectTransform: rect width and height, and the pivot. */
  datatype RectLayout = RectLayout(width: real, height: real, pivot: Vec2)

  /** The two points the editor-only Reset seeds: position 1 then position 0, both white. */
  const DefaultPoints := [GradientPoint(1.0, White), GradientPoint(0.0, White)]

  /** The sprite's rectangle in its atlas texture, or Vector4.zero when there is no sprite. */
  function OuterUV(sprite: Option<Sprite>): (uv: Vec4)
    ensures sprite.None? ==> uv == Vec4Zero
    ensures sprite.Some? ==> uv == sprite.value.outerUV
  {
    if sprite.Some? then sprite.value.outerUV else Vec4Zero
  }

  /** (0, 0) minus the pivot, scaled by the rect size: the rect's lower-left corner
      in local space, which is -pivot * (width, height). */
  function BottomLeft(rect: RectLayout): (bl: Vec2)
    ensures bl.x == -(rect.pivot.x * rect.width) && bl.y == -(rect.pivot.y * rect.height)
  {
    var corner := Vec2(0.0 - rect.pivot.x, 0.0 - rect.pivot.y);
    Vec2(corner.x * rect.width, corner.y * rect.height)
  }

  // The four values the loop body of OnPopulateMesh computes for one pair of points.

  function Corner1(bl: Vec2, first: GradientPoint, rect: RectLayout): Vec2
  {
    Vec2(bl.x + 0.0, bl.y + first.normalizedPosition * rect.height)
  }

  function Corner2(bl: Vec2, second: GradientPoint, rect: RectLayout): Vec2
  {
    Vec2(bl.x + rect.width, bl.y + second.normalizedPosition * rect.height)
  }

  /** uv (0, p) remapped into the outer rectangle with Mathf.Lerp on each axis. */
  function UVCorner1(outer: Vec4, first: GradientPoint): Vec2
  {
    Vec2(Lerp(outer.x, outer.z, 0.0), Lerp(outer.y, outer.w, first.normalizedPosition))
  }

  /** uv (1, p) remapped into the outer rectangle with Mathf.Lerp on each axis. */
  function UVCorner2(outer: Vec4, second: GradientPoint): Vec2
  {
    Vec2(Lerp(outer.x, outer.z, 1.0), Lerp(outer.y, outer.w, second.normalizedPosition))
  }

  /** The four vertices AddQuad appends, in order: corner1, (corner2.x, corner1.y),
      corner2, (corner1.x, corner2.y); the first two coloured clr1, the last two clr2. */
  function QuadVertices(corner1: Vec2, corner2: Vec2, uv1: Vec2, uv2: Vec2, clr1: Color, clr2: Color): (q: seq<UIVertex>)
    ensures |q| == 4
  {
    [ UIVertex(corner1, uv1, ToColor32(clr1)),
      UIVertex(Vec2(corner2.x, corner1.y), Vec2(uv2.x, uv1.y), ToColor32(clr1)),
      UIVertex(corner2, uv2, ToColor32(clr2)),
      UIVertex(Vec2(corner1.x, corner2.y), Vec2(uv1.x, uv2.y), ToColor32(clr2)) ]
  }

  /** The two triangles AddQuad appends for a quad whose first vertex has index i. */
  function QuadTriangles(i: int): (t: seq<Triangle>)
    ensures |t| == 2
  {
    [Triangle(i + 0, i + 2, i + 1), Triangle(i + 3, i + 2, i + 0)]
  }

  /** The quad emitted for one loop step: `first` is points[i], `second` is points[i - 1]. */
  function PairQuad(first: GradientPoint, second: GradientPoint, rect: RectLayout, outer: Vec4): (q: seq<UIVertex>)
    ensures |q| == 4
  {
    var bl := BottomLeft(rect);
    QuadVertices(Corner1(bl, first, rect), Corner2(bl, second, rect),
                 UVCorner1(outer, first), UVCorner2(outer, second),
                 first.vertexColor, second.vertexColor)
  }

  /** Number of quads for n points: one per adjacent pair, none for fewer than two points. */
  function QuadCount(n: int): nat
  {
    if n < 2 then 0 else n - 1
  }

  /** All vertices OnPopulateMesh leaves in the buffer. The loop walks i from the last
      index down to 1, so the quads of points[1..] come first and the quad of the pair
      (points[1], points[0]) comes last. The buffer is empty exactly for fewer than two
      points. */
  function StackVertices(points: seq<GradientPoint>, rect: RectLayout, outer: Vec4): (vs: seq<UIVertex>)
    ensures vs == [] <==> |points| < 2
    decreases |points|
  {
    if |points| < 2 then []
    else StackVertices(points[1..], rect, outer) + PairQuad(points[1], points[0], rect, outer)
  }

  /** All triangles OnPopulateMesh leaves in the buffer for n points. The buffer is
      empty for fewer than two points; otherwise it opens with the first quad's
      triangles (0, 2, 1) and (3, 2, 0). */
  function StackTriangles(n: nat): (ts: seq<Triangle>)
    ensures ts == [] <==> n < 2
    ensures n >= 2 ==> |ts| >= 2 && ts[0] == Triangle(0, 2, 1) && ts[1] == Triangle(3, 2, 0)
  {
    if n < 2 then []
    else StackTriangles(n - 1) + QuadTriangles(4 * (n - 2))
  }

  /** One iteration of the builder's loop at index i: the vertices for points[i - 1..]
      are those for points[i..] followed by the quad of the pair (points[i], points[i - 1]),
      and the triangles gain that quad's two triangles, numbered after the earlier quads. */
  lemma StackStep(points: seq<GradientPoint>, i: int, rect: RectLayout, outer: Vec4)
    requires 1 <= i < |points|
    ensures StackVertices(points[i - 1..], rect, outer)
      == StackVertices(points[i..], rect, outer) + PairQuad(points[i], points[i - 1], rect, outer)
    ensures StackTriangles(|points| - i + 1) == StackTriangles(|points| - i) + QuadTriangles(4 * (|points| - i - 1))
    ensures |StackVertices(points[i..], rect, outer)| == 4 * (|points| - i - 1)
  {
    assert points[i - 1..][1..] == points[i..];
    StackVerticesLength(points[i..], rect, outer);
  }

  /** Four vertices per quad. */
  lemma {:induction false} StackVerticesLength(points: seq<GradientPoint>, rect: RectLayout, outer: Vec4)
    ensures |StackVertices(points, rect, outer)| == 4 * QuadCount(|points|)
    decreases |points|
  {
    if |points| >= 2 {
      StackVerticesLength(points[1..], rect, outer);
    }
  }

  /** Two triangles per quad. */
  lemma {:induction false} StackTrianglesLength(n: nat)
    ensures |StackTriangles(n)| == 2 * QuadCount(n)
  {
    if n >= 2 {
      StackTrianglesLength(n - 1);
    }
  }

  /** The k-th quad in the buffer (k from 0) is built from points[N-1-k] as its first
      point and points[N-2-k] as its second: points are consumed from the end toward 0. */
  lemma {:induction false} StackQuadAt(points: seq<GradientPoint>, rect: RectLayout, outer: Vec4, k: nat)
    requires k < QuadCount(|points|)
    ensures |StackVertices(points, rect, outer)| == 4 * QuadCount(|points|)
    ensures StackVertices(points, rect, outer)[4 * k .. 4 * k + 4]
         == PairQuad(points[|points| - 1 - k], points[|points| - 2 - k], rect, outer)
    decreases |points|
  {
    var n := |points|;
    var rest := StackVertices(points[1..], rect, outer);
    StackVerticesLength(points[1..], rect, outer);
    StackVerticesLength(points, rect, outer);
    var last := PairQuad(points[1], points[0], rect, outer);
    assert StackVertices(points, rect, outer) == rest + last;
    if k < n - 2 {
      StackQuadAt(points[1..], rect, outer, k);
      SliceOfAppend(rest, last, 4 * k, 4 * k + 4);
    } else {
      SliceOfAppend(rest, last, 4 * k, 4 * k + 4);
    }
  }

  /** A slice of a concatenation that lies wholly in one part is a slice of that part. */
  lemma SliceOfAppend<T>(a: seq<T>, b: seq<T>, i: nat, j: nat)
    requires i <= j <= |a| + |b|
    ensures j <= |a| ==> (a + b)[i..j] == a[i..j]
    ensures i == |a| ==> (a + b)[i..j] == b[..j - i]
  {
  }

  /** Triangles 2k and 2k+1 belong to quad k and use its four vertices 4k .. 4k+3
      with the fixed winding (v0, v2, v1) and (v3, v2, v0). */
  lemma {:induction false} StackTriangleAt(n: nat, k: nat)
    requires k < QuadCount(n)
    ensures |StackTriangles(n)| == 2 * QuadCount(n)
    ensures StackTriangles(n)[2 * k] == Triangle(4 * k, 4 * k + 2, 4 * k + 1)
    ensures StackTriangles(n)[2 * k + 1] == Triangle(4 * k + 3, 4 * k + 2, 4 * k)
  {
    StackTrianglesLength(n);
    StackTrianglesLength(n - 1);
    if k < n - 2 {
      StackTriangleAt(n - 1, k);
    }
  }

  /** Every triangle index points at a vertex of the finished buffer. */
  lemma StackTrianglesWithin(n: nat)
    ensures IndicesWithin(StackTriangles(n), 4 * QuadCount(n))
  {
    StackTrianglesLength(n);
    forall j | 0 <= j < |StackTriangles(n)|
      ensures TriangleWithin(StackTriangles(n)[j], 4 * QuadCount(n))
    {
      StackTriangleAt(n, j / 2);
    }
  }

  /** The four vertices of one pair's quad, with p1 and p2 the positions of its first
      and second point and bl the lower-left corner. */
  predicate QuadShape(q: seq<UIVertex>, first: GradientPoint, second: GradientPoint, rect: RectLayout, outer: Vec4)
  {
    var p1 := first.normalizedPosition;
    var p2 := second.normalizedPosition;
    var bl := BottomLeft(rect);
    var w := rect.width;
    var h := rect.height;
    && |q| == 4
    && q[0] == UIVertex(Vec2(bl.x, bl.y + p1 * h), Vec2(outer.x, Lerp(outer.y, outer.w, p1)), ToColor32(first.vertexColor))
    && q[1] == UIVertex(Vec2(bl.x + w, bl.y + p1 * h), Vec2(outer.z, Lerp(outer.y, outer.w, p1)), ToColor32(first.vertexColor))
    && q[2] == UIVertex(Vec2(bl.x + w, bl.y + p2 * h), Vec2(outer.z, Lerp(outer.y, outer.w, p2)), ToColor32(second.vertexColor))
    && q[3] == UIVertex(Vec2(bl.x, bl.y + p2 * h), Vec2(outer.x, Lerp(outer.y, outer.w, p2)), ToColor32(second.vertexColor))
  }

  /** What one loop step emits: v0 = (bl.x, bl.y + p1 h), v1 = (bl.x + w, bl.y + p1 h),
      v2 = (bl.x + w, bl.y + p2 h), v3 = (bl.x, bl.y + p2 h); u is outer.x on v0 and v3
      and outer.z on v1 and v2; v is Mathf.Lerp(outer.y, outer.w, p); v0 and v1 carry the
      first point's colour, v2 and v3 the second's. */
  lemma PairQuadShape(first: GradientPoint, second: GradientPoint, rect: RectLayout, outer: Vec4)
    ensures QuadShape(PairQuad(first, second, rect, outer), first, second, rect, outer)
  {
    var bl := BottomLeft(rect);
    var c1 := Corner1(bl, first, rect);
    var c2 := Corner2(bl, second, rect);
    var uv1 := UVCorner1(outer, first);
    var uv2 := UVCorner2(outer, second);
    assert uv1.x == outer.x && uv2.x == outer.z;
    assert c1.x == bl.x;
    var q := PairQuad(first, second, rect, outer);
    assert q == QuadVertices(c1, c2, uv1, uv2, first.vertexColor, second.vertexColor);
  }

  /** Quad k of the buffer has the shape of its pair, points[N-1-k] then points[N-2-k].
      Positions are not clamped, so two equal positions give a quad of zero height. */
  lemma StackVertexAt(points: seq<GradientPoint>, rect: RectLayout, outer: Vec4, k: nat)
    requires k < QuadCount(|points|)
    ensures |StackVertices(points, rect, outer)| == 4 * QuadCount(|points|)
    ensures QuadShape(StackVertices(points, rect, outer)[4 * k .. 4 * k + 4],
                      points[|points| - 1 - k], points[|points| - 2 - k], rect, outer)
  {
    StackQuadAt(points, rect, outer, k);
    PairQuadShape(points[|points| - 1 - k], points[|points| - 2 - k], rect, outer);
  }

  /** Every uv lies inside the outer rectangle, whatever the positions: Mathf.Lerp clamps. */
  lemma StackUVsWithinOuter(points: seq<GradientPoint>, rect: RectLayout, outer: Vec4)
    ensures var vs := StackVertices(points, rect, outer);
      forall j :: 0 <= j < |vs| ==>
        Between(vs[j].uv0.x, outer.x, outer.z) && Between(vs[j].uv0.y, outer.y, outer.w)
  {
    var vs := StackVertices(points, rect, outer);
    StackVerticesLength(points, rect, outer);
    forall j | 0 <= j < |vs|
      ensures Between(vs[j].uv0.x, outer.x, outer.z) && Between(vs[j].uv0.y, outer.y, outer.w)
    {
      var k := j / 4;
      StackVertexAt(points, rect, outer, k);
      var n := |points|;
      LerpWithin(outer.y, outer.w, points[n - 1 - k].normalizedPosition);
      LerpWithin(outer.y, outer.w, points[n - 2 - k].normalizedPosition);
    }
  }

  /** With no sprite the outer rectangle is Vector4.zero, so every uv collapses to (0, 0):
      the remap is not the identity. */
  lemma NoSpriteUVsAtOrigin(points: seq<GradientPoint>, rect: RectLayout)
    ensures var vs := StackVertices(points, rect, OuterUV(None));
      forall j :: 0 <= j < |vs| ==> vs[j].uv0 == Vec2Zero
  {
    StackUVsWithinOuter(points, rect, OuterUV(None));
  }

  /** The uvs of one pair's quad: (outer.x, v1), (outer.z, v1), (outer.z, v2), (outer.x, v2)
      with v1, v2 the Mathf.Lerp remap of the two positions into [outer.y, outer.w]. */
  lemma PairQuadUVs(first: GradientPoint, second: GradientPoint, rect: RectLayout, outer: Vec4)
    ensures var q := PairQuad(first, second, rect, outer);
      var v1 := Lerp(outer.y, outer.w, first.normalizedPosition);
      var v2 := Lerp(outer.y, outer.w, second.normalizedPosition);
      q[0].uv0 == Vec2(outer.x, v1) && q[1].uv0 == Vec2(outer.z, v1)
      && q[2].uv0 == Vec2(outer.z, v2) && q[3].uv0 == Vec2(outer.x, v2)
  {
    var bl := BottomLeft(rect);
    assert PairQuad(first, second, rect, outer)
        == QuadVertices(Corner1(bl, first, rect), Corner2(bl, second, rect),
                        UVCorner1(outer, first), UVCorner2(outer, second),
                        first.vertexColor, second.vertexColor);
  }

  /** The remap of the uv corners: with the full-texture outer rectangle (0, 0, 1, 1)
      and positions inside [0, 1] it is the identity, (0, p1) and (1, p2); for any outer
      rectangle a position of one half lands on the midpoint of [outer.y, outer.w]. */
  lemma UVRemapIdentityAndMidpoint(first: GradientPoint, second: GradientPoint, outer: Vec4)
    requires 0.0 <= first.normalizedPosition <= 1.0 && 0.0 <= second.normalizedPosition <= 1.0
    ensures UVCorner1(Vec4(0.0, 0.0, 1.0, 1.0), first) == Vec2(0.0, first.normalizedPosition)
    ensures UVCorner2(Vec4(0.0, 0.0, 1.0, 1.0), second) == Vec2(1.0, second.normalizedPosition)
    ensures first.normalizedPosition == 0.5 ==> UVCorner1(outer, first).y == (outer.y + outer.w) / 2.0
  {
    LerpUnitAndMidpoint(0.0, 1.0, first.normalizedPosition);
    LerpUnitAndMidpoint(0.0, 1.0, second.normalizedPosition);
    LerpUnitAndMidpoint(outer.y, outer.w, 0.5);
  }

  /** Outside [0, 1] the remap clamps: with the full-texture outer rectangle the v
      coordinate goes to the nearer edge, 0 or 1, while the vertex keeps the unclamped
      height bl.y + p * h. */
  lemma UVRemapClampsOutside(bl: Vec2, first: GradientPoint, rect: RectLayout)
    requires first.normalizedPosition < 0.0 || first.normalizedPosition > 1.0
    ensures first.normalizedPosition < 0.0 ==> UVCorner1(Vec4(0.0, 0.0, 1.0, 1.0), first).y == 0.0
    ensures first.normalizedPosition > 1.0 ==> UVCorner1(Vec4(0.0, 0.0, 1.0, 1.0), first).y == 1.0
    ensures Corner1(bl, first, rect).y == bl.y + first.normalizedPosition * rect.height
  {
  }

  /** The editor default (position 1 then position 0, both white) draws one white quad
      covering the whole rect. The loop takes the last point (position 0) first, so the
      quad starts at the bottom edge: its uvs are the outer rectangle's four corners. */
  lemma DefaultPointsFillRect(rect: RectLayout, outer: Vec4)
    ensures var bl := BottomLeft(rect);
      var w := rect.width;
      var h := rect.height;
      var white := Color32(255, 255, 255, 255);
      && StackVertices(DefaultPoints, rect, outer)
         == [ UIVertex(Vec2(bl.x, bl.y), Vec2(outer.x, outer.y), white),
              UIVertex(Vec2(bl.x + w, bl.y), Vec2(outer.z, outer.y), white),
              UIVertex(Vec2(bl.x + w, bl.y + h), Vec2(outer.z, outer.w), white),
              UIVertex(Vec2(bl.x, bl.y + h), Vec2(outer.x, outer.w), white) ]
      && StackTriangles(|DefaultPoints|) == [Triangle(0, 2, 1), Triangle(3, 2, 0)]
  {
    var vs := StackVertices(DefaultPoints, rect, outer);
    StackVertexAt(DefaultPoints, rect, outer, 0);
    var bl := BottomLeft(rect);
    var white := Color32(255, 255, 255, 255);
    assert vs == vs[0 .. 4];
    assert ToColor32(White) == white;
    assert bl.y + 1.0 * rect.height == bl.y + rect.height && bl.y + 0.0 * rect.height == bl.y;
    assert Lerp(outer.y, outer.w, 0.0) == outer.y && Lerp(outer.y, outer.w, 1.0) == outer.w;
    assert vs[0] == UIVertex(Vec2(bl.x, bl.y), Vec2(outer.x, outer.y), white);
    assert vs[1] == UIVertex(Vec2(bl.x + rect.width, bl.y), Vec2(outer.z, outer.y), white);
    assert vs[2] == UIVertex(Vec2(bl.x + rect.width, bl.y + rect.height), Vec2(outer.z, outer.w), white);
    assert vs[3] == UIVertex(Vec2(bl.x, bl.y + rect.height), Vec2(outer.x, outer.w), white);
    assert StackTriangles(2) == StackTriangles(1) + QuadTriangles(0);
  }
}
