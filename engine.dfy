// The parts of the Unity engine that the gradient component touches, as values:
// vectors, colours, Mathf.Lerp, the Color -> Color32 conversion a UIVertex
// performs, Vector2's approximate `==`, and the assets (textures, sprites,
// materials) the component only compares and passes on.
// Coordinates are `real`: float rounding is not modelled.
module Engine {

  datatype Option<T> = None | Some(value: T)

  datatype Vec2 = Vec2(x: real, y: real)

  /** Vector4; for an outer UV, (x, y) is the lower-left and (z, w) the upper-right corner. */
  datatype Vec4 = Vec4(x: real, y: real, z: real, w: real)

  const Vec2Zero := Vec2(0.0, 0.0)
  const Vec4Zero := Vec4(0.0, 0.0, 0.0, 0.0)

  function Min(a: real, b: real): real { if a <= b then a else b }
  function Max(a: real, b: real): real { if a <= b then b else a }

  /** True when r lies on the closed segment between a and b, whichever is larger. */
  predicate Between(r: real, a: real, b: real) { Min(a, b) <= r <= Max(a, b) }

  /** Mathf.Clamp01 */
  function Clamp01(t: real): (r: real)
    ensures 0.0 <= r <= 1.0
    ensures 0.0 <= t <= 1.0 ==> r == t
    ensures t < 0.0 ==> r == 0.0
    ensures t > 1.0 ==> r == 1.0
  {
    if t < 0.0 then 0.0 else if t > 1.0 then 1.0 else t
  }

  /** Mathf.Lerp, a + (b - a) * Clamp01(t), written out per case of the clamp. */
  function Lerp(a: real, b: real, t: real): (r: real)
    ensures r == a + (b - a) * Clamp01(t)
  {
    if t <= 0.0 then a
    else if t >= 1.0 then b
    else a + (b - a) * t
  }

  /** Because the parameter is clamped, Mathf.Lerp never leaves the segment between a and b. */
  lemma LerpWithin(a: real, b: real, t: real)
    ensures Between(Lerp(a, b, t), a, b)
  {
    var c := Clamp01(t);
    var d := b - a;
    assert Lerp(a, b, t) == a + d * c;
    assert d - d * c == d * (1.0 - c);
    if d >= 0.0 {
      ProductNonNegative(d, c);
      ProductNonNegative(d, 1.0 - c);
    } else {
      ProductNonNegative(-d, c);
      ProductNonNegative(-d, 1.0 - c);
      assert (-d) * c == -(d * c);
      assert (-d) * (1.0 - c) == -(d * (1.0 - c));
    }
  }

  lemma ProductNonNegative(x: real, y: real)
    requires x >= 0.0 && y >= 0.0
    ensures x * y >= 0.0
  {
  }

  /** On the unit segment Mathf.Lerp is the identity, and a half step lands on the midpoint. */
  lemma LerpUnitAndMidpoint(a: real, b: real, t: real)
    requires 0.0 <= t <= 1.0
    ensures Lerp(0.0, 1.0, t) == t
    ensures Lerp(a, b, 0.5) == (a + b) / 2.0
  {
  }

  /** Colour with float channels (UnityEngine.Color). */
  datatype Color = Color(r: real, g: real, b: real, a: real)

  const White := Color(1.0, 1.0, 1.0, 1.0)

  type Byte = b: int | 0 <= b < 256

  /** Colour with byte channels (UnityEngine.Color32), which is what a UIVertex stores. */
  datatype Color32 = Color32(r: Byte, g: Byte, b: Byte, a: Byte)

  /** Mathf.Round: to the nearest integer, a tie going to the even one. */
  function RoundHalfEven(x: real): (n: int)
    ensures x - 0.5 <= n as real <= x + 0.5
    ensures (n as real - x == 0.5 || x - n as real == 0.5) ==> n % 2 == 0
  {
    var f := x.Floor;
    var frac := x - f as real;
    if frac < 0.5 then f
    else if frac > 0.5 then f + 1
    else if f % 2 == 0 then f
    else f + 1
  }

  /** b is a byte nearest to the channel value v saturated to [0, 1] and scaled to 255. */
  predicate NearestByte(v: real, b: Byte)
  {
    Clamp01(v) * 255.0 - 0.5 <= b as real <= Clamp01(v) * 255.0 + 0.5
  }

  /** One channel of the Color -> Color32 conversion: clamp, scale to 255, round. */
  function Channel(v: real): (b: Byte)
    ensures v <= 0.0 ==> b == 0
    ensures v >= 1.0 ==> b == 255
    ensures NearestByte(v, b)
  {
    var x := Clamp01(v) * 255.0;
    RoundHalfEven(x)
  }

  /** The implicit conversion performed when a Color is stored into UIVertex.color:
      every channel becomes a nearest byte to its saturated value, so 0 and below give 0
      and 1 and above give 255. */
  function ToColor32(c: Color): (r: Color32)
    ensures NearestByte(c.r, r.r) && NearestByte(c.g, r.g) && NearestByte(c.b, r.b) && NearestByte(c.a, r.a)
    ensures c == White ==> r == Color32(255, 255, 255, 255)
  {
    Color32(Channel(c.r), Channel(c.g), Channel(c.b), Channel(c.a))
  }

  /** Vector2's `==` operator: the squared distance is below kEpsilon squared (kEpsilon = 1e-5).
      Vector2.Equals, by contrast, is exact equality of the datatype. Equal vectors compare
      equal, and vectors that compare equal differ by less than kEpsilon on each axis. */
  const Epsilon: real := 0.00001

  predicate ApproxEqual(a: Vec2, b: Vec2)
    ensures a == b ==> ApproxEqual(a, b)
    ensures ApproxEqual(a, b) ==> -Epsilon < a.x - b.x < Epsilon && -Epsilon < a.y - b.y < Epsilon
  {
    var dx := a.x - b.x;
    var dy := a.y - b.y;
    SquareBelowBound(dx, dy * dy, Epsilon);
    SquareBelowBound(dy, dx * dx, Epsilon);
    dx * dx + dy * dy < Epsilon * Epsilon
  }

  /** A value whose square, plus something non-negative, stays below e * e lies within e. */
  lemma SquareBelowBound(d: real, rest: real, e: real)
    requires e > 0.0
    ensures rest >= 0.0 && d * d + rest < e * e ==> -e < d < e
  {
    if d >= e {
      assert d * d >= e * d >= e * e;
    } else if d <= -e {
      assert d * d == (-d) * (-d) >= e * (-d) >= e * e;
    }
  }

  /** For whole-pixel sizes, Vector2's approximate comparison with zero is exact. */
  lemma WholeSizeApproxZeroIsExact(v: Vec2)
    requires v.x.Floor as real == v.x && v.y.Floor as real == v.y
    ensures ApproxEqual(v, Vec2Zero) <==> v == Vec2Zero
  {
    if v.x != 0.0 {
      assert v.x <= -1.0 || v.x >= 1.0;
      assert v.x * v.x >= 1.0 by { SquareAtLeastOne(v.x); }
      assert v.y * v.y >= 0.0;
    } else if v.y != 0.0 {
      assert v.y * v.y >= 1.0 by { SquareAtLeastOne(v.y); }
    }
  }

  lemma SquareAtLeastOne(z: real)
    requires z <= -1.0 || z >= 1.0
    ensures z * z >= 1.0
  {
    if z >= 1.0 {
      assert z * z >= 1.0 * z;
    } else {
      assert (-z) * (-z) >= 1.0 * (-z);
    }
  }

  /** Assets are compared by identity only; the id stands for the object reference. */
  datatype Texture = Texture(id: nat)

  /** A sprite: its rect size, its texture (null while its atlas is not loaded),
      and its outer UV rectangle inside that texture (DataUtility.GetOuterUV). */
  datatype Sprite = Sprite(id: nat, rectSize: Vec2, texture: Option<Texture>, outerUV: Vec4)

  datatype Material = Material(id: nat, mainTexture: Option<Texture>)

  /** Graphic.s_WhiteTexture, the engine's 1x1 white fallback. */
  const WhiteTexture := Texture(0)

  /** UIVertex, restricted to what the component writes: position, uv0 and colour. */
  datatype UIVertex = UIVertex(position: Vec2, uv0: Vec2, color: Color32)
}
