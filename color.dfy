/**
 * RGBA colours. A colour is a value in the renderer (it is copied into the
 * image buffer, returned from shading and passed by value), so each
 * compound-assignment operator is modelled as the function giving the value
 * the variable holds afterwards.
 */
module Colors {
  import Utility

  datatype Color = Color(r: real, g: real, b: real, a: real)

  /** `Color()`: opaque black. */
  function Default(): (c: Color)
    ensures c.r == 0.0 && c.g == 0.0 && c.b == 0.0 && c.a == 1.0
  {
    Color(0.0, 0.0, 0.0, 1.0)
  }

  /** `c += o`: channelwise sum, alpha included. */
  function Plus(c: Color, o: Color): (s: Color)
    ensures Minus(s, c) == o
  {
    Color(c.r + o.r, c.g + o.g, c.b + o.b, c.a + o.a)
  }

  /** `c -= o`: channelwise difference, alpha included. */
  function Minus(c: Color, o: Color): (s: Color)
    ensures s == Color(0.0, 0.0, 0.0, 0.0) <==> c == o
  {
    Color(c.r - o.r, c.g - o.g, c.b - o.b, c.a - o.a)
  }

  /** `c *= o`: channelwise product, alpha included. */
  function Times(c: Color, o: Color): (s: Color)
    ensures c == Color(1.0, 1.0, 1.0, 1.0) ==> s == o
    ensures o == Color(0.0, 0.0, 0.0, 0.0) ==> s == o
  {
    Color(c.r * o.r, c.g * o.g, c.b * o.b, c.a * o.a)
  }

  /** `c *= scalar`: every channel, alpha included, scaled. */
  function Scale(c: Color, scalar: real): (s: Color)
    ensures scalar == 1.0 ==> s == c
    ensures scalar == 0.0 ==> s == Color(0.0, 0.0, 0.0, 0.0)
  {
    Color(c.r * scalar, c.g * scalar, c.b * scalar, c.a * scalar)
  }

  /** `c /= scalar`: multiplication by the reciprocal of the scalar. */
  function DivideBy(c: Color, scalar: real): (s: Color)
    requires scalar != 0.0
    ensures Scale(s, scalar) == c
  {
    Scale(c, 1.0 / scalar)
  }

  /** `-=` undoes `+=` on every channel. */
  lemma MinusUndoesPlus(c: Color, o: Color)
    ensures Minus(Plus(c, o), o) == c
  {
  }

  /** `+=` is commutative: channelwise sums do not depend on the order. */
  lemma PlusCommutes(c: Color, o: Color)
    ensures Plus(c, o) == Plus(o, c)
  {
  }

  /** `*=` by opaque white leaves a colour unchanged, and `*=` by a scalar is `*=` by its grey. */
  lemma TimesWhiteIsIdentity(c: Color, scalar: real)
    ensures Times(c, Color(1.0, 1.0, 1.0, 1.0)) == c
    ensures Times(c, Color(scalar, scalar, scalar, scalar)) == Scale(c, scalar)
  {
  }

  /** `/=` by a non-zero scalar undoes `*=` by the same scalar. */
  lemma DivideUndoesScale(c: Color, scalar: real)
    requires scalar != 0.0
    ensures DivideBy(Scale(c, scalar), scalar) == c
  {
    var inv := 1.0 / scalar;
    assert scalar * inv == 1.0;
    assert c.r * scalar * inv == c.r;
    assert c.g * scalar * inv == c.g;
    assert c.b * scalar * inv == c.b;
    assert c.a * scalar * inv == c.a;
  }

  /** Every channel of `c` lies in [lo, hi]. */
  ghost predicate InRange(c: Color, lo: real, hi: real)
  {
    lo <= c.r <= hi && lo <= c.g <= hi && lo <= c.b <= hi && lo <= c.a <= hi
  }

  /** `clamp(color, min, max)`: the scalar clamp on all four channels. */
  function ClampColor(c: Color, lo: real, hi: real): (k: Color)
    ensures lo <= hi ==> InRange(k, lo, hi)
    ensures InRange(c, lo, hi) ==> k == c
  {
    Color(Utility.Clamp(c.r, lo, hi), Utility.Clamp(c.g, lo, hi),
          Utility.Clamp(c.b, lo, hi), Utility.Clamp(c.a, lo, hi))
  }

  /** Clamping a colour is idempotent. */
  lemma ClampColorIdempotent(c: Color, lo: real, hi: real)
    requires lo <= hi
    ensures ClampColor(ClampColor(c, lo, hi), lo, hi) == ClampColor(c, lo, hi)
  {
  }

  /** `operator==`: all four channels compared. */
  predicate Equal(x: Color, y: Color)
    ensures Equal(x, y) <==> x == y
  {
    x.r == y.r && x.g == y.g && x.b == y.b && y.a == x.a
  }

  /** `operator!=`: the negation of `==`. */
  predicate NotEqual(x: Color, y: Color)
    ensures NotEqual(x, y) <==> x != y
  {
    !Equal(x, y)
  }

  const RedBit: bv8 := 0x1
  const GreenBit: bv8 := 0x2
  const BlueBit: bv8 := 0x4

  /**
   * The decoding step of `generateRandomBasicColor`: starting from the default
   * colour, bit 1 of the index sets red, bit 2 green and bit 4 blue to 1.
   * The random draw of the index is a parameter here.
   */
  function BasicColor(index: bv8): (c: Color)
    ensures c.a == 1.0
    ensures c.r == (if (index as int) % 2 == 1 then 1.0 else 0.0)
    ensures c.g == (if (index as int) / 2 % 2 == 1 then 1.0 else 0.0)
    ensures c.b == (if (index as int) / 4 % 2 == 1 then 1.0 else 0.0)
  {
    RedBitIsBitOne(index);
    GreenBitIsBitTwo(index);
    BlueBitIsBitFour(index);
    var base := Default();
    var withRed := if index & RedBit != 0 then base.(r := 1.0) else base;
    var withGreen := if index & GreenBit != 0 then withRed.(g := 1.0) else withRed;
    if index & BlueBit != 0 then withGreen.(b := 1.0) else withGreen
  }

  lemma RedBitIsBitOne(index: bv8)
    ensures index & RedBit != 0 <==> (index as int) % 2 == 1
  {
  }

  lemma GreenBitIsBitTwo(index: bv8)
    ensures index & GreenBit != 0 <==> (index as int) / 2 % 2 == 1
  {
  }

  lemma BlueBitIsBitFour(index: bv8)
    ensures index & BlueBit != 0 <==> (index as int) / 4 % 2 == 1
  {
  }

  /** Indices 1..6 decode to neither black nor white. */
  lemma BasicColorNeitherBlackNorWhite(index: bv8)
    requires 1 <= index <= 6
    ensures !(BasicColor(index).r == 0.0 && BasicColor(index).g == 0.0 && BasicColor(index).b == 0.0)
    ensures !(BasicColor(index).r == 1.0 && BasicColor(index).g == 1.0 && BasicColor(index).b == 1.0)
  {
  }
}
