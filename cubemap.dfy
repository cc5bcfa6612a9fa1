// The scene background: a flat colour, or six textures that a ray direction
// picks from by its dominant axis.

module CubeMaps {
  import opened Colors
  import opened Boxes

  /** `ImageTexture::getColor(u, v)`: a texture lookup, outside this model. */
  type Texture = (real, real) -> Color

  /** Textures come in the order +x, +y, +z, -x, -y, -z. */
  datatype CubeMap = CubeMap(background: Color, textures: seq<Texture>)

  /** `CubeMap(backgroundColor)`: no textures. */
  function FromColor(background: Color): (m: CubeMap)
    ensures m.textures == [] && m.background == background
  {
    CubeMap(background, [])
  }

  /** `CubeMap(cubeMapPaths)`: exactly six textures; the background stays the default colour. */
  function FromTextures(textures: seq<Texture>): (m: CubeMap)
    requires |textures| == 6
    ensures m.textures == textures && m.background == Default()
  {
    CubeMap(Default(), textures)
  }

  /** The two shapes the constructors produce. */
  predicate WellFormed(m: CubeMap)
  {
    |m.textures| == 0 || |m.textures| == 6
  }

  function Abs(r: real): real
  {
    if r < 0.0 then -r else r
  }

  /** The first axis whose component has the largest magnitude (earlier axes win ties). */
  function MajorAxis(d: Vec3): (axis: nat)
    ensures axis < 3
    ensures forall k | 0 <= k < 3 :: Abs(d.At(k)) <= Abs(d.At(axis))
    ensures forall k | 0 <= k < axis :: Abs(d.At(k)) < Abs(d.At(axis))
  {
    if Abs(d.x) >= Abs(d.y) && Abs(d.x) >= Abs(d.z) then 0
    else if Abs(d.y) >= Abs(d.z) then 1
    else 2
  }

  /** The texture a direction selects: its major axis, plus 3 when that component is not positive. */
  function Face(d: Vec3): (face: nat)
    ensures face < 6 && face % 3 == MajorAxis(d)
    ensures face < 3 <==> d.At(MajorAxis(d)) > 0.0
  {
    MajorAxis(d) + (if d.At(MajorAxis(d)) > 0.0 then 0 else 3)
  }

  /** The in-face coordinates before scaling, per face, with y flipped; faces 1 and 4 share (x, -z). */
  function FaceCoordinates(face: nat, d: Vec3): (real, real)
    requires face < 6
  {
    var x, y, z := d.x, -d.y, d.z;
    match face
    case 0 => (-z, y)
    case 1 => (x, -z)
    case 2 => (x, y)
    case 3 => (z, y)
    case 4 => (x, -z)
    case 5 => (-x, y)
  }

  /** Both in-face coordinates are at most the major component in magnitude. */
  lemma FaceCoordinatesBounded(d: Vec3)
    ensures var (uc, vc) := FaceCoordinates(Face(d), d);
      Abs(uc) <= Abs(d.At(MajorAxis(d))) && Abs(vc) <= Abs(d.At(MajorAxis(d)))
  {
    var m := Abs(d.At(MajorAxis(d)));
    assert Abs(d.At(0)) <= m && Abs(d.At(1)) <= m && Abs(d.At(2)) <= m;
  }

  /** The (u, v) a non-zero direction maps to on its face: the coordinates scaled from [-1, 1] to [0, 1]. */
  function UV(d: Vec3): (uv: (real, real))
    requires d != Vec3(0.0, 0.0, 0.0)
    ensures 0.0 <= uv.0 <= 1.0 && 0.0 <= uv.1 <= 1.0
  {
    var maxAxis := Abs(d.At(MajorAxis(d)));
    assert maxAxis > 0.0 by {
      assert Abs(d.At(0)) <= maxAxis && Abs(d.At(1)) <= maxAxis && Abs(d.At(2)) <= maxAxis;
    }
    var (uc, vc) := FaceCoordinates(Face(d), d);
    FaceCoordinatesBounded(d);
    UnitScale(uc, maxAxis);
    UnitScale(vc, maxAxis);
    (0.5 * (uc / maxAxis + 1.0), 0.5 * (vc / maxAxis + 1.0))
  }

  lemma UnitScale(c: real, m: real)
    requires m > 0.0 && Abs(c) <= m
    ensures 0.0 <= 0.5 * (c / m + 1.0) <= 1.0
  {
    assert -m <= c <= m;
    assert -1.0 <= c / m <= 1.0 by {
      assert c / m * m == c;
    }
  }

  /** `getColor`: the background colour without textures, else the selected texture at (u, v). */
  function Sky(m: CubeMap, d: Vec3): (c: Color)
    requires WellFormed(m) && (m.textures != [] ==> d != Vec3(0.0, 0.0, 0.0))
    ensures m.textures == [] ==> c == m.background
  {
    if m.textures == [] then m.background
    else
      var (u, v) := UV(d);
      m.textures[Face(d)](u, v)
  }

  /**
   * `getUVCoordinates`: the scan for the dominant axis (a strict `<`, so an
   * earlier axis keeps a tie), the face index from the sign of the normalised
   * component, and the face coordinates scaled into [0, 1].
   */
  method UVCoordinates(d: Vec3) returns (u: real, v: real, textureIndex: nat)
    requires d != Vec3(0.0, 0.0, 0.0)
    ensures textureIndex == Face(d) && (u, v) == UV(d)
  {
    var maxAxisIndex: nat := 0;
    var maxAxis := Abs(d.At(0));
    for i := 1 to 3
      invariant maxAxisIndex < i && maxAxis == Abs(d.At(maxAxisIndex))
      invariant forall k | 0 <= k < i :: Abs(d.At(k)) <= maxAxis
      invariant forall k | 0 <= k < maxAxisIndex :: Abs(d.At(k)) < maxAxis
    {
      var absDir := Abs(d.At(i));
      if maxAxis < absDir {
        maxAxis := absDir;
        maxAxisIndex := i;
      }
    }
    assert maxAxisIndex == MajorAxis(d);
    assert maxAxis > 0.0;
    var normAxis := d.At(maxAxisIndex) / maxAxis;
    QuotientSign(d.At(maxAxisIndex), maxAxis);
    textureIndex := (if normAxis > 0.0 then 0 else 3) + maxAxisIndex;
    var uc, vc := FaceCoordinates(textureIndex, d).0, FaceCoordinates(textureIndex, d).1;
    u := 0.5 * (uc / maxAxis + 1.0);
    v := 0.5 * (vc / maxAxis + 1.0);
  }

  /** Dividing by a positive magnitude keeps the sign. */
  lemma QuotientSign(a: real, m: real)
    requires m > 0.0
    ensures a / m > 0.0 <==> a > 0.0
  {
    assert a / m * m == a;
  }

  /** `CubeMap::getColor`, computed through the axis scan of `getUVCoordinates`. */
  method GetColor(m: CubeMap, d: Vec3) returns (c: Color)
    requires WellFormed(m) && (m.textures != [] ==> d != Vec3(0.0, 0.0, 0.0))
    ensures c == Sky(m, d)
  {
    if m.textures == [] {
      return m.background;
    }
    var u, v, textureIndex := UVCoordinates(d);
    c := m.textures[textureIndex](u, v);
  }
}
