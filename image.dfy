// The row-major pixel buffer the renderer writes into.

module Images {
  import opened Colors
  import opened Utility

  /** Pixel (x, y) of a `width`-wide image lives at this buffer index. */
  function PixelIndex(width: nat, x: nat, y: nat): nat
  {
    width * y + x
  }

  /** The colour a row-major buffer holds for pixel (x, y) (the default colour past its end). */
  function At(colors: seq<Color>, width: nat, x: nat, y: nat): Color
  {
    var k := PixelIndex(width, x, y);
    if k < |colors| then colors[k] else Default()
  }

  /** Distinct in-bounds pixels use distinct buffer slots, all below width * height. */
  lemma IndexInjective(width: nat, height: nat, x: nat, y: nat, x': nat, y': nat)
    requires x < width && y < height && x' < width && y' < height
    ensures PixelIndex(width, x, y) < width * height
    ensures PixelIndex(width, x, y) == PixelIndex(width, x', y') <==> x == x' && y == y'
  {
    IndexBelow(width, height, x, y);
    if y < y' {
      IndexBeforeRow(width, x, y, y');
    } else if y' < y {
      IndexBeforeRow(width, x', y', y);
    }
  }

  lemma IndexBelow(width: nat, height: nat, x: nat, y: nat)
    requires x < width && y < height
    ensures PixelIndex(width, x, y) < width * height
  {
    assert width * (y + 1) <= width * height by {
      MulMonotone(width, y + 1, height);
    }
  }

  /** Every pixel of row y comes before every pixel of a later row. */
  lemma IndexBeforeRow(width: nat, x: nat, y: nat, y': nat)
    requires x < width && y < y'
    ensures PixelIndex(width, x, y) < width * y'
  {
    MulMonotone(width, y + 1, y');
  }

  /** Writing one slot of a buffer changes that pixel only. */
  lemma UpdateOne(cs: seq<Color>, width: nat, height: nat, x: nat, y: nat, x': nat, y': nat, c: Color)
    requires |cs| == width * height && x < width && y < height && x' < width && y' < height
    ensures PixelIndex(width, x, y) < |cs| && PixelIndex(width, x', y') < |cs|
    ensures cs[PixelIndex(width, x, y) := c][PixelIndex(width, x', y')]
      == if x' == x && y' == y then c else cs[PixelIndex(width, x', y')]
  {
    IndexInjective(width, height, x, y, x', y');
    IndexBelow(width, height, x', y');
  }

  /** Every slot of a width * height buffer is the index of exactly one in-bounds pixel. */
  lemma SlotOf(width: nat, height: nat, k: nat)
    requires k < width * height
    ensures width > 0 && k % width < width && k / width < height
    ensures PixelIndex(width, k % width, k / width) == k
  {
    var q := k / width;
    assert k == width * q + k % width;
    if q >= height {
      MulMonotone(width, height, q);
    }
  }

  /** The slot form of `SlotOf`, for the whole buffer at once. */
  lemma EverySlot(width: nat, height: nat, n: nat)
    requires n == width * height
    ensures forall k | 0 <= k < n :: k % width < width && k / width < height && PixelIndex(width, k % width, k / width) == k
  {
    forall k | 0 <= k < n
      ensures k % width < width && k / width < height && PixelIndex(width, k % width, k / width) == k
    {
      SlotOf(width, height, k);
    }
  }

  class Image {
    var width: nat
    var height: nat
    var colors: seq<Color>

    ghost predicate Valid()
      reads this
    {
      |colors| == width * height
    }

    /** `Image(width, height, color)`: width * height pixels, all of the given colour. */
    constructor (width: nat, height: nat, color: Color)
      ensures Valid() && this.width == width && this.height == height
      ensures forall x: nat, y: nat | x < width && y < height :: Pixel(x, y) == color
    {
      this.width := width;
      this.height := height;
      colors := seq(width * height, _ => color);
      new;
      forall x: nat, y: nat | x < width && y < height
        ensures PixelIndex(width, x, y) < |colors|
      {
        IndexBelow(width, height, x, y);
      }
    }

    /** `getPixel`: the colour in the buffer slot of (x, y). */
    function Pixel(x: nat, y: nat): (c: Color)
      reads this
      requires Valid() && x < width && y < height
      ensures PixelIndex(width, x, y) < |colors| && c == colors[PixelIndex(width, x, y)]
      ensures c in colors
    {
      IndexBelow(width, height, x, y);
      At(colors, width, x, y)
    }

    /** `getWidth`: the width fixed at construction; the buffer holds that many pixels per row. */
    function Width(): (w: nat)
      reads this
      requires Valid()
      ensures |colors| == w * height
    {
      width
    }

    /** `getHeight`: the height fixed at construction; the buffer holds that many rows. */
    function Height(): (h: nat)
      reads this
      requires Valid()
      ensures |colors| == width * h
    {
      height
    }

    /** `getPixels`: the whole buffer, row after row: slot k holds pixel (k mod width, k div width). */
    function Pixels(): (cs: seq<Color>)
      reads this
      requires Valid()
      ensures |cs| == width * height
      ensures forall k | 0 <= k < |cs| :: k % width < width && k / width < height && cs[k] == Pixel(k % width, k / width)
    {
      EverySlot(width, height, |colors|);
      colors
    }

    /** `setPixel`: overwrite pixel (x, y), leaving every other pixel and the size alone. */
    method SetPixel(x: nat, y: nat, color: Color)
      requires Valid() && x < width && y < height
      modifies this
      ensures Valid() && width == old(width) && height == old(height)
      ensures forall x': nat, y': nat | x' < width && y' < height ::
        Pixel(x', y') == if x' == x && y' == y then color else old(Pixel(x', y'))
    {
      IndexBelow(width, height, x, y);
      ghost var before := colors;
      colors := colors[PixelIndex(width, x, y) := color];
      assert forall x': nat, y': nat | x' < width && y' < height ::
        Pixel(x', y') == if x' == x && y' == y then color else old(Pixel(x', y'))
      by {
        forall x': nat, y': nat | x' < width && y' < height
          ensures Pixel(x', y') == if x' == x && y' == y then color else old(Pixel(x', y'))
        {
          UpdateOne(before, width, height, x, y, x', y', color);
        }
      }
    }
  }
}
