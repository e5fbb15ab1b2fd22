/**
 * The raster buffer: the `BufferedImage` of type TYPE_INT_RGB that every part of
 * the editor passes around, seen as an immutable grid of 8-bit RGB pixels.
 */
module Raster {

  /** Largest Java `int`: image dimensions are Java ints. */
  const INT_MAX: int := 0x7fff_ffff

  /** Smallest Java `int`. */
  const INT_MIN: int := -0x8000_0000

  /** A mathematical integer reduced to a Java `int`, as 32-bit int arithmetic wraps around. */
  function Wrap32(v: int): (r: int)
    ensures INT_MIN <= r <= INT_MAX
    ensures INT_MIN <= v <= INT_MAX ==> r == v
    ensures (v - r) % 0x1_0000_0000 == 0
  {
    (v - INT_MIN) % 0x1_0000_0000 + INT_MIN
  }

  /** One 8-bit colour channel, the range `java.awt.Color` accepts. */
  type Channel = c: int | 0 <= c <= 255

  datatype Pixel = Pixel(r: Channel, g: Channel, b: Channel)

  /** The value of every pixel of a freshly allocated TYPE_INT_RGB image. */
  const Black: Pixel := Pixel(0, 0, 0)

  /** `rows[y][x]` is the pixel at column `x` of row `y`. */
  datatype Image = Image(width: int, height: int, rows: seq<seq<Pixel>>) {

    /** A `BufferedImage` has positive int dimensions and exactly width * height pixels. */
    predicate WellFormed() {
      && 1 <= width <= INT_MAX
      && 1 <= height <= INT_MAX
      && |rows| == height
      && forall y :: 0 <= y < |rows| ==> |rows[y]| == width
    }

    /** `getRGB(x, y)`; outside the grid (never asked by the operations) it is Black. */
    function At(x: int, y: int): Pixel {
      if 0 <= y < |rows| && 0 <= x < |rows[y]| then rows[y][x] else Black
    }
  }

  type Raster = img: Image | img.WellFormed() witness Image(1, 1, [[Pixel(0, 0, 0)]])

  /** The raster of the given dimensions whose pixel at (x, y) is f(x, y). */
  function Build(w: int, h: int, f: (int, int) -> Pixel): (img: Raster)
    requires 1 <= w <= INT_MAX && 1 <= h <= INT_MAX
    ensures img.width == w && img.height == h
    ensures forall x, y :: 0 <= x < w && 0 <= y < h ==> img.At(x, y) == f(x, y)
  {
    Image(w, h, seq(h, y => seq(w, x => f(x, y))))
  }

  /** Two rasters with the same dimensions and the same pixels are the same raster. */
  lemma SamePixels(a: Raster, b: Raster)
    requires a.width == b.width && a.height == b.height
    requires forall x, y :: 0 <= x < a.width && 0 <= y < a.height ==> a.At(x, y) == b.At(x, y)
    ensures a == b
  {
    forall y | 0 <= y < a.height
      ensures a.rows[y] == b.rows[y]
    {
      forall x | 0 <= x < a.width
        ensures a.rows[y][x] == b.rows[y][x]
      {
        assert a.At(x, y) == b.At(x, y);
      }
    }
  }
}
