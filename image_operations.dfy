/**
 * The pixel transforms of `ImageOperations`. Each one allocates a fresh output
 * raster (a `new Pixel[w, h]`, all Black like a new TYPE_INT_RGB image), fills it
 * with the same nested loops as the source and returns it; the input is a value
 * and is never written. Each method is proved equal to a specification function
 * that gives every output pixel as an input pixel (the index mapping), and the
 * laws of the transforms are lemmas about those functions.
 */
module ImageOperations {
  import opened Wrappers
  import opened Raster
  import opened IndexMath

  datatype MirrorDirection = Horizontal | Vertical
  datatype RotateDirection = Clockwise | CounterClockwise
  datatype RepeatDirection = Horizontal | Vertical

  /** The grayscale weighting `round(0.299 R + 0.587 G + 0.114 B)`, which is floating point
      and is therefore a parameter of the model. */
  type Luma = (Channel, Channel, Channel) -> Channel

  /** The raster held by an output buffer once it has been filled. */
  function Snapshot(a: array2<Pixel>): (img: Raster)
    requires 1 <= a.Length0 <= INT_MAX && 1 <= a.Length1 <= INT_MAX
    reads a
    ensures img.width == a.Length0 && img.height == a.Length1
    ensures forall x, y :: 0 <= x < a.Length0 && 0 <= y < a.Length1 ==> img.At(x, y) == a[x, y]
  {
    Image(a.Length0, a.Length1,
          seq(a.Length1, y requires 0 <= y < a.Length1 reads a =>
            seq(a.Length0, x requires 0 <= x < a.Length0 reads a => a[x, y])))
  }

  // ---------------------------------------------------------------- specifications

  function ZeroRedOf(img: Raster): Raster {
    Build(img.width, img.height, (x, y) => ZeroRedPixel(img.At(x, y)))
  }

  function ZeroRedPixel(p: Pixel): Pixel {
    Pixel(0, p.g, p.b)
  }

  function GrayOf(p: Pixel, luma: Luma): Pixel {
    var v := luma(p.r, p.g, p.b);
    Pixel(v, v, v)
  }

  function GrayscaleOf(img: Raster, luma: Luma): Raster {
    Build(img.width, img.height, (x, y) => GrayOf(img.At(x, y), luma))
  }

  function InvertOf(img: Raster): Raster {
    Build(img.width, img.height, (x, y) => InvertPixel(img.At(x, y)))
  }

  function InvertPixel(p: Pixel): Pixel {
    Pixel(255 - p.r, 255 - p.g, 255 - p.b)
  }

  /** HORIZONTAL keeps the rows above the middle and reflects them into the rows below;
      VERTICAL does the same with the columns left of the middle. */
  function MirrorOf(img: Raster, dir: MirrorDirection): Raster {
    Build(img.width, img.height, (x, y) => MirrorPixel(img, dir, x, y))
  }

  /** The input pixel that the mirrored image shows at (x, y). */
  function MirrorPixel(img: Raster, dir: MirrorDirection, x: int, y: int): Pixel {
    var w, h := img.width, img.height;
    match dir
    case Horizontal => if y < h / 2 then img.At(x, y) else img.At(x, h - 1 - y)
    case Vertical => if x < w / 2 then img.At(x, y) else img.At(w - 1 - x, y)
  }

  /** The output is h wide and w high; clockwise input (x, y) lands on (h-1-y, x),
      counter-clockwise on (y, w-1-x). Stated here from the output's side. */
  function RotateOf(img: Raster, dir: RotateDirection): Raster {
    Build(img.height, img.width, (x, y) => RotatePixel(img, dir, x, y))
  }

  /** The input pixel that the rotated image shows at (x, y). */
  function RotatePixel(img: Raster, dir: RotateDirection, x: int, y: int): Pixel {
    match dir
    case Clockwise => img.At(y, img.height - 1 - x)
    case CounterClockwise => img.At(img.width - 1 - y, x)
  }

  /** `n` copies of the image side by side (HORIZONTAL) or stacked (VERTICAL). */
  function RepeatOf(img: Raster, n: int, dir: RepeatDirection): Raster
    requires 1 <= n
    requires dir == RepeatDirection.Horizontal ==> img.width * n <= INT_MAX
    requires dir == RepeatDirection.Vertical ==> img.height * n <= INT_MAX
  {
    var w, h := img.width, img.height;
    TileBound(0, n, w);
    TileBound(0, n, h);
    match dir
    case Horizontal => Build(w * n, h, (x, y) => RepeatPixel(img, dir, x, y))
    case Vertical => Build(w, h * n, (x, y) => RepeatPixel(img, dir, x, y))
  }

  /** Why `repeat` throws. */
  datatype RepeatError =
    | NonPositiveSize         // new BufferedImage with a width or height below 1
    | CoordinateOutOfBounds   // setRGB past the edge of an output whose size wrapped around

  /** The repeated side of the output as the source computes it: `w * n` (HORIZONTAL) or
      `h * n` (VERTICAL) in 32-bit int arithmetic. */
  function RepeatedSide(img: Raster, n: int, dir: RepeatDirection): (side: int)
    ensures INT_MIN <= side <= INT_MAX
  {
    match dir
    case Horizontal => Wrap32(img.width * n)
    case Vertical => Wrap32(img.height * n)
  }

  /** What `repeat` returns or throws, for every int n. The output is allocated with the
      wrapped side, so a side below 1 throws there. With n below 1 the loop over the copies
      does not run and the all-Black output is returned. When the product overflowed, the
      cursor reaches column (row) `side` of the too-small output, with no overflow before
      it, and setRGB throws there. Otherwise the n copies fill the output. */
  function RepeatResult(img: Raster, n: int, dir: RepeatDirection): Result<Raster, RepeatError>
    requires INT_MIN <= n <= INT_MAX
  {
    var side := RepeatedSide(img, n, dir);
    if side < 1 then Err(NonPositiveSize)
    else if n < 1 then
      match dir
      case Horizontal => Ok(Build(side, img.height, (x, y) => Black))
      case Vertical => Ok(Build(img.width, side, (x, y) => Black))
    else if dir == RepeatDirection.Horizontal && img.width * n > INT_MAX then Err(CoordinateOutOfBounds)
    else if dir == RepeatDirection.Vertical && img.height * n > INT_MAX then Err(CoordinateOutOfBounds)
    else Ok(RepeatOf(img, n, dir))
  }

  /** The input pixel that the repeated image shows at (x, y). */
  function RepeatPixel(img: Raster, dir: RepeatDirection, x: int, y: int): Pixel {
    match dir
    case Horizontal => img.At(x % img.width, y)
    case Vertical => img.At(x, y % img.height)
  }

  // ---------------------------------------------------------------- the operations

  method ZeroRed(img: Raster) returns (out: Raster)
    ensures out == ZeroRedOf(img)
  {
    var w, h := img.width, img.height;
    var a := new Pixel[w, h]((x, y) => Black);
    for y := 0 to h
      invariant forall i, j :: 0 <= i < w && 0 <= j < y ==> a[i, j] == ZeroRedPixel(img.At(i, j))
    {
      for x := 0 to w
        invariant forall i, j :: 0 <= i < w && 0 <= j < y ==> a[i, j] == ZeroRedPixel(img.At(i, j))
        invariant forall i :: 0 <= i < x ==> a[i, y] == ZeroRedPixel(img.At(i, y))
      {
        var c := img.At(x, y);
        a[x, y] := Pixel(0, c.g, c.b);
      }
    }
    out := Snapshot(a);
    ghost var m := ZeroRedOf(img);
    assert forall i, j :: 0 <= i < a.Length0 && 0 <= j < a.Length1 ==> out.At(i, j) == a[i, j] == m.At(i, j);
    SamePixels(out, m);
  }

  method Grayscale(img: Raster, luma: Luma) returns (out: Raster)
    ensures out == GrayscaleOf(img, luma)
  {
    var w, h := img.width, img.height;
    var a := new Pixel[w, h]((x, y) => Black);
    for y := 0 to h
      invariant forall i, j :: 0 <= i < w && 0 <= j < y ==> a[i, j] == GrayOf(img.At(i, j), luma)
    {
      for x := 0 to w
        invariant forall i, j :: 0 <= i < w && 0 <= j < y ==> a[i, j] == GrayOf(img.At(i, j), luma)
        invariant forall i :: 0 <= i < x ==> a[i, y] == GrayOf(img.At(i, y), luma)
      {
        var c := img.At(x, y);
        var g := luma(c.r, c.g, c.b);
        a[x, y] := Pixel(g, g, g);
      }
    }
    out := Snapshot(a);
    ghost var m := GrayscaleOf(img, luma);
    assert forall i, j :: 0 <= i < a.Length0 && 0 <= j < a.Length1 ==> out.At(i, j) == a[i, j] == m.At(i, j);
    SamePixels(out, m);
  }

  method Invert(img: Raster) returns (out: Raster)
    ensures out == InvertOf(img)
  {
    var w, h := img.width, img.height;
    var a := new Pixel[w, h]((x, y) => Black);
    for y := 0 to h
      invariant forall i, j :: 0 <= i < w && 0 <= j < y ==> a[i, j] == InvertPixel(img.At(i, j))
    {
      for x := 0 to w
        invariant forall i, j :: 0 <= i < w && 0 <= j < y ==> a[i, j] == InvertPixel(img.At(i, j))
        invariant forall i :: 0 <= i < x ==> a[i, y] == InvertPixel(img.At(i, y))
      {
        var c := img.At(x, y);
        a[x, y] := Pixel(255 - c.r, 255 - c.g, 255 - c.b);
      }
    }
    out := Snapshot(a);
    ghost var m := InvertOf(img);
    assert forall i, j :: 0 <= i < a.Length0 && 0 <= j < a.Length1 ==> out.At(i, j) == a[i, j] == m.At(i, j);
    SamePixels(out, m);
  }

  method Mirror(img: Raster, dir: MirrorDirection) returns (out: Raster)
    ensures out == MirrorOf(img, dir)
  {
    if dir == MirrorDirection.Horizontal {
      out := MirrorRows(img);
    } else {
      out := MirrorColumns(img);
    }
  }

  /** The HORIZONTAL branch: rows above h/2 copied, the others reflected. */
  method MirrorRows(img: Raster) returns (out: Raster)
    ensures out == MirrorOf(img, MirrorDirection.Horizontal)
  {
    var w, h := img.width, img.height;
    var a := new Pixel[w, h]((x, y) => Black);
    for y := 0 to h / 2
      invariant forall i, j :: 0 <= i < w && 0 <= j < y ==> a[i, j] == MirrorPixel(img, MirrorDirection.Horizontal, i, j)
    {
      for x := 0 to w
        invariant forall i, j :: 0 <= i < w && 0 <= j < y ==> a[i, j] == MirrorPixel(img, MirrorDirection.Horizontal, i, j)
        invariant forall i :: 0 <= i < x ==> a[i, y] == MirrorPixel(img, MirrorDirection.Horizontal, i, y)
      {
        a[x, y] := img.At(x, y);
      }
    }
    for y := h / 2 to h
      invariant forall i, j :: 0 <= i < w && 0 <= j < y ==> a[i, j] == MirrorPixel(img, MirrorDirection.Horizontal, i, j)
    {
      for x := 0 to w
        invariant forall i, j :: 0 <= i < w && 0 <= j < y ==> a[i, j] == MirrorPixel(img, MirrorDirection.Horizontal, i, j)
        invariant forall i :: 0 <= i < x ==> a[i, y] == MirrorPixel(img, MirrorDirection.Horizontal, i, y)
      {
        a[x, y] := img.At(x, h - 1 - y);
      }
    }
    out := Snapshot(a);
    ghost var m := MirrorOf(img, MirrorDirection.Horizontal);
    assert forall i, j :: 0 <= i < w && 0 <= j < h ==> out.At(i, j) == a[i, j] == m.At(i, j);
    SamePixels(out, m);
  }

  /** The VERTICAL branch: columns left of w/2 copied, the others reflected. */
  method MirrorColumns(img: Raster) returns (out: Raster)
    ensures out == MirrorOf(img, MirrorDirection.Vertical)
  {
    var w, h := img.width, img.height;
    var a := new Pixel[w, h]((x, y) => Black);
    for y := 0 to h
      invariant forall i, j :: 0 <= i < w / 2 && 0 <= j < y ==> a[i, j] == MirrorPixel(img, MirrorDirection.Vertical, i, j)
    {
      for x := 0 to w / 2
        invariant forall i, j :: 0 <= i < w / 2 && 0 <= j < y ==> a[i, j] == MirrorPixel(img, MirrorDirection.Vertical, i, j)
        invariant forall i :: 0 <= i < x ==> a[i, y] == MirrorPixel(img, MirrorDirection.Vertical, i, y)
      {
        a[x, y] := img.At(x, y);
      }
    }
    for y := 0 to h
      invariant forall i, j :: 0 <= i < w / 2 && 0 <= j < h ==> a[i, j] == MirrorPixel(img, MirrorDirection.Vertical, i, j)
      invariant forall i, j :: w / 2 <= i < w && 0 <= j < y ==> a[i, j] == MirrorPixel(img, MirrorDirection.Vertical, i, j)
    {
      for x := w / 2 to w
        invariant forall i, j :: 0 <= i < w / 2 && 0 <= j < h ==> a[i, j] == MirrorPixel(img, MirrorDirection.Vertical, i, j)
        invariant forall i, j :: w / 2 <= i < w && 0 <= j < y ==> a[i, j] == MirrorPixel(img, MirrorDirection.Vertical, i, j)
        invariant forall i :: w / 2 <= i < x ==> a[i, y] == MirrorPixel(img, MirrorDirection.Vertical, i, y)
      {
        a[x, y] := img.At(w - 1 - x, y);
      }
    }
    out := Snapshot(a);
    ghost var m := MirrorOf(img, MirrorDirection.Vertical);
    assert forall i, j :: 0 <= i < w && 0 <= j < h ==> out.At(i, j) == a[i, j] == m.At(i, j);
    SamePixels(out, m);
  }

  /** The loops run over the input and write each pixel to its rotated place; the
      invariants follow the part of the output that has been written. */
  method Rotate(img: Raster, dir: RotateDirection) returns (out: Raster)
    ensures out == RotateOf(img, dir)
  {
    if dir == Clockwise {
      out := RotateClockwise(img);
    } else {
      out := RotateCounterClockwise(img);
    }
  }

  /** Input row y becomes output column h-1-y. */
  method RotateClockwise(img: Raster) returns (out: Raster)
    ensures out == RotateOf(img, Clockwise)
  {
    var w, h := img.width, img.height;
    var a := new Pixel[h, w]((x, y) => Black);
    for y := 0 to h
      invariant forall i, j :: h - y <= i < h && 0 <= j < w ==> a[i, j] == RotatePixel(img, Clockwise, i, j)
    {
      ghost var col := h - 1 - y;
      for x := 0 to w
        invariant forall i, j :: h - y <= i < h && 0 <= j < w ==> a[i, j] == RotatePixel(img, Clockwise, i, j)
        invariant forall j :: 0 <= j < x ==> a[col, j] == RotatePixel(img, Clockwise, col, j)
      {
        a[h - 1 - y, x] := img.At(x, y);
      }
    }
    out := Snapshot(a);
    ghost var m := RotateOf(img, Clockwise);
    assert forall i, j :: 0 <= i < a.Length0 && 0 <= j < a.Length1 ==> out.At(i, j) == a[i, j] == m.At(i, j);
    SamePixels(out, m);
  }

  /** Input row y becomes output column y, read from the bottom. */
  method RotateCounterClockwise(img: Raster) returns (out: Raster)
    ensures out == RotateOf(img, CounterClockwise)
  {
    var w, h := img.width, img.height;
    var a := new Pixel[h, w]((x, y) => Black);
    for y := 0 to h
      invariant forall i, j :: 0 <= i < y && 0 <= j < w ==> a[i, j] == RotatePixel(img, CounterClockwise, i, j)
    {
      for x := 0 to w
        invariant forall i, j :: 0 <= i < y && 0 <= j < w ==> a[i, j] == RotatePixel(img, CounterClockwise, i, j)
        invariant forall j :: w - x <= j < w ==> a[y, j] == RotatePixel(img, CounterClockwise, y, j)
      {
        a[y, w - 1 - x] := img.At(x, y);
      }
    }
    out := Snapshot(a);
    ghost var m := RotateOf(img, CounterClockwise);
    assert forall i, j :: 0 <= i < a.Length0 && 0 <= j < a.Length1 ==> out.At(i, j) == a[i, j] == m.At(i, j);
    SamePixels(out, m);
  }

  /** `repeat` for any int n: the output is allocated with the wrapped side, and the branch
      for the direction then runs its loops. */
  method Repeat(img: Raster, n: int, dir: RepeatDirection) returns (r: Result<Raster, RepeatError>)
    requires INT_MIN <= n <= INT_MAX
    ensures r == RepeatResult(img, n, dir)
  {
    var side := RepeatedSide(img, n, dir);
    if side < 1 {
      return Err(NonPositiveSize);
    }
    if n < 1 {
      var out := Blank(if dir == RepeatDirection.Horizontal then side else img.width,
                       if dir == RepeatDirection.Horizontal then img.height else side);
      SamePixels(out, RepeatResult(img, n, dir).value);
      return Ok(out);
    }
    if dir == RepeatDirection.Horizontal {
      if img.width * n > INT_MAX {
        return Err(CoordinateOutOfBounds);
      }
      var out := RepeatAcross(img, n);
      return Ok(out);
    } else {
      if img.height * n > INT_MAX {
        return Err(CoordinateOutOfBounds);
      }
      var out := RepeatDown(img, n);
      return Ok(out);
    }
  }

  /** A freshly allocated output that no loop writes to. */
  method Blank(w: int, h: int) returns (out: Raster)
    requires 1 <= w <= INT_MAX && 1 <= h <= INT_MAX
    ensures out.width == w && out.height == h
    ensures forall x, y :: 0 <= x < w && 0 <= y < h ==> out.At(x, y) == Black
  {
    var a := new Pixel[w, h]((x, y) => Black);
    out := Snapshot(a);
  }

  /** The HORIZONTAL branch: copy r of the image is written at columns r*w .. r*w+w-1. */
  method RepeatAcross(img: Raster, n: int) returns (out: Raster)
    requires 1 <= n && img.width * n <= INT_MAX
    ensures out == RepeatOf(img, n, RepeatDirection.Horizontal)
  {
    var w, h := img.width, img.height;
    TileBound(0, n, w);
    var a := new Pixel[w * n, h]((x, y) => Black);
    ghost var left := 0;
    for r := 0 to n
      invariant left == r * w
      invariant forall i, j :: 0 <= i < left && 0 <= j < h ==> a[i, j] == img.At(i % w, j)
    {
      TileBound(r, n, w);
      CopyTile(a, img, r * w, 0);
      TileFill(a, img, r, left);
      left := left + w;
    }
    assert left == w * n;
    out := Snapshot(a);
    ghost var m := RepeatOf(img, n, RepeatDirection.Horizontal);
    forall i, j | 0 <= i < w * n && 0 <= j < h
      ensures out.At(i, j) == m.At(i, j)
    {
      RepeatAt(img, n, RepeatDirection.Horizontal, i, j);
    }
    SamePixels(out, m);
  }

  /** The two inner loops of either branch: the image is copied into the output with
      its top left corner at (left, top); every other output pixel is left as it was. */
  method CopyTile(a: array2<Pixel>, img: Raster, left: int, top: int)
    requires 0 <= left && left + img.width <= a.Length0
    requires 0 <= top && top + img.height <= a.Length1
    modifies a
    ensures forall i, j :: 0 <= i < a.Length0 && 0 <= j < a.Length1 ==>
      a[i, j] == if left <= i < left + img.width && top <= j < top + img.height
                 then img.At(i - left, j - top) else old(a[i, j])
  {
    var w, h := img.width, img.height;
    for y := 0 to h
      invariant forall i, j :: 0 <= i < a.Length0 && 0 <= j < a.Length1 ==>
        a[i, j] == if left <= i < left + w && top <= j < top + y
                   then img.At(i - left, j - top) else old(a[i, j])
    {
      for x := 0 to w
        invariant forall i, j :: 0 <= i < a.Length0 && 0 <= j < a.Length1 ==>
          a[i, j] == if (left <= i < left + w && top <= j < top + y) || (left <= i < left + x && j == top + y)
                     then img.At(i - left, j - top) else old(a[i, j])
      {
        a[x + left, y + top] := img.At(x, y);
      }
    }
  }

  lemma TileFill(a: array2<Pixel>, img: Raster, r: int, left: int)
    requires 0 <= r && left == r * img.width && left + img.width <= a.Length0 && a.Length1 == img.height
    requires forall i, j :: left <= i < left + img.width && 0 <= j < img.height ==> a[i, j] == img.At(i - left, j)
    ensures forall i, j :: left <= i < left + img.width && 0 <= j < img.height ==> a[i, j] == img.At(i % img.width, j)
  {
    forall i, j | left <= i < left + img.width && 0 <= j < img.height
      ensures a[i, j] == img.At(i % img.width, j)
    {
      TileIndex(i, r, img.width);
    }
  }

  /** The VERTICAL branch: copy r of the image is written at rows r*h .. r*h+h-1. */
  method RepeatDown(img: Raster, n: int) returns (out: Raster)
    requires 1 <= n && img.height * n <= INT_MAX
    ensures out == RepeatOf(img, n, RepeatDirection.Vertical)
  {
    var w, h := img.width, img.height;
    TileBound(0, n, h);
    var a := new Pixel[w, h * n]((x, y) => Black);
    ghost var top := 0;
    for r := 0 to n
      invariant top == r * h
      invariant forall i, j :: 0 <= i < w && 0 <= j < top ==> a[i, j] == img.At(i, j % h)
    {
      TileBound(r, n, h);
      CopyTile(a, img, 0, r * h);
      TileFillDown(a, img, r, top);
      top := top + h;
    }
    assert top == h * n;
    out := Snapshot(a);
    ghost var m := RepeatOf(img, n, RepeatDirection.Vertical);
    forall i, j | 0 <= i < w && 0 <= j < h * n
      ensures out.At(i, j) == m.At(i, j)
    {
      RepeatAt(img, n, RepeatDirection.Vertical, i, j);
    }
    SamePixels(out, m);
  }

  lemma TileFillDown(a: array2<Pixel>, img: Raster, r: int, top: int)
    requires 0 <= r && top == r * img.height && a.Length0 == img.width && top + img.height <= a.Length1
    requires forall i, j :: 0 <= i < img.width && top <= j < top + img.height ==> a[i, j] == img.At(i, j - top)
    ensures forall i, j :: 0 <= i < img.width && top <= j < top + img.height ==> a[i, j] == img.At(i, j % img.height)
  {
    forall i, j | 0 <= i < img.width && top <= j < top + img.height
      ensures a[i, j] == img.At(i, j % img.height)
    {
      TileIndex(j, r, img.height);
    }
  }

  // ---------------------------------------------------------------- laws

  /** zeroRed keeps the dimensions, clears red and keeps green and blue. */
  lemma ZeroRedEffect(img: Raster)
    ensures ZeroRedOf(img).width == img.width && ZeroRedOf(img).height == img.height
    ensures forall x, y :: 0 <= x < img.width && 0 <= y < img.height ==>
      var p, q := ZeroRedOf(img).At(x, y), img.At(x, y);
      p.r == 0 && p.g == q.g && p.b == q.b
  {}

  lemma ZeroRedIdempotent(img: Raster)
    ensures ZeroRedOf(ZeroRedOf(img)) == ZeroRedOf(img)
  {
    SamePixels(ZeroRedOf(ZeroRedOf(img)), ZeroRedOf(img));
  }

  /** invert keeps the dimensions and maps every channel c to 255 - c. */
  lemma InvertEffect(img: Raster)
    ensures InvertOf(img).width == img.width && InvertOf(img).height == img.height
    ensures forall x, y :: 0 <= x < img.width && 0 <= y < img.height ==>
      var p, q := InvertOf(img).At(x, y), img.At(x, y);
      p.r == 255 - q.r && p.g == 255 - q.g && p.b == 255 - q.b
  {}

  lemma InvertInvolution(img: Raster)
    ensures InvertOf(InvertOf(img)) == img
  {
    SamePixels(InvertOf(InvertOf(img)), img);
  }

  /** grayscale keeps the dimensions and gives every pixel three equal channels,
      the luma of the input pixel. */
  lemma GrayscaleEffect(img: Raster, luma: Luma)
    ensures GrayscaleOf(img, luma).width == img.width && GrayscaleOf(img, luma).height == img.height
    ensures forall x, y :: 0 <= x < img.width && 0 <= y < img.height ==>
      var p, q := GrayscaleOf(img, luma).At(x, y), img.At(x, y);
      p.r == p.g == p.b == luma(q.r, q.g, q.b)
  {}

  /** Grayscale is idempotent whenever the weighting maps every gray (c, c, c) to c. */
  lemma GrayscaleIdempotent(img: Raster, luma: Luma)
    requires forall c: Channel :: luma(c, c, c) == c
    ensures GrayscaleOf(GrayscaleOf(img, luma), luma) == GrayscaleOf(img, luma)
  {
    var g := GrayscaleOf(img, luma);
    forall x, y | 0 <= x < img.width && 0 <= y < img.height
      ensures GrayscaleOf(g, luma).At(x, y) == g.At(x, y)
    {
      var v := g.At(x, y).r;
      assert luma(v, v, v) == v;
    }
    SamePixels(GrayscaleOf(g, luma), g);
  }

  /** mirror keeps the dimensions; HORIZONTAL keeps rows y < h/2 and gives row y >= h/2
      the input row h-1-y; VERTICAL does the same with columns. */
  lemma MirrorEffect(img: Raster, dir: MirrorDirection)
    ensures MirrorOf(img, dir).width == img.width && MirrorOf(img, dir).height == img.height
    ensures dir == MirrorDirection.Horizontal ==>
      forall x, y :: 0 <= x < img.width && 0 <= y < img.height ==>
        MirrorOf(img, dir).At(x, y) == if y < img.height / 2 then img.At(x, y) else img.At(x, img.height - 1 - y)
    ensures dir == MirrorDirection.Vertical ==>
      forall x, y :: 0 <= x < img.width && 0 <= y < img.height ==>
        MirrorOf(img, dir).At(x, y) == if x < img.width / 2 then img.At(x, y) else img.At(img.width - 1 - x, y)
  {}

  /** The mirrored image is top-bottom (HORIZONTAL) or left-right (VERTICAL) symmetric. */
  lemma MirrorSymmetric(img: Raster, dir: MirrorDirection)
    ensures dir == MirrorDirection.Horizontal ==>
      forall x, y :: 0 <= x < img.width && 0 <= y < img.height ==>
        MirrorOf(img, dir).At(x, y) == MirrorOf(img, dir).At(x, img.height - 1 - y)
    ensures dir == MirrorDirection.Vertical ==>
      forall x, y :: 0 <= x < img.width && 0 <= y < img.height ==>
        MirrorOf(img, dir).At(x, y) == MirrorOf(img, dir).At(img.width - 1 - x, y)
  {
    var m, w, h := MirrorOf(img, dir), img.width, img.height;
    if dir == MirrorDirection.Horizontal {
      forall x, y | 0 <= x < w && 0 <= y < h
        ensures m.At(x, y) == m.At(x, h - 1 - y)
      {
        if y < h / 2 {
          assert h - 1 - y >= h / 2;
        } else if h - 1 - y >= h / 2 {
          assert y == h - 1 - y;
        }
      }
    } else {
      forall x, y | 0 <= x < w && 0 <= y < h
        ensures m.At(x, y) == m.At(w - 1 - x, y)
      {
        if x < w / 2 {
          assert w - 1 - x >= w / 2;
        } else if w - 1 - x >= w / 2 {
          assert x == w - 1 - x;
        }
      }
    }
  }

  lemma MirrorIdempotent(img: Raster, dir: MirrorDirection)
    ensures MirrorOf(MirrorOf(img, dir), dir) == MirrorOf(img, dir)
  {
    var m := MirrorOf(img, dir);
    MirrorSymmetric(img, dir);
    SamePixels(MirrorOf(m, dir), m);
  }

  /** rotate swaps the dimensions, sends input (x, y) to (h-1-y, x) clockwise and to
      (y, w-1-x) counter-clockwise, and every output pixel is such an image of an input pixel. */
  lemma RotateEffect(img: Raster, dir: RotateDirection)
    ensures RotateOf(img, dir).width == img.height && RotateOf(img, dir).height == img.width
    ensures dir == Clockwise ==>
      && (forall x, y :: 0 <= x < img.width && 0 <= y < img.height ==>
            RotateOf(img, dir).At(img.height - 1 - y, x) == img.At(x, y))
      && (forall x, y :: 0 <= x < img.height && 0 <= y < img.width ==>
            RotateOf(img, dir).At(x, y) == img.At(y, img.height - 1 - x))
    ensures dir == CounterClockwise ==>
      && (forall x, y :: 0 <= x < img.width && 0 <= y < img.height ==>
            RotateOf(img, dir).At(y, img.width - 1 - x) == img.At(x, y))
      && (forall x, y :: 0 <= x < img.height && 0 <= y < img.width ==>
            RotateOf(img, dir).At(x, y) == img.At(img.width - 1 - y, x))
  {
    var r, w, h := RotateOf(img, dir), img.width, img.height;
    forall x, y | 0 <= x < w && 0 <= y < h
      ensures dir == Clockwise ==> r.At(h - 1 - y, x) == img.At(x, y)
      ensures dir == CounterClockwise ==> r.At(y, w - 1 - x) == img.At(x, y)
    {
    }
  }

  lemma RotateAt(img: Raster, dir: RotateDirection, x: int, y: int)
    requires 0 <= x < img.height && 0 <= y < img.width
    ensures RotateOf(img, dir).width == img.height && RotateOf(img, dir).height == img.width
    ensures RotateOf(img, dir).At(x, y) == RotatePixel(img, dir, x, y)
  {
  }

  lemma RotateClockwiseThenCounter(img: Raster)
    ensures RotateOf(RotateOf(img, Clockwise), CounterClockwise) == img
  {
    SamePixels(RotateOf(RotateOf(img, Clockwise), CounterClockwise), img);
  }

  lemma RotateCounterThenClockwise(img: Raster)
    ensures RotateOf(RotateOf(img, CounterClockwise), Clockwise) == img
  {
    SamePixels(RotateOf(RotateOf(img, CounterClockwise), Clockwise), img);
  }

  /** Three quarter turns clockwise are one quarter turn counter-clockwise. */
  lemma RotateThreeClockwise(img: Raster)
    ensures RotateOf(RotateOf(RotateOf(img, Clockwise), Clockwise), Clockwise) == RotateOf(img, CounterClockwise)
  {
    var r1 := RotateOf(img, Clockwise);
    var r2 := RotateOf(r1, Clockwise);
    var r3 := RotateOf(r2, Clockwise);
    var w, h := img.width, img.height;
    forall x, y | 0 <= x < h && 0 <= y < w
      ensures r3.At(x, y) == RotateOf(img, CounterClockwise).At(x, y)
    {
      RotateThreeAt(img, x, y);
    }
    SamePixels(r3, RotateOf(img, CounterClockwise));
  }

  lemma RotateThreeAt(img: Raster, x: int, y: int)
    requires 0 <= x < img.height && 0 <= y < img.width
    ensures RotateOf(RotateOf(RotateOf(img, Clockwise), Clockwise), Clockwise).At(x, y)
         == RotateOf(img, CounterClockwise).At(x, y)
  {
    var w, h := img.width, img.height;
    var r1 := RotateOf(img, Clockwise);
    var r2 := RotateOf(r1, Clockwise);
    RotateAt(img, Clockwise, h - 1 - x, w - 1 - y);
    RotateAt(r1, Clockwise, y, h - 1 - x);
    RotateAt(r2, Clockwise, x, y);
    RotateAt(img, CounterClockwise, x, y);
  }

  lemma RotateFourClockwise(img: Raster)
    ensures RotateOf(RotateOf(RotateOf(RotateOf(img, Clockwise), Clockwise), Clockwise), Clockwise) == img
  {
    RotateThreeClockwise(img);
    RotateCounterThenClockwise(img);
  }

  /** repeat multiplies the width (HORIZONTAL) or the height (VERTICAL) by n, and the
      output is periodic: its pixel (x, y) is the input pixel at x mod w (resp. y mod h). */
  lemma RepeatEffect(img: Raster, n: int, dir: RepeatDirection)
    requires 1 <= n
    requires dir == RepeatDirection.Horizontal ==> img.width * n <= INT_MAX
    requires dir == RepeatDirection.Vertical ==> img.height * n <= INT_MAX
    ensures dir == RepeatDirection.Horizontal ==>
      && RepeatOf(img, n, dir).width == img.width * n && RepeatOf(img, n, dir).height == img.height
      && forall x, y :: 0 <= x < img.width * n && 0 <= y < img.height ==>
           RepeatOf(img, n, dir).At(x, y) == img.At(x % img.width, y)
    ensures dir == RepeatDirection.Vertical ==>
      && RepeatOf(img, n, dir).width == img.width && RepeatOf(img, n, dir).height == img.height * n
      && forall x, y :: 0 <= x < img.width && 0 <= y < img.height * n ==>
           RepeatOf(img, n, dir).At(x, y) == img.At(x, y % img.height)
  {}

  /** Every tile of the output is an exact copy of the input: pixel (x, y) of the input
      appears at (x + r*w, y) (HORIZONTAL) or (x, y + r*h) (VERTICAL) for every copy r. */
  lemma RepeatTiles(img: Raster, n: int, dir: RepeatDirection, r: int, x: int, y: int)
    requires 0 <= r < n && 0 <= x < img.width && 0 <= y < img.height
    requires dir == RepeatDirection.Horizontal ==> img.width * n <= INT_MAX
    requires dir == RepeatDirection.Vertical ==> img.height * n <= INT_MAX
    ensures dir == RepeatDirection.Horizontal ==>
      RepeatOf(img, n, dir).At(x + r * img.width, y) == img.At(x, y)
    ensures dir == RepeatDirection.Vertical ==>
      RepeatOf(img, n, dir).At(x, y + r * img.height) == img.At(x, y)
  {
    if dir == RepeatDirection.Horizontal {
      TileAcrossAt(img, n, r, x, y);
    } else {
      TileDownAt(img, n, r, x, y);
    }
  }

  lemma TileAcrossAt(img: Raster, n: int, r: int, x: int, y: int)
    requires 0 <= r < n && img.width * n <= INT_MAX
    requires 0 <= x < img.width && 0 <= y < img.height
    ensures RepeatOf(img, n, RepeatDirection.Horizontal).At(x + r * img.width, y) == img.At(x, y)
  {
    var X := x + r * img.width;
    TileBound(r, n, img.width);
    TileIndex(X, r, img.width);
    RepeatAt(img, n, RepeatDirection.Horizontal, X, y);
  }

  lemma TileDownAt(img: Raster, n: int, r: int, x: int, y: int)
    requires 0 <= r < n && img.height * n <= INT_MAX
    requires 0 <= x < img.width && 0 <= y < img.height
    ensures RepeatOf(img, n, RepeatDirection.Vertical).At(x, y + r * img.height) == img.At(x, y)
  {
    var Y := y + r * img.height;
    TileBound(r, n, img.height);
    TileIndex(Y, r, img.height);
    RepeatAt(img, n, RepeatDirection.Vertical, x, Y);
  }

  /** The pixel of the repeated image at a position inside it. */
  lemma RepeatAt(img: Raster, n: int, dir: RepeatDirection, x: int, y: int)
    requires 1 <= n
    requires dir == RepeatDirection.Horizontal ==>
      img.width * n <= INT_MAX && 0 <= x < img.width * n && 0 <= y < img.height
    requires dir == RepeatDirection.Vertical ==>
      img.height * n <= INT_MAX && 0 <= x < img.width && 0 <= y < img.height * n
    ensures RepeatOf(img, n, dir).At(x, y) == RepeatPixel(img, dir, x, y)
  {
  }

  /** repeat yields the n copies exactly when 1 <= n and the repeated side fits an int;
      n == 0 always throws, and so does every n >= 1 whose product overflows. */
  lemma RepeatOutcome(img: Raster, n: int, dir: RepeatDirection)
    requires INT_MIN <= n <= INT_MAX
    ensures 1 <= n && (dir == RepeatDirection.Horizontal ==> img.width * n <= INT_MAX)
                   && (dir == RepeatDirection.Vertical ==> img.height * n <= INT_MAX)
            ==> RepeatResult(img, n, dir) == Ok(RepeatOf(img, n, dir))
    ensures 1 <= n && dir == RepeatDirection.Horizontal && img.width * n > INT_MAX ==> RepeatResult(img, n, dir).Err?
    ensures 1 <= n && dir == RepeatDirection.Vertical && img.height * n > INT_MAX ==> RepeatResult(img, n, dir).Err?
    ensures n == 0 ==> RepeatResult(img, n, dir) == Err(NonPositiveSize)
  {
    if 1 <= n {
      TileBound(0, n, img.width);
      TileBound(0, n, img.height);
    }
  }

  /** With n below 1 no copy is ever made: the result, when there is one, is all Black. */
  lemma RepeatNonPositive(img: Raster, n: int, dir: RepeatDirection, x: int, y: int)
    requires INT_MIN <= n < 1 && RepeatResult(img, n, dir).Ok?
    requires 0 <= x < RepeatResult(img, n, dir).value.width && 0 <= y < RepeatResult(img, n, dir).value.height
    ensures RepeatResult(img, n, dir).value.At(x, y) == Black
  {
  }

  /** Overflow: three columns repeated -1431655765 times wrap to a side of 1, and the
      result is a one-column Black image instead of a failure. Five columns repeated
      2^30 times wrap to 2^30 and the copies run off its edge; two columns repeated
      2^30 times wrap to INT_MIN and the allocation fails. */
  lemma RepeatWraps(img: Raster)
    ensures img.width == 3 ==>
      RepeatResult(img, -1431655765, RepeatDirection.Horizontal) == Ok(Build(1, img.height, (x, y) => Black))
    ensures img.width == 5 ==>
      RepeatResult(img, 0x4000_0000, RepeatDirection.Horizontal) == Err(CoordinateOutOfBounds)
    ensures img.width == 2 ==>
      RepeatResult(img, 0x4000_0000, RepeatDirection.Horizontal) == Err(NonPositiveSize)
  {
  }

  lemma RepeatOnce(img: Raster, dir: RepeatDirection)
    ensures RepeatOf(img, 1, dir) == img
  {
    var m, w, h := RepeatOf(img, 1, dir), img.width, img.height;
    forall x, y | 0 <= x < w && 0 <= y < h
      ensures m.At(x, y) == img.At(x, y)
    {
      TileIndex(x, 0, w);
      TileIndex(y, 0, h);
    }
    SamePixels(m, img);
  }
}
