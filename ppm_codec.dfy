/**
 * The plain-text PPM ("P3") codec of `ImageEditor`: `readPpmImage` without the
 * file and the history update, and `writePpmImage` without the file. The
 * decoder reads the text through `TextScan` (readLine, then Scanner tokens);
 * the encoder returns the text it would print, lines ended by "\n".
 */
module PpmCodec {
  import opened Wrappers
  import opened Raster
  import opened TextScan
  import opened IndexMath

  /** Why reading fails; each is an exception in the source. */
  datatype DecodeError =
    | NotPpm                  // first non-comment line missing or not "P3"
    | MissingToken            // Scanner.nextInt with no token left
    | NotAnInt                // Scanner.nextInt on a token that is not an int
    | UnsupportedMax(max: int)
    | BadDimensions           // new BufferedImage with a width or height below 1
    | ChannelOutOfRange       // new Color with a channel outside 0..255
    | CoordinateOutOfBounds   // setRGB on a row below the last one

  // ---------------------------------------------------------------- decoding, as functions

  /** `nextInt` on token i, each token already read as an int or as not one. */
  function NextInt(vals: seq<Option<Int32>>, i: nat): (r: Result<int, DecodeError>)
    ensures i >= |vals| ==> r == Err(MissingToken)
    ensures i < |vals| && vals[i].None? ==> r == Err(NotAnInt)
    ensures i < |vals| && vals[i].Some? ==> r == Ok(vals[i].value)
  {
    if i >= |vals| then Err(MissingToken)
    else match vals[i]
      case None => Err(NotAnInt)
      case Some(v) => Ok(v)
  }

  /** `hasNextInt` with token i next. */
  predicate HasNextInt(vals: seq<Option<Int32>>, i: nat) {
    i < |vals| && vals[i].Some?
  }

  predicate InChannelRange(v: int) {
    0 <= v <= 255
  }

  /** `new Color(nextInt(), nextInt(), nextInt())` on the tokens left, the first known to be an int. */
  function ColorAt(vals: seq<Option<Int32>>): (r: Result<Pixel, DecodeError>)
    requires HasNextInt(vals, 0)
    ensures r.Ok? <==> 3 <= |vals| && vals[1].Some? && vals[2].Some?
                       && InChannelRange(vals[0].value) && InChannelRange(vals[1].value)
                       && InChannelRange(vals[2].value)
    ensures r.Ok? ==> r.value == Pixel(vals[0].value, vals[1].value, vals[2].value)
    ensures |vals| == 1 || (|vals| == 2 && vals[1].Some?) ==> r == Err(MissingToken)
    ensures (2 <= |vals| && vals[1].None?) || (3 <= |vals| && vals[1].Some? && vals[2].None?) ==> r == Err(NotAnInt)
    ensures 3 <= |vals| && vals[1].Some? && vals[2].Some?
            && !(InChannelRange(vals[0].value) && InChannelRange(vals[1].value) && InChannelRange(vals[2].value))
            ==> r == Err(ChannelOutOfRange)
  {
    var r := vals[0].value;
    var g :- NextInt(vals, 1);
    var b :- NextInt(vals, 2);
    if InChannelRange(r) && InChannelRange(g) && InChannelRange(b) then Ok(Pixel(r, g, b))
    else Err(ChannelOutOfRange)
  }

  /** The pixel loop read from the front of the tokens: one triple per round while the next
      token is an int, failing as the loop body fails, with room for `cap` more pixels. */
  function Triples(vals: seq<Option<Int32>>, cap: nat): (r: Result<seq<Pixel>, DecodeError>)
    ensures r.Ok? ==> |r.value| <= cap
    decreases |vals|
  {
    if !HasNextInt(vals, 0) then Ok([])
    else
      var p :- ColorAt(vals);
      if cap == 0 then Err(CoordinateOutOfBounds)
      else
        var rest :- Triples(vals[3..], cap - 1);
        Ok([p] + rest)
  }

  function Prepend(ps: seq<Pixel>, r: Result<seq<Pixel>, DecodeError>): Result<seq<Pixel>, DecodeError> {
    match r
    case Ok(qs) => Ok(ps + qs)
    case Err(e) => Err(e)
  }

  /** Solver aid: prepending nothing is the identity (the loop invariant at its start). */
  lemma PrependNothing(r: Result<seq<Pixel>, DecodeError>)
    ensures Prepend([], r) == r
  {
    if r.Ok? {
      assert [] + r.value == r.value;
    }
  }

  /** A round of the pixel loop that reads a colour for a pixel inside the image. */
  lemma TriplesCons(vals: seq<Option<Int32>>, cap: nat)
    requires HasNextInt(vals, 0) && ColorAt(vals).Ok? && cap > 0
    ensures Triples(vals, cap) == Prepend([ColorAt(vals).value], Triples(vals[3..], cap - 1))
  {
  }

  /** The loop invariant carried over one round that reads colour `c` into a free pixel. */
  lemma TriplesStep(whole: Result<seq<Pixel>, DecodeError>, done: seq<Pixel>, vals: seq<Option<Int32>>,
                    i: nat, room: nat)
    requires i <= |vals| && HasNextInt(vals[i..], 0) && ColorAt(vals[i..]).Ok? && room > 0
    requires whole == Prepend(done, Triples(vals[i..], room))
    ensures i + 3 <= |vals|
    ensures whole == Prepend(done + [ColorAt(vals[i..]).value], Triples(vals[i + 3..], room - 1))
  {
    assert vals[i..][3..] == vals[i + 3..];
    TriplesCons(vals[i..], room);
    PrependAssoc(done, [ColorAt(vals[i..]).value], Triples(vals[i + 3..], room - 1));
  }

  /** Solver aid: prepending in two steps is prepending the concatenation. */
  lemma PrependAssoc(a: seq<Pixel>, b: seq<Pixel>, r: Result<seq<Pixel>, DecodeError>)
    ensures Prepend(a, Prepend(b, r)) == Prepend(a + b, r)
  {
    if r.Ok? {
      assert a + (b + r.value) == a + b + r.value;
    }
  }

  /** The row-major pixel store after the loop: the triples read, then Black up to w * h. */
  function FilledPixels(vals: seq<Option<Int32>>, w: int, h: int): (r: Result<seq<Pixel>, DecodeError>)
    requires 1 <= w && 1 <= h
    ensures r.Ok? ==> |r.value| == w * h
  {
    MulNonneg(w, h);
    var ps :- Triples(vals, w * h);
    Ok(Padded(ps, w * h))
  }

  /** `ps` followed by Black pixels up to length n. */
  function Padded(ps: seq<Pixel>, n: nat): (r: seq<Pixel>)
    requires |ps| <= n
    ensures |r| == n
  {
    ps + seq(n - |ps|, _ => Black)
  }

  lemma PaddedSet(ps: seq<Pixel>, c: Pixel, n: nat)
    requires |ps| < n
    ensures Padded(ps + [c], n) == Padded(ps, n)[|ps| := c]
  {
  }

  /** Row-major pixels cut into h rows of w. */
  function Chunk(s: seq<Pixel>, w: int, h: nat): (rows: seq<seq<Pixel>>)
    requires 1 <= w && |s| == w * h
    ensures |rows| == h && forall y :: 0 <= y < h ==> |rows[y]| == w
  {
    if h == 0 then []
    else
      assert |s| - w == w * (h - 1);
      Chunk(s[..|s| - w], w, h - 1) + [s[|s| - w..]]
  }

  /** Everything after the "P3" line: width, height and max value, then the pixel triples. */
  function DecodeBody(vals: seq<Option<Int32>>): Result<Raster, DecodeError> {
    var width :- NextInt(vals, 0);
    var height :- NextInt(vals, 1);
    var max :- NextInt(vals, 2);
    if max != 255 then Err(UnsupportedMax(max))
    else if width < 1 || height < 1 then Err(BadDimensions)
    else
      var pixels :- FilledPixels(vals[3..], width, height);
      Ok(Image(width, height, Chunk(pixels, width, height)))
  }

  function DecodePpm(text: string): Result<Raster, DecodeError> {
    match FirstNonComment(text)
    case None => Err(NotPpm)
    case Some((line, rest)) => if line != "P3" then Err(NotPpm) else DecodeBody(ScanInts(Tokens(rest)))
  }

  // ---------------------------------------------------------------- decoding, as the source runs it

  /** The `while (current.hasNextInt())` loop: an x/y cursor over a fresh all-Black image. */
  method ReadPixels(vals: seq<Option<Int32>>, w: int, h: int) returns (r: Result<seq<Pixel>, DecodeError>)
    requires 1 <= w && 1 <= h
    ensures r == FilledPixels(vals, w, h)
  {
    MulNonneg(w, h);
    var img := new Pixel[w * h](_ => Black);
    ghost var cap: nat := w * h;
    ghost var whole := Triples(vals, cap);
    var x, y, i := 0, 0, 0;
    ghost var done: seq<Pixel> := [];
    assert vals[0..] == vals && img[..] == Padded(done, cap);
    PrependNothing(whole);
    while HasNextInt(vals, i)
      invariant 0 <= x < w && 0 <= y && |done| == y * w + x && |done| <= cap
      invariant i <= |vals|
      invariant whole == Prepend(done, Triples(vals[i..], cap - |done|))
      invariant img[..] == Padded(done, cap)
      decreases |vals| - i
    {
      var c :- ColorAt(vals[i..]);
      CursorStep(x, y, w, h);
      if y >= h {
        return Err(CoordinateOutOfBounds);
      }
      TriplesStep(whole, done, vals, i, cap - |done|);
      PaddedSet(done, c, cap);
      ghost var before := img[..];
      var at := y * w + x;
      img[at] := c;
      assert img[..] == before[at := c];
      x, i, done := x + 1, i + 3, done + [c];
      if x == w {
        x, y := 0, y + 1;
      }
    }
    assert Triples(vals[i..], cap - |done|) == Ok([]);
    assert done + [] == done;
    r := Ok(img[..]);
  }

  /** `readPpmImage` up to the point where the history is replaced. */
  method Decode(text: string) returns (r: Result<Raster, DecodeError>)
    ensures r == DecodePpm(text)
  {
    var line := ReadLine(text);
    while line.Some? && IsComment(line.value.0)
      invariant SkipComments(line) == FirstNonComment(text)
      decreases if line.None? then 0 else |line.value.1| + 1
    {
      line := ReadLine(line.value.1);
    }
    if line.None? || line.value.0 != "P3" {
      return Err(NotPpm);
    }
    var vals := ScanInts(Tokens(line.value.1));
    var width :- NextInt(vals, 0);
    var height :- NextInt(vals, 1);
    var max :- NextInt(vals, 2);
    if max != 255 {
      return Err(UnsupportedMax(max));
    }
    if width < 1 || height < 1 {
      return Err(BadDimensions);
    }
    var pixels :- ReadPixels(vals[3..], width, height);
    return Ok(Image(width, height, Chunk(pixels, width, height)));
  }

  // ---------------------------------------------------------------- encoding

  function PixelText(p: Pixel): string {
    NatToString(p.r) + " " + NatToString(p.g) + " " + NatToString(p.b)
  }

  /** A printed row: the 3 * |ps| channel values separated by single spaces. */
  function RowText(ps: seq<Pixel>): string {
    if |ps| == 0 then ""
    else if |ps| == 1 then PixelText(ps[0])
    else RowText(ps[..|ps| - 1]) + " " + PixelText(ps[|ps| - 1])
  }

  /** What the row's StringBuilder holds before its last character is cut off. */
  function Spaced(ps: seq<Pixel>): string {
    if ps == [] then "" else Spaced(ps[..|ps| - 1]) + PixelText(ps[|ps| - 1]) + " "
  }

  function RowsText(rows: seq<seq<Pixel>>): string {
    if rows == [] then ""
    else RowsText(rows[..|rows| - 1]) + RowText(rows[|rows| - 1]) + "\n"
  }

  function Header(w: nat, h: nat): string {
    "P3\n" + NatToString(w) + " " + NatToString(h) + "\n" + "255\n"
  }

  function EncodePpm(img: Raster): string {
    Header(img.width, img.height) + RowsText(img.rows)
  }

  /** `writePpmImage` for an image that is present: the header, then a row per line. */
  method Encode(img: Raster) returns (s: string)
    ensures s == EncodePpm(img)
  {
    var w, h := img.width, img.height;
    s := "P3\n";
    s := s + NatToString(w) + " " + NatToString(h) + "\n";
    s := s + "255\n";
    assert img.rows[..0] == [];
    for y := 0 to h
      invariant s == Header(w, h) + RowsText(img.rows[..y])
    {
      var line := EncodeRow(img.rows[y]);
      PrintRow(s, Header(w, h), img.rows, y, line);
      s := s + line + "\n";
    }
    assert img.rows[..h] == img.rows;
  }

  /** Printing row y after the rows above it extends the text by that row's line. */
  lemma PrintRow(s: string, header: string, rows: seq<seq<Pixel>>, y: int, line: string)
    requires 0 <= y < |rows| && s == header + RowsText(rows[..y]) && line == RowText(rows[y])
    ensures s + line + "\n" == header + RowsText(rows[..y + 1])
  {
    assert rows[..y + 1][..y] == rows[..y];
    assert RowsText(rows[..y + 1]) == RowsText(rows[..y]) + line + "\n";
    Assoc4(header, RowsText(rows[..y]), line, "\n");
  }

  /** Solver aid: regrouping a concatenation, which the solver does poorly inside larger goals. */
  lemma Assoc4(a: string, b: string, c: string, d: string)
    ensures a + b + c + d == a + (b + c + d)
  {
  }

  /** One row of `writePpmImage`: every value followed by a space, then the last space cut. */
  method EncodeRow(ps: seq<Pixel>) returns (line: string)
    requires |ps| > 0
    ensures line == RowText(ps)
  {
    var row := "";
    for x := 0 to |ps|
      invariant row == Spaced(ps[..x])
    {
      var c := ps[x];
      assert Spaced(ps[..x + 1]) == Spaced(ps[..x]) + PixelText(c) + " " by {
        assert ps[..x + 1][..x] == ps[..x];
      }
      AppendPixel(row, c);
      row := row + NatToString(c.r) + " " + NatToString(c.g) + " " + NatToString(c.b) + " ";
    }
    assert row == RowText(ps) + " " by {
      assert ps[..|ps|] == ps;
      SpacedIsRow(ps);
    }
    line := row[..|row| - 1];
  }

  lemma AppendPixel(row: string, c: Pixel)
    ensures row + NatToString(c.r) + " " + NatToString(c.g) + " " + NatToString(c.b) + " "
         == row + PixelText(c) + " "
  {
  }

  lemma {:induction false} SpacedIsRow(ps: seq<Pixel>)
    requires |ps| > 0
    ensures Spaced(ps) == RowText(ps) + " "
  {
    if |ps| > 1 {
      SpacedIsRow(ps[..|ps| - 1]);
    } else {
      assert ps[..0] == [];
    }
  }

  // ---------------------------------------------------------------- what the text holds

  /** The tokens the encoder prints for a run of pixels: three channel values each. */
  function PixelTokens(ps: seq<Pixel>): (ts: seq<string>)
    ensures |ts| == 3 * |ps|
  {
    if ps == [] then []
    else [NatToString(ps[0].r), NatToString(ps[0].g), NatToString(ps[0].b)] + PixelTokens(ps[1..])
  }

  /** The pixels of the rows, row after row. */
  function Flatten(rows: seq<seq<Pixel>>): seq<Pixel> {
    if rows == [] then [] else Flatten(rows[..|rows| - 1]) + rows[|rows| - 1]
  }

  lemma {:induction false} PixelTokensAppend(a: seq<Pixel>, b: seq<Pixel>)
    ensures PixelTokens(a + b) == PixelTokens(a) + PixelTokens(b)
  {
    if a != [] {
      assert (a + b)[1..] == a[1..] + b;
      PixelTokensAppend(a[1..], b);
    } else {
      assert a + b == b;
    }
  }

  lemma PixelTextTokens(p: Pixel, c: char, rest: string)
    requires IsWhitespace(c)
    ensures Tokens(PixelText(p) + [c] + rest) == PixelTokens([p]) + Tokens(rest)
  {
    var r, g, b := NatToString(p.r), NatToString(p.g), NatToString(p.b);
    assert IsToken(r) && IsToken(g) && IsToken(b) by {
      NatToStringParses(p.r);
      NatToStringParses(p.g);
      NatToStringParses(p.b);
    }
    assert PixelText(p) + [c] + rest == r + [' '] + g + [' '] + b + [c] + rest;
    ThreeTokens(r, g, b, ' ', ' ', c, rest);
    assert PixelTokens([p]) == [r, g, b] by {
      assert [p][1..] == [];
    }
  }

  /** A row's text, ended by whitespace, reads back as exactly the row's channel values. */
  lemma {:induction false} RowTextTokens(ps: seq<Pixel>, c: char, rest: string)
    requires |ps| > 0 && IsWhitespace(c)
    ensures Tokens(RowText(ps) + [c] + rest) == PixelTokens(ps) + Tokens(rest)
  {
    var last := ps[|ps| - 1];
    if |ps| == 1 {
      PixelTextTokens(last, c, rest);
      assert ps == [last];
    } else {
      var init := ps[..|ps| - 1];
      RowTextTokens(init, ' ', PixelText(last) + [c] + rest);
      RowTextStep(ps, c, rest);
    }
  }

  /** The inductive step of RowTextTokens: the last pixel's text after the others'. */
  lemma RowTextStep(ps: seq<Pixel>, c: char, rest: string)
    requires |ps| > 1 && IsWhitespace(c)
    requires var tail := PixelText(ps[|ps| - 1]) + [c] + rest;
      Tokens(RowText(ps[..|ps| - 1]) + [' '] + tail) == PixelTokens(ps[..|ps| - 1]) + Tokens(tail)
    ensures Tokens(RowText(ps) + [c] + rest) == PixelTokens(ps) + Tokens(rest)
  {
    var init, last := ps[..|ps| - 1], ps[|ps| - 1];
    RowTextSplit(ps, c, rest);
    PixelTextTokens(last, c, rest);
    PixelTokensSnoc(ps);
    SeqAssoc(PixelTokens(init), PixelTokens([last]), Tokens(rest));
  }

  /** The text of a row of two or more pixels: the others' text, a space, the last one's. */
  lemma RowTextSplit(ps: seq<Pixel>, c: char, rest: string)
    requires |ps| > 1
    ensures RowText(ps) + [c] + rest
         == RowText(ps[..|ps| - 1]) + [' '] + (PixelText(ps[|ps| - 1]) + [c] + rest)
  {
    assert RowText(ps) == RowText(ps[..|ps| - 1]) + " " + PixelText(ps[|ps| - 1]);
    TextAssoc(RowText(ps[..|ps| - 1]), PixelText(ps[|ps| - 1]), c, rest);
  }

  lemma PixelTokensSnoc(ps: seq<Pixel>)
    requires |ps| > 0
    ensures PixelTokens(ps) == PixelTokens(ps[..|ps| - 1]) + PixelTokens([ps[|ps| - 1]])
  {
    PixelTokensAppend(ps[..|ps| - 1], [ps[|ps| - 1]]);
    assert ps[..|ps| - 1] + [ps[|ps| - 1]] == ps;
  }

  /** Solver aid: regrouping a concatenation, which the solver does poorly inside larger goals. */
  lemma TextAssoc(a: string, b: string, c: char, rest: string)
    ensures a + " " + b + [c] + rest == a + [' '] + (b + [c] + rest)
  {
  }

  lemma {:induction false} RowsTextTokens(rows: seq<seq<Pixel>>)
    requires forall y :: 0 <= y < |rows| ==> |rows[y]| > 0
    ensures Tokens(RowsText(rows)) == PixelTokens(Flatten(rows))
  {
    if rows != [] {
      var init := rows[..|rows| - 1];
      assert forall y :: 0 <= y < |init| ==> init[y] == rows[y];
      RowsTextTokens(init);
      RowsTextStep(rows);
    }
  }

  /** The inductive step of RowsTextTokens: the last row's line after the others. */
  lemma RowsTextStep(rows: seq<seq<Pixel>>)
    requires rows != [] && |rows[|rows| - 1]| > 0
    requires Tokens(RowsText(rows[..|rows| - 1])) == PixelTokens(Flatten(rows[..|rows| - 1]))
    ensures Tokens(RowsText(rows)) == PixelTokens(Flatten(rows))
  {
    var init, last := rows[..|rows| - 1], rows[|rows| - 1];
    LineTokens(last);
    RowsTextEnd(init);
    RowsTextSnoc(rows);
    TokensJoin(RowsText(init), RowText(last) + "\n", PixelTokens(Flatten(init)), PixelTokens(last));
    PixelTokensAppend(Flatten(init), last);
  }

  /** A printed line reads back as its row's channel values. */
  lemma LineTokens(ps: seq<Pixel>)
    requires |ps| > 0
    ensures Tokens(RowText(ps) + "\n") == PixelTokens(ps)
  {
    RowTextTokens(ps, '\n', []);
    assert RowText(ps) + "\n" == RowText(ps) + ['\n'] + [];
  }

  lemma RowsTextSnoc(rows: seq<seq<Pixel>>)
    requires rows != []
    ensures RowsText(rows) == RowsText(rows[..|rows| - 1]) + (RowText(rows[|rows| - 1]) + "\n")
  {
  }

  /** The printed rows end with a line break. */
  lemma RowsTextEnd(rows: seq<seq<Pixel>>)
    ensures RowsText(rows) == [] || IsWhitespace(RowsText(rows)[|RowsText(rows)| - 1])
  {
  }

  lemma TokensJoin(a: string, b: string, ta: seq<string>, tb: seq<string>)
    requires a == [] || IsWhitespace(a[|a| - 1])
    requires Tokens(a) == ta && Tokens(b) == tb
    ensures Tokens(a + b) == ta + tb
  {
    TokensConcat(a, b);
  }

  /** How the Scanner reads the printed pixels: every channel value as an int. */
  function PixelInts(ps: seq<Pixel>): (vs: seq<Option<Int32>>)
    ensures |vs| == 3 * |ps|
  {
    if ps == [] then []
    else ChannelInts(ps[0]) + PixelInts(ps[1..])
  }

  lemma {:induction false} ScanPixelTokens(ps: seq<Pixel>)
    ensures ScanInts(PixelTokens(ps)) == PixelInts(ps)
  {
    if ps != [] {
      var p := ps[0];
      var front := [NatToString(p.r), NatToString(p.g), NatToString(p.b)];
      assert PixelTokens(ps) == front + PixelTokens(ps[1..]);
      ScanIntsAppend(front, PixelTokens(ps[1..]));
      assert ScanInts(front) == [Some(p.r as Int32), Some(p.g as Int32), Some(p.b as Int32)] by {
        NatToStringParses(p.r);
        NatToStringParses(p.g);
        NatToStringParses(p.b);
      }
      ScanPixelTokens(ps[1..]);
    }
  }

  /** The pixel loop over printed pixels: it reads them all when they fit, and otherwise
      fails at the first pixel past the end of the image, whatever follows. */
  lemma {:induction false} TriplesOfPixels(ps: seq<Pixel>, rest: seq<Option<Int32>>, cap: nat)
    ensures Triples(PixelInts(ps) + rest, cap)
         == if |ps| <= cap then Prepend(ps, Triples(rest, cap - |ps|)) else Err(CoordinateOutOfBounds)
  {
    if ps == [] {
      assert PixelInts(ps) + rest == rest;
      PrependNothing(Triples(rest, cap));
    } else {
      var t := PixelInts(ps) + rest;
      PrintedColor(ps, rest);
      if cap > 0 {
        TriplesCons(t, cap);
        TriplesOfPixels(ps[1..], rest, cap - 1);
        PrependFirst(ps, rest, cap);
      }
    }
  }

  /** The step of TriplesOfPixels: the first pixel read before the others. */
  lemma PrependFirst(ps: seq<Pixel>, rest: seq<Option<Int32>>, cap: nat)
    requires ps != [] && cap > 0
    requires Triples(PixelInts(ps[1..]) + rest, cap - 1)
          == if |ps| - 1 <= cap - 1 then Prepend(ps[1..], Triples(rest, cap - |ps|)) else Err(CoordinateOutOfBounds)
    ensures Prepend([ps[0]], Triples(PixelInts(ps[1..]) + rest, cap - 1))
         == if |ps| <= cap then Prepend(ps, Triples(rest, cap - |ps|)) else Err(CoordinateOutOfBounds)
  {
    if |ps| <= cap {
      PrependAssoc([ps[0]], ps[1..], Triples(rest, cap - |ps|));
      assert [ps[0]] + ps[1..] == ps;
    }
  }

  /** The first printed pixel is the first colour read, and the rest follow it. */
  lemma PrintedColor(ps: seq<Pixel>, rest: seq<Option<Int32>>)
    requires ps != []
    ensures HasNextInt(PixelInts(ps) + rest, 0)
    ensures ColorAt(PixelInts(ps) + rest) == Ok(ps[0])
    ensures (PixelInts(ps) + rest)[3..] == PixelInts(ps[1..]) + rest
  {
    var p := ps[0];
    var tail := PixelInts(ps[1..]) + rest;
    assert PixelInts(ps) + rest == ChannelInts(p) + tail;
    ColorOfChannels(p, tail);
  }

  /** How the Scanner reads one printed pixel. */
  function ChannelInts(p: Pixel): (vs: seq<Option<Int32>>)
    ensures |vs| == 3
  {
    [Some(p.r as Int32), Some(p.g as Int32), Some(p.b as Int32)]
  }

  lemma ColorOfChannels(p: Pixel, tail: seq<Option<Int32>>)
    ensures HasNextInt(ChannelInts(p) + tail, 0)
    ensures ColorAt(ChannelInts(p) + tail) == Ok(p)
    ensures (ChannelInts(p) + tail)[3..] == tail
  {
    var t := ChannelInts(p) + tail;
    assert t[0] == Some(p.r as Int32) && t[1] == Some(p.g as Int32) && t[2] == Some(p.b as Int32);
  }

  lemma {:induction false} FlattenLength(rows: seq<seq<Pixel>>, w: int)
    requires forall y :: 0 <= y < |rows| ==> |rows[y]| == w
    ensures |Flatten(rows)| == w * |rows|
  {
    if rows != [] {
      var init := rows[..|rows| - 1];
      assert forall y :: 0 <= y < |init| ==> init[y] == rows[y];
      FlattenLength(init, w);
      NextRow(|init|, w);
    }
  }

  /** Cutting the flattened rows back into rows of w gives the rows. */
  lemma {:induction false} ChunkFlatten(rows: seq<seq<Pixel>>, w: int)
    requires 1 <= w && forall y :: 0 <= y < |rows| ==> |rows[y]| == w
    ensures |Flatten(rows)| == w * |rows|
    ensures Chunk(Flatten(rows), w, |rows|) == rows
  {
    FlattenLength(rows, w);
    if rows != [] {
      var init, last := rows[..|rows| - 1], rows[|rows| - 1];
      assert forall y :: 0 <= y < |init| ==> init[y] == rows[y];
      FlattenLength(init, w);
      ChunkFlatten(init, w);
      var s := Flatten(rows);
      assert s[..|s| - w] == Flatten(init);
      assert s[|s| - w..] == last;
      assert init + [last] == rows;
    }
  }

  /** Row-major placement: the k-th pixel of the stream lands at (k mod w, k div w). */
  lemma {:induction false} ChunkAt(s: seq<Pixel>, w: int, h: nat, k: int)
    requires 1 <= w && |s| == w * h && 0 <= k < |s|
    ensures 0 <= k / w < h && 0 <= k % w < w
    ensures Chunk(s, w, h)[k / w][k % w] == s[k]
  {
    var front := |s| - w;
    assert front == (h - 1) * w;
    if k < front {
      ChunkAt(s[..front], w, h - 1, k);
    } else {
      TileIndex(k, h - 1, w);
    }
  }

  // ---------------------------------------------------------------- properties of the codec

  /** The header's three numbers come first among the tokens after the "P3" line. */
  lemma HeaderTokens(w: nat, h: nat, pixels: string)
    requires w <= INT_MAX && h <= INT_MAX
    ensures Tokens(NatToString(w) + " " + NatToString(h) + "\n" + "255\n" + pixels)
         == [NatToString(w), NatToString(h), "255"] + Tokens(pixels)
  {
    var sw, sh := NatToString(w), NatToString(h);
    assert IsToken(sw) && IsToken(sh) by {
      NatToStringParses(w);
      NatToStringParses(h);
    }
    assert sw + " " + sh + "\n" + "255\n" + pixels == sw + [' '] + sh + ['\n'] + "255" + ['\n'] + pixels;
    ThreeTokens(sw, sh, "255", ' ', '\n', '\n', pixels);
  }

  /** The body the encoder prints decodes to the image it came from. */
  lemma BodyRoundTrip(img: Raster)
    ensures DecodeBody([Some(img.width), Some(img.height), Some(255)] + PixelInts(Flatten(img.rows)))
         == Ok(img)
  {
    var w, h := img.width, img.height;
    var flat := Flatten(img.rows);
    var vals := [Some(w), Some(h), Some(255)] + PixelInts(flat);
    assert NextInt(vals, 0) == Ok(w) && NextInt(vals, 1) == Ok(h) && NextInt(vals, 2) == Ok(255);
    assert vals[3..] == PixelInts(flat);
    ChunkFlatten(img.rows, w);
    FilledOfPrinted(flat, w, h);
  }

  /** Exactly w * h printed pixels fill the image with nothing left over. */
  lemma FilledOfPrinted(ps: seq<Pixel>, w: int, h: int)
    requires 1 <= w && 1 <= h && |ps| == w * h
    ensures FilledPixels(PixelInts(ps), w, h) == Ok(ps)
  {
    assert PixelInts(ps) + [] == PixelInts(ps);
    TriplesOfPixels(ps, [], w * h);
    assert ps + [] == ps;
    assert Padded(ps, w * h) == ps;
  }

  /** The tokens after the "P3" line, as the Scanner reads them. */
  lemma ScanBody(img: Raster)
    ensures ScanInts([NatToString(img.width), NatToString(img.height), "255"] + PixelTokens(Flatten(img.rows)))
         == [Some(img.width), Some(img.height), Some(255)] + PixelInts(Flatten(img.rows))
  {
    var header := [NatToString(img.width), NatToString(img.height), "255"];
    ScanIntsAppend(header, PixelTokens(Flatten(img.rows)));
    ScanHeader(img.width, img.height);
    ScanPixelTokens(Flatten(img.rows));
  }

  /** The printed header numbers read back as the width, the height and 255. */
  lemma ScanHeader(w: nat, h: nat)
    requires w <= INT_MAX && h <= INT_MAX
    ensures ScanInts([NatToString(w), NatToString(h), "255"]) == [Some(w), Some(h), Some(255)]
  {
    NatToStringParses(w);
    NatToStringParses(h);
    MaxText();
    NatToStringParses(255);
  }

  lemma MaxText()
    ensures NatToString(255) == "255"
  {
  }

  /** Writing an image and reading the text back gives the same image. */
  lemma RoundTrip(img: Raster)
    ensures DecodePpm(EncodePpm(img)) == Ok(img)
  {
    var pixels := RowsText(img.rows);
    var body := NatToString(img.width) + " " + NatToString(img.height) + "\n" + "255\n" + pixels;
    var text := EncodePpm(img);
    assert text == "P3" + "\n" + body;
    ReadLineOf("P3", body);
    assert FirstNonComment(text) == Some(("P3", body));
    var toks := [NatToString(img.width), NatToString(img.height), "255"] + PixelTokens(Flatten(img.rows));
    assert Tokens(body) == toks by {
      HeaderTokens(img.width, img.height, pixels);
      RowsTextTokens(img.rows);
    }
    var vals := [Some(img.width), Some(img.height), Some(255)] + PixelInts(Flatten(img.rows));
    assert ScanInts(toks) == vals by {
      ScanBody(img);
    }
    assert DecodeBody(vals) == Ok(img) by {
      BodyRoundTrip(img);
    }
  }

  /** In a decoded image, the k-th colour read sits at (k mod w, k div w), and every pixel
      past the last colour read stays Black. */
  lemma DecodePlacement(vals: seq<Option<Int32>>, k: int)
    requires DecodeBody(vals).Ok?
    requires 0 <= k < DecodeBody(vals).value.width * DecodeBody(vals).value.height
    ensures 3 <= |vals|
    ensures Triples(vals[3..], DecodeBody(vals).value.width * DecodeBody(vals).value.height).Ok?
    ensures var img := DecodeBody(vals).value;
            var ps := Triples(vals[3..], img.width * img.height).value;
            img.At(k % img.width, k / img.width) == if k < |ps| then ps[k] else Black
  {
    var img := DecodeBody(vals).value;
    var w, h := img.width, img.height;
    var pixels := FilledPixels(vals[3..], w, h).value;
    ChunkAt(pixels, w, h, k);
  }

  /** A read succeeds only on text whose first non-comment line is exactly "P3" and whose
      next three tokens are the width, the height and 255. */
  lemma DecodeAccepts(text: string)
    requires DecodePpm(text).Ok?
    ensures FirstNonComment(text).Some? && FirstNonComment(text).value.0 == "P3"
    ensures var vals := ScanInts(Tokens(FirstNonComment(text).value.1));
            var img := DecodePpm(text).value;
            3 <= |vals| && vals[0] == Some(img.width) && vals[1] == Some(img.height) && vals[2] == Some(255)
  {
  }

  /** A '#' line before the magic line changes nothing: the text reads as it would without it. */
  lemma CommentIgnored(c: string, rest: string)
    requires IsComment(c) && forall i :: 0 <= i < |c| ==> !IsLineBreak(c[i])
    ensures DecodePpm(c + "\n" + rest) == DecodePpm(rest)
  {
    SkipsComment(c, rest);
  }

  /** Text that starts with the "P3" line reads as its body. */
  lemma MagicLine(body: string)
    ensures DecodePpm("P3\n" + body) == DecodeBody(ScanInts(Tokens(body)))
  {
    assert "P3\n" + body == "P3" + "\n" + body;
    StopsAtLine("P3", body);
  }

  /** The header is checked in the source's order: a max other than 255 is refused before
      the dimensions are looked at. */
  lemma DecodeMax(vals: seq<Option<Int32>>)
    requires 3 <= |vals| && vals[0].Some? && vals[1].Some? && vals[2].Some?
    ensures vals[2].value != 255 ==> DecodeBody(vals) == Err(UnsupportedMax(vals[2].value))
    ensures vals[2].value == 255 && (vals[0].value < 1 || vals[1].value < 1) ==> DecodeBody(vals) == Err(BadDimensions)
  {
  }

  /** A header cut short by the end of the text fails with MissingToken. */
  lemma HeaderMissing(vals: seq<Option<Int32>>)
    requires |vals| < 3 && forall i :: 0 <= i < |vals| ==> vals[i].Some?
    ensures DecodeBody(vals) == Err(MissingToken)
  {
  }

  /** A width, height or max token that is not an int fails with NotAnInt, whatever follows. */
  lemma HeaderNotInt(vals: seq<Option<Int32>>, i: nat)
    requires i < 3 && i < |vals| && vals[i].None? && forall j :: 0 <= j < i ==> vals[j].Some?
    ensures DecodeBody(vals) == Err(NotAnInt)
  {
  }

  lemma {:induction false} TriplesNotPpm(vals: seq<Option<Int32>>, cap: nat)
    ensures Triples(vals, cap) != Err(NotPpm)
    decreases |vals|
  {
    if HasNextInt(vals, 0) && ColorAt(vals).Ok? && cap > 0 {
      TriplesNotPpm(vals[3..], cap - 1);
    }
  }

  lemma DecodeBodyNotPpm(vals: seq<Option<Int32>>)
    ensures DecodeBody(vals) != Err(NotPpm)
  {
    if 3 <= |vals| && vals[0].Some? && vals[1].Some? && vals[2] == Some(255)
       && vals[0].value >= 1 && vals[1].value >= 1 {
      var w: int, h: int := vals[0].value, vals[1].value;
      MulNonneg(w, h);
      TriplesNotPpm(vals[3..], w * h);
    }
  }

  /** NotPpm is the failure of the magic line alone: it is reported exactly when there is
      no non-comment line or that line is not "P3". */
  lemma DecodeNotPpm(text: string)
    ensures DecodePpm(text) == Err(NotPpm)
        <==> FirstNonComment(text).None? || FirstNonComment(text).value.0 != "P3"
  {
    if FirstNonComment(text).Some? {
      DecodeBodyNotPpm(ScanInts(Tokens(FirstNonComment(text).value.1)));
    }
  }

  /** Once a valid header is read, the result is the pixel loop's: its image cut into rows,
      or its failure. */
  lemma HeaderRead(w: int, h: int, pixels: seq<Option<Int32>>)
    requires 1 <= w <= INT_MAX && 1 <= h <= INT_MAX
    ensures DecodeBody([Some(w), Some(h), Some(255)] + pixels)
         == if FilledPixels(pixels, w, h).Ok?
            then Ok(Image(w, h, Chunk(FilledPixels(pixels, w, h).value, w, h)))
            else Err(FilledPixels(pixels, w, h).error)
  {
    var vals := [Some(w), Some(h), Some(255)] + pixels;
    assert NextInt(vals, 0) == Ok(w) && NextInt(vals, 1) == Ok(h) && NextInt(vals, 2) == Ok(255);
    assert vals[3..] == pixels;
  }

  /** The pixel loop stops at the first token that is not an int, or at the end of the
      tokens: whatever follows is ignored, and the pixels not read stay Black. */
  lemma StopsAtNonInt(w: int, h: int, ps: seq<Pixel>, rest: seq<Option<Int32>>)
    requires 1 <= w <= INT_MAX && 1 <= h <= INT_MAX && |ps| <= w * h
    requires rest == [] || rest[0].None?
    ensures DecodeBody([Some(w), Some(h), Some(255)] + (PixelInts(ps) + rest))
         == Ok(Image(w, h, Chunk(Padded(ps, w * h), w, h)))
  {
    HeaderRead(w, h, PixelInts(ps) + rest);
    FilledStops(ps, rest, w, h);
  }

  lemma FilledStops(ps: seq<Pixel>, rest: seq<Option<Int32>>, w: int, h: int)
    requires 1 <= w && 1 <= h && |ps| <= w * h
    requires rest == [] || rest[0].None?
    ensures FilledPixels(PixelInts(ps) + rest, w, h) == Ok(Padded(ps, w * h))
  {
    TriplesOfPixels(ps, rest, w * h);
    assert Triples(rest, w * h - |ps|) == Ok([]);
    assert ps + [] == ps;
  }

  /** More colours than the image has pixels walk the cursor below the last row, and the
      read fails there. */
  lemma TooManyPixels(w: int, h: int, ps: seq<Pixel>, rest: seq<Option<Int32>>)
    requires 1 <= w <= INT_MAX && 1 <= h <= INT_MAX && |ps| > w * h
    ensures DecodeBody([Some(w), Some(h), Some(255)] + (PixelInts(ps) + rest)) == Err(CoordinateOutOfBounds)
  {
    HeaderRead(w, h, PixelInts(ps) + rest);
    FilledTooMany(ps, rest, w, h);
  }

  lemma FilledTooMany(ps: seq<Pixel>, rest: seq<Option<Int32>>, w: int, h: int)
    requires 1 <= w && 1 <= h && |ps| > w * h
    ensures FilledPixels(PixelInts(ps) + rest, w, h) == Err(CoordinateOutOfBounds)
  {
    MulNonneg(w, h);
    TriplesOfPixels(ps, rest, w * h);
  }

  /** A triple with a channel outside 0..255 after the pixels read so far fails the read with
      ChannelOutOfRange, even when the image is already full: the colour is made before
      the pixel is stored. */
  lemma BadChannel(w: int, h: int, ps: seq<Pixel>, v0: Int32, v1: Int32, v2: Int32, rest: seq<Option<Int32>>)
    requires 1 <= w <= INT_MAX && 1 <= h <= INT_MAX && |ps| <= w * h
    requires !(InChannelRange(v0) && InChannelRange(v1) && InChannelRange(v2))
    ensures DecodeBody([Some(w), Some(h), Some(255)] + (PixelInts(ps) + ([Some(v0), Some(v1), Some(v2)] + rest)))
         == Err(ChannelOutOfRange)
  {
    var tail := [Some(v0), Some(v1), Some(v2)] + rest;
    HeaderRead(w, h, PixelInts(ps) + tail);
    FilledBadTriple(ps, tail, w, h);
  }

  /** One or two ints left at the end of the text, after the pixels read so far, fail the
      read with MissingToken: `nextInt` finds no token for the rest of the triple. */
  lemma TruncatedTriple(w: int, h: int, ps: seq<Pixel>, tail: seq<Option<Int32>>)
    requires 1 <= w <= INT_MAX && 1 <= h <= INT_MAX && |ps| <= w * h
    requires 1 <= |tail| <= 2 && forall i :: 0 <= i < |tail| ==> tail[i].Some?
    ensures DecodeBody([Some(w), Some(h), Some(255)] + (PixelInts(ps) + tail)) == Err(MissingToken)
  {
    HeaderRead(w, h, PixelInts(ps) + tail);
    FilledBadTriple(ps, tail, w, h);
  }

  /** A green or blue token that is not an int, after pixels that fit, fails the read with
      NotAnInt; only a red token that is not an int ends the loop quietly. */
  lemma NonIntInTriple(w: int, h: int, ps: seq<Pixel>, v0: Int32, rest: seq<Option<Int32>>)
    requires 1 <= w <= INT_MAX && 1 <= h <= INT_MAX && |ps| <= w * h
    ensures DecodeBody([Some(w), Some(h), Some(255)] + (PixelInts(ps) + ([Some(v0), None] + rest)))
         == Err(NotAnInt)
  {
    var tail := [Some(v0), None] + rest;
    HeaderRead(w, h, PixelInts(ps) + tail);
    FilledBadTriple(ps, tail, w, h);
  }

  /** A colour that cannot be made, after pixels that fit, is the read's failure. */
  lemma FilledBadTriple(ps: seq<Pixel>, tail: seq<Option<Int32>>, w: int, h: int)
    requires 1 <= w && 1 <= h && |ps| <= w * h
    requires HasNextInt(tail, 0) && ColorAt(tail).Err?
    ensures FilledPixels(PixelInts(ps) + tail, w, h) == Err(ColorAt(tail).error)
  {
    TriplesOfPixels(ps, tail, w * h);
  }

  /** A printed row starts and ends with a digit: there is no space before the first value
      and none after the last. */
  lemma {:induction false} RowTextEnds(ps: seq<Pixel>)
    requires |ps| > 0
    ensures |RowText(ps)| > 0 && IsDigit(RowText(ps)[0]) && IsDigit(RowText(ps)[|RowText(ps)| - 1])
  {
    var last := ps[|ps| - 1];
    NatToStringDigits(last.r);
    NatToStringDigits(last.b);
    if |ps| > 1 {
      RowTextEnds(ps[..|ps| - 1]);
    }
  }
}
