/**
 * The two pieces of the Java library the decoder reads its text through:
 * `BufferedReader.readLine` (lines and their terminators) and `Scanner` (tokens
 * separated by whitespace; `hasNextInt`/`nextInt` for decimal ints). Also
 * `Integer.toString` for non-negative ints, which the encoder prints with.
 */
module TextScan {
  import opened Wrappers
  import opened Raster

  /** A Java `int`. */
  type Int32 = x: int | INT_MIN <= x <= INT_MAX

  // ---------------------------------------------------------------- lines

  predicate IsLineBreak(c: char) {
    c == '\n' || c == '\r'
  }

  /** Length of the prefix of s that holds no line terminator. */
  function LineLength(s: string): (n: nat)
    ensures n <= |s|
    ensures forall i :: 0 <= i < n ==> !IsLineBreak(s[i])
    ensures n < |s| ==> IsLineBreak(s[n])
  {
    if s == [] || IsLineBreak(s[0]) then 0 else 1 + LineLength(s[1..])
  }

  /** `readLine`: None at the end of the input; otherwise the line without its terminator
      ("\n", "\r" or "\r\n", or none for a last unterminated line) and what follows it. */
  function ReadLine(s: string): (r: Option<(string, string)>)
    ensures r.None? <==> s == []
    ensures r.Some? ==>
      var (line, rest) := r.value;
      && |rest| < |s|
      && (forall i :: 0 <= i < |line| ==> !IsLineBreak(line[i]))
      && ((s == line && rest == [])
          || s == line + "\n" + rest
          || s == line + "\r\n" + rest
          || (s == line + "\r" + rest && (rest == [] || rest[0] != '\n')))
  {
    if s == [] then None
    else
      var n := LineLength(s);
      if n == |s| then Some((s, []))
      else if s[n] == '\r' && n + 1 < |s| && s[n + 1] == '\n' then
        assert s == s[..n] + "\r\n" + s[n + 2..];
        Some((s[..n], s[n + 2..]))
      else
        assert s == s[..n] + [s[n]] + s[n + 1..];
        Some((s[..n], s[n + 1..]))
  }

  /** A line ended by "\n" is read back whole, and what follows it is left. */
  lemma ReadLineOf(line: string, rest: string)
    requires forall i :: 0 <= i < |line| ==> !IsLineBreak(line[i])
    ensures ReadLine(line + "\n" + rest) == Some((line, rest))
  {
    var s := line + "\n" + rest;
    assert s[|line|] == '\n';
    assert LineLength(s) == |line|;
    assert s[..|line|] == line && s[|line| + 1..] == rest;
  }

  predicate IsComment(line: string) {
    |line| > 0 && line[0] == '#'
  }

  /** The first line that does not start with '#', and the text after it. */
  function FirstNonComment(s: string): (r: Option<(string, string)>)
    ensures r.Some? ==> !IsComment(r.value.0)
    decreases |s|
  {
    SkipComments(ReadLine(s))
  }

  /** Continue the comment-skipping loop from a line already read. */
  function SkipComments(line: Option<(string, string)>): (r: Option<(string, string)>)
    ensures r.Some? ==> !IsComment(r.value.0)
    decreases if line.None? then 0 else |line.value.1| + 1, 1
  {
    match line
    case None => None
    case Some((l, rest)) => if IsComment(l) then FirstNonComment(rest) else line
  }

  /** A '#' line is skipped: the search goes on in the text after it. */
  lemma SkipsComment(c: string, rest: string)
    requires IsComment(c) && forall i :: 0 <= i < |c| ==> !IsLineBreak(c[i])
    ensures FirstNonComment(c + "\n" + rest) == FirstNonComment(rest)
  {
    ReadLineOf(c, rest);
  }

  /** The first line that is not a comment is the one returned, with the text after it. */
  lemma StopsAtLine(l: string, rest: string)
    requires !IsComment(l) && forall i :: 0 <= i < |l| ==> !IsLineBreak(l[i])
    ensures FirstNonComment(l + "\n" + rest) == Some((l, rest))
  {
    ReadLineOf(l, rest);
  }

  // ---------------------------------------------------------------- tokens

  /** Java's whitespace below U+0080: space, \t \n \u000B \f \r and U+001C to U+001F. */
  predicate IsWhitespace(c: char) {
    c == ' ' || '\t' <= c <= '\r' || '\U{1C}' <= c <= '\U{1F}'
  }

  predicate IsToken(t: string) {
    |t| > 0 && forall i :: 0 <= i < |t| ==> !IsWhitespace(t[i])
  }

  /** Length of the prefix of s that holds no whitespace. */
  function RunLength(s: string): (n: nat)
    ensures n <= |s|
    ensures forall i :: 0 <= i < n ==> !IsWhitespace(s[i])
    ensures n < |s| ==> IsWhitespace(s[n])
  {
    if s == [] || IsWhitespace(s[0]) then 0 else 1 + RunLength(s[1..])
  }

  /** The tokens a `Scanner` with the default delimiter sees: maximal runs of non-whitespace. */
  function Tokens(s: string): (ts: seq<string>)
    ensures forall i :: 0 <= i < |ts| ==> IsToken(ts[i])
    decreases |s|
  {
    if s == [] then []
    else if IsWhitespace(s[0]) then Tokens(s[1..])
    else
      var n := RunLength(s);
      [s[..n]] + Tokens(s[n..])
  }

  lemma {:induction false} RunLengthConcat(a: string, b: string)
    requires exists i :: 0 <= i < |a| && IsWhitespace(a[i])
    ensures RunLength(a + b) == RunLength(a)
    decreases |a|
  {
    if !IsWhitespace(a[0]) {
      assert (a + b)[1..] == a[1..] + b;
      var i :| 0 <= i < |a| && IsWhitespace(a[i]);
      assert IsWhitespace(a[1..][i - 1]);
      RunLengthConcat(a[1..], b);
    }
  }

  /** Text that ends in whitespace tokenizes independently of what follows it. */
  lemma {:induction false} TokensConcat(a: string, b: string)
    requires a == [] || IsWhitespace(a[|a| - 1])
    ensures Tokens(a + b) == Tokens(a) + Tokens(b)
    decreases |a|
  {
    if a == [] {
      assert a + b == b;
    } else if IsWhitespace(a[0]) {
      ConcatSlices(a, b, 1);
      TokensConcat(a[1..], b);
    } else {
      RunLengthConcat(a, b);
      var n := RunLength(a);
      ConcatSlices(a, b, n);
      TokensConcat(a[n..], b);
      SeqAssoc([a[..n]], Tokens(a[n..]), Tokens(b));
    }
  }

  /** Solver aid: slicing a concatenation inside its first part. */
  lemma ConcatSlices(a: string, b: string, n: nat)
    requires n <= |a|
    ensures (a + b)[..n] == a[..n] && (a + b)[n..] == a[n..] + b
  {
  }

  /** Solver aid: regrouping a concatenation, which the solver does poorly inside larger goals. */
  lemma SeqAssoc<T>(a: seq<T>, b: seq<T>, c: seq<T>)
    ensures a + (b + c) == (a + b) + c
  {
  }

  /** A token followed by one whitespace character reads back as that single token. */
  lemma TokenThenSpace(t: string, c: char)
    requires IsToken(t) && IsWhitespace(c)
    ensures Tokens(t + [c]) == [t]
  {
    var s := t + [c];
    RunLengthOfToken(t, c);
    assert s[..|t|] == t;
    assert s[|t|..] == [c];
    assert Tokens([c]) == Tokens([]);
  }

  /** A token followed by whitespace is read on its own, before whatever follows. */
  lemma TokenThen(t: string, c: char, rest: string)
    requires IsToken(t) && IsWhitespace(c)
    ensures Tokens(t + [c] + rest) == [t] + Tokens(rest)
  {
    TokensConcat(t + [c], rest);
    TokenThenSpace(t, c);
  }

  /** Three tokens, each followed by whitespace, are read in order. */
  lemma ThreeTokens(a: string, b: string, d: string, c1: char, c2: char, c3: char, rest: string)
    requires IsToken(a) && IsToken(b) && IsToken(d)
    requires IsWhitespace(c1) && IsWhitespace(c2) && IsWhitespace(c3)
    ensures Tokens(a + [c1] + b + [c2] + d + [c3] + rest) == [a, b, d] + Tokens(rest)
  {
    var third := d + [c3] + rest;
    var second := b + [c2] + third;
    Regroup(a, b, d, c1, c2, c3, rest);
    TokenThen(d, c3, rest);
    TokenThen(b, c2, third);
    TokenThen(a, c1, second);
  }

  /** Solver aid: regrouping the header text into the nesting ThreeTokens reads it in. */
  lemma Regroup(a: string, b: string, d: string, c1: char, c2: char, c3: char, rest: string)
    ensures a + [c1] + b + [c2] + d + [c3] + rest == a + [c1] + (b + [c2] + (d + [c3] + rest))
  {
  }

  lemma {:induction false} RunLengthOfToken(t: string, c: char)
    requires IsToken(t) && IsWhitespace(c)
    ensures RunLength(t + [c]) == |t|
    decreases |t|
  {
    assert (t + [c])[1..] == if |t| == 1 then [c] else t[1..] + [c];
    if |t| > 1 {
      RunLengthOfToken(t[1..], c);
    }
  }

  // ---------------------------------------------------------------- integers

  predicate IsDigit(c: char) {
    '0' <= c <= '9'
  }

  predicate AllDigits(s: string) {
    forall i :: 0 <= i < |s| ==> IsDigit(s[i])
  }

  function DigitValue(c: char): nat
    requires IsDigit(c)
  {
    c as int - '0' as int
  }

  function DigitChar(d: nat): (c: char)
    requires d < 10
    ensures IsDigit(c) && DigitValue(c) == d
  {
    ('0' as int + d) as char
  }

  /** The value of a string of decimal digits, most significant first. */
  function DigitsValue(s: string): nat
    requires AllDigits(s)
  {
    if s == [] then 0 else 10 * DigitsValue(s[..|s| - 1]) + DigitValue(s[|s| - 1])
  }

  /** `hasNextInt`/`nextInt` on one token: an optional sign, then one or more decimal digits,
      with a value that fits a Java int. */
  function ParseInt(t: string): (r: Option<Int32>)
    ensures r.Some? ==> |t| > 0 && (AllDigits(t) || (t[0] in "+-" && |t| > 1 && AllDigits(t[1..])))
  {
    var signed := |t| > 0 && (t[0] == '-' || t[0] == '+');
    var digits := if signed then t[1..] else t;
    if |digits| == 0 || !AllDigits(digits) then None
    else
      var magnitude: int := DigitsValue(digits);
      var v := if signed && t[0] == '-' then -magnitude else magnitude;
      if INT_MIN <= v <= INT_MAX then Some(v) else None
  }

  /** The tokens as `hasNextInt`/`nextInt` see them: each one an int or not one. */
  function ScanInts(toks: seq<string>): (vs: seq<Option<Int32>>)
    ensures |vs| == |toks|
  {
    seq(|toks|, i requires 0 <= i < |toks| => ParseInt(toks[i]))
  }

  lemma ScanIntsAppend(a: seq<string>, b: seq<string>)
    ensures ScanInts(a + b) == ScanInts(a) + ScanInts(b)
  {
  }

  /** `Integer.toString` of a non-negative int. */
  function NatToString(n: nat): string {
    if n < 10 then [DigitChar(n)] else NatToString(n / 10) + [DigitChar(n % 10)]
  }

  lemma {:induction false} NatToStringDigits(n: nat)
    ensures |NatToString(n)| > 0 && AllDigits(NatToString(n))
    ensures DigitsValue(NatToString(n)) == n
  {
    if n >= 10 {
      NatToStringDigits(n / 10);
      var s := NatToString(n);
      assert s[..|s| - 1] == NatToString(n / 10);
    }
  }

  /** A printed non-negative int is one token and reads back as the same int. */
  lemma NatToStringParses(n: nat)
    requires n <= INT_MAX
    ensures IsToken(NatToString(n))
    ensures ParseInt(NatToString(n)) == Some(n)
  {
    NatToStringDigits(n);
  }
}
