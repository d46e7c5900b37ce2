/** The string operations the script relies on: Python's `str.strip()`,
    `str.split(sep)`, `sep.join(xs)`, `str.startswith(p)` and the `{n:02}`
    format, on strings as sequences of Unicode characters. */
module Text {

  /** Python's `str.isspace()` for one character: the ASCII controls
      TAB..CR and FS..US, the space, NEL, NBSP and the Unicode space
      separators (including the ideographic space U+3000). */
  predicate IsSpace(c: char)
  {
    || ('\t' <= c <= '\r') || ('\U{1C}' <= c <= '\U{1F}') || c == ' '
    || c == '\U{85}' || c == '\U{A0}' || c == '\U{1680}'
    || ('\U{2000}' <= c <= '\U{200A}') || c == '\U{2028}' || c == '\U{2029}'
    || c == '\U{202F}' || c == '\U{205F}' || c == '\U{3000}'
  }

  predicate AllSpace(s: string)
  {
    forall i :: 0 <= i < |s| ==> IsSpace(s[i])
  }

  /** The number of whitespace characters `s` starts with. */
  function LeadingSpaces(s: string): (n: nat)
    ensures n <= |s|
    ensures n < |s| ==> !IsSpace(s[n])
  {
    if |s| > 0 && IsSpace(s[0]) then 1 + LeadingSpaces(s[1..]) else 0
  }

  /** The number of whitespace characters `s` ends with. */
  function TrailingSpaces(s: string): (n: nat)
    ensures n <= |s|
    ensures n < |s| ==> !IsSpace(s[|s| - 1 - n])
  {
    if |s| > 0 && IsSpace(s[|s| - 1]) then 1 + TrailingSpaces(s[..|s| - 1]) else 0
  }

  lemma {:induction false} LeadingAreSpaces(s: string)
    ensures forall j :: 0 <= j < LeadingSpaces(s) ==> IsSpace(s[j])
  {
    if |s| > 0 && IsSpace(s[0]) {
      LeadingAreSpaces(s[1..]);
      assert forall j :: 1 <= j < LeadingSpaces(s) ==> s[j] == s[1..][j - 1];
    }
  }

  lemma {:induction false} TrailingAreSpaces(s: string)
    ensures forall j :: |s| - TrailingSpaces(s) <= j < |s| ==> IsSpace(s[j])
  {
    if |s| > 0 && IsSpace(s[|s| - 1]) {
      TrailingAreSpaces(s[..|s| - 1]);
    }
  }

  /** An all-whitespace string is all leading whitespace. */
  lemma {:induction false} AllLeading(s: string)
    requires AllSpace(s)
    ensures LeadingSpaces(s) == |s|
  {
    if s != [] {
      AllLeading(s[1..]);
    }
  }

  /** Where the stripped text starts in `s`. */
  function StripStart(s: string): (i: nat)
    ensures i <= |s|
  {
    LeadingSpaces(s)
  }

  /** Neither starts nor ends with whitespace. */
  predicate Trimmed(r: string)
  {
    r == [] || (!IsSpace(r[0]) && !IsSpace(r[|r| - 1]))
  }

  /** Python's `s.strip()`: a slice of `s` that neither starts nor ends with
      whitespace (`StripSpaces` adds that only whitespace was cut away). */
  function Strip(s: string): (r: string)
    ensures StripStart(s) + |r| <= |s|
    ensures r == s[StripStart(s)..StripStart(s) + |r|]
    ensures Trimmed(r)
  {
    var a := LeadingSpaces(s);
    var b := TrailingSpaces(s[a..]);
    var r := s[a..|s| - b];
    assert r != [] ==> r[|r| - 1] == s[a..][|s| - a - 1 - b];
    r
  }

  /** What `Strip` cuts away on either side is whitespace. */
  lemma StripSpaces(s: string)
    ensures AllSpace(s[..StripStart(s)])
    ensures AllSpace(s[StripStart(s) + |Strip(s)|..])
  {
    LeadingCut(s);
    TrailingCut(s);
  }

  lemma LeadingCut(s: string)
    ensures AllSpace(s[..StripStart(s)])
  {
    var a := LeadingSpaces(s);
    LeadingAreSpaces(s);
    assert forall j :: 0 <= j < a ==> s[..a][j] == s[j];
  }

  lemma TrailingCut(s: string)
    ensures AllSpace(s[StripStart(s) + |Strip(s)|..])
  {
    var a := LeadingSpaces(s);
    var t := s[a..];
    var n := TrailingSpaces(t);
    TrailingAreSpaces(t);
    var e := a + |Strip(s)|;
    assert e == a + |t| - n;
    forall j | 0 <= j < |s| - e
      ensures IsSpace(s[e..][j])
    {
      assert s[e..][j] == t[|t| - n + j];
    }
  }

  /** Stripping never introduces a character. */
  lemma StripKeeps(s: string, c: char)
    requires c !in s
    ensures c !in Strip(s)
  {
    SliceExcludes(s, StripStart(s), StripStart(s) + |Strip(s)|, c);
  }

  lemma SliceExcludes(s: string, a: nat, b: nat, c: char)
    requires a <= b <= |s| && c !in s
    ensures c !in s[a..b]
  {
  }

  /** A string that is already stripped is left as it is. */
  lemma StripTrimmed(s: string)
    requires Trimmed(s)
    ensures Strip(s) == s
  {
    assert s[0..] == s;
  }

  /** Stripping leaves nothing exactly when `s` is all whitespace. */
  lemma StripEmpty(s: string)
    ensures Strip(s) == [] <==> AllSpace(s)
  {
    if Strip(s) == [] {
      NothingLeftAllSpace(s);
    }
    if AllSpace(s) {
      AllLeading(s);
    }
  }

  lemma NothingLeftAllSpace(s: string)
    requires Strip(s) == []
    ensures AllSpace(s)
  {
    var i := StripStart(s);
    StripSpaces(s);
    assert forall j :: 0 <= j < i ==> s[j] == s[..i][j];
  }

  /** Stripping twice is stripping once. */
  lemma StripIdempotent(s: string)
    ensures Strip(Strip(s)) == Strip(s)
  {
    StripTrimmed(Strip(s));
  }

  /** Python's `s.split(c)` for a one-character separator: the pieces between
      consecutive occurrences of `c`, so always one more piece than there
      are separators. */
  function Split(s: string, c: char): (r: seq<string>)
    ensures |r| >= 1
    ensures forall i :: 0 <= i < |r| ==> c !in r[i]
    ensures Join(r, c) == s
  {
    if s == [] then [""]
    else
      var rest := Split(s[1..], c);
      if s[0] == c then
        JoinEmptyHead(rest, c);
        assert [c] + Join(rest, c) == s;
        [""] + rest
      else
        JoinExtendsHead(s[0], rest, c);
        assert s == [s[0]] + s[1..];
        [[s[0]] + rest[0]] + rest[1..]
  }

  /** Extending the first piece extends the joined text at its front. */
  lemma JoinExtendsHead(x: char, xs: seq<string>, c: char)
    requires |xs| >= 1
    ensures Join([[x] + xs[0]] + xs[1..], c) == [x] + Join(xs, c)
  {
    var ys := [[x] + xs[0]] + xs[1..];
    assert ys[1..] == xs[1..];
  }

  lemma JoinEmptyHead(xs: seq<string>, c: char)
    requires |xs| >= 1
    ensures Join([""] + xs, c) == [c] + Join(xs, c)
  {
    assert ([""] + xs)[1..] == xs;
  }

  /** Python's `c.join(xs)`. */
  function Join(xs: seq<string>, c: char): string
  {
    if |xs| == 0 then ""
    else if |xs| == 1 then xs[0]
    else xs[0] + [c] + Join(xs[1..], c)
  }

  lemma {:induction false} SplitNoSeparator(s: string, c: char)
    requires c !in s
    ensures Split(s, c) == [s]
  {
    if s != [] {
      SplitNoSeparator(s[1..], c);
    }
  }

  lemma {:induction false} SplitAfterPiece(a: string, c: char, rest: string)
    requires c !in a
    ensures Split(a + [c] + rest, c) == [a] + Split(rest, c)
  {
    if a == [] {
      assert ([c] + rest)[1..] == rest;
    } else {
      assert (a + [c] + rest)[1..] == a[1..] + [c] + rest;
      SplitAfterPiece(a[1..], c, rest);
      assert [a[0]] + a[1..] == a;
    }
  }

  /** Splitting a joined text gives back the pieces, provided none of them
      contains the separator (and there is at least one piece: joining no
      pieces gives the empty text, which splits into one empty piece). */
  lemma {:induction false} SplitJoin(xs: seq<string>, c: char)
    requires |xs| >= 1
    requires forall i :: 0 <= i < |xs| ==> c !in xs[i]
    ensures Split(Join(xs, c), c) == xs
  {
    if |xs| == 1 {
      SplitNoSeparator(xs[0], c);
    } else {
      SplitJoin(xs[1..], c);
      SplitAfterPiece(xs[0], c, Join(xs[1..], c));
      assert xs == [xs[0]] + xs[1..];
    }
  }

  /** Python's `s.startswith(p)`. */
  predicate StartsWith(s: string, p: string)
  {
    |p| <= |s| && s[..|p|] == p
  }

  /** The decimal digit character for `d`. */
  function Digit(d: nat): (c: char)
    requires d < 10
    ensures '0' <= c <= '9'
  {
    (d + '0' as int) as char
  }

  /** The decimal form of a non-negative integer, without leading zeros. */
  function Decimal(n: nat): (r: string)
    ensures 1 <= |r|
    ensures forall i :: 0 <= i < |r| ==> '0' <= r[i] <= '9'
    ensures |r| == 1 <==> n < 10
    ensures n < 100 ==> |r| <= 2
  {
    if n < 10 then [Digit(n)] else Decimal(n / 10) + [Digit(n % 10)]
  }

  /** Reads a string of decimal digits; leading zeros are allowed. */
  function ParseDecimal(s: string): nat
    requires forall i :: 0 <= i < |s| ==> '0' <= s[i] <= '9'
  {
    if s == [] then 0
    else ParseDecimal(s[..|s| - 1]) * 10 + (s[|s| - 1] as int - '0' as int)
  }

  /** The decimal form of `n`, left-padded with a zero to at least two
      characters. */
  function Pad2(n: nat): (r: string)
    ensures forall i :: 0 <= i < |r| ==> '0' <= r[i] <= '9'
    ensures 1 <= n <= 99 ==> |r| == 2
    ensures ParseDecimal(r) == n
  {
    var d := Decimal(n);
    DecimalRoundTrip(n);
    if |d| < 2 then
      LeadingZero(d);
      "0" + d
    else d
  }

  lemma {:induction false} DecimalRoundTrip(n: nat)
    ensures ParseDecimal(Decimal(n)) == n
  {
    if n >= 10 {
      DecimalRoundTrip(n / 10);
      var d := Decimal(n);
      assert d[..|d| - 1] == Decimal(n / 10);
    }
  }

  lemma {:induction false} LeadingZero(s: string)
    requires forall i :: 0 <= i < |s| ==> '0' <= s[i] <= '9'
    ensures ParseDecimal("0" + s) == ParseDecimal(s)
  {
    if s != [] {
      LeadingZero(s[..|s| - 1]);
      assert ("0" + s)[..|s|] == "0" + s[..|s| - 1];
    }
  }

  /** Distinct positions get distinct labels. */
  lemma Pad2Injective(m: nat, n: nat)
    requires Pad2(m) == Pad2(n)
    ensures m == n
  {
  }
}
