/**
 * String operations with the meaning Python gives them: `str.strip()`,
 * `str.split()`, `str.lower()` on ASCII letters, `str(n)` for a natural number,
 * the `<` order on `str`, the `sub in s` test and `sep.join(parts)`.
 */
module Text {

  // ---------------------------------------------------------------------------
  // Whitespace, strip and split
  // ---------------------------------------------------------------------------

  /** Python's `str.isspace()` on one character: the characters `strip()` removes. */
  predicate IsWhitespace(c: char) {
    var n := c as int;
    n == 0x20 || 0x09 <= n <= 0x0D || 0x1C <= n <= 0x1F || n == 0x85 || n == 0xA0
    || n == 0x1680 || 0x2000 <= n <= 0x200A || n == 0x2028 || n == 0x2029
    || n == 0x202F || n == 0x205F || n == 0x3000
  }

  predicate AllWhitespace(s: string) {
    forall i :: 0 <= i < |s| ==> IsWhitespace(s[i])
  }

  predicate NoWhitespace(s: string) {
    forall i :: 0 <= i < |s| ==> !IsWhitespace(s[i])
  }

  /** `s.lstrip()`: the suffix of `s` left after its leading whitespace. */
  function TrimStart(s: string): (r: string)
    ensures |r| <= |s|
  {
    if s != [] && IsWhitespace(s[0]) then TrimStart(s[1..]) else s
  }

  lemma {:induction false} TrimStartShape(s: string)
    ensures var r := TrimStart(s);
      && r == s[|s| - |r|..]
      && AllWhitespace(s[..|s| - |r|])
      && (r == [] || !IsWhitespace(r[0]))
  {
    if s != [] && IsWhitespace(s[0]) {
      TrimStartShape(s[1..]);
    }
  }

  /** `s.rstrip()`: the prefix of `s` left after its trailing whitespace. */
  function TrimEnd(s: string): (r: string)
    ensures |r| <= |s|
  {
    if s != [] && IsWhitespace(s[|s| - 1]) then TrimEnd(s[..|s| - 1]) else s
  }

  lemma {:induction false} TrimEndShape(s: string)
    ensures var r := TrimEnd(s);
      && r == s[..|r|]
      && AllWhitespace(s[|r|..])
      && (r == [] || !IsWhitespace(r[|r| - 1]))
  {
    if s != [] && IsWhitespace(s[|s| - 1]) {
      var t := s[..|s| - 1];
      TrimEndShape(t);
      var r := TrimEnd(t);
      assert s[..|r|] == t[..|r|];
      assert s[|r|..] == t[|r|..] + [s[|s| - 1]];
    }
  }

  /** Number of leading whitespace characters of `s`. */
  function LeadingWhitespace(s: string): (n: nat)
    ensures n <= |s|
  {
    |s| - |TrimStart(s)|
  }

  /** `s.strip()`: `s` without its leading and trailing whitespace. */
  function Strip(s: string): string {
    TrimEnd(TrimStart(s))
  }

  /**
   * `Strip` returns the slice of `s` that starts after the leading whitespace;
   * everything around it is whitespace, it neither starts nor ends with
   * whitespace, and it is empty exactly when `s` is blank.
   */
  lemma {:induction false} StripShape(s: string)
    ensures var r := Strip(s);
      && LeadingWhitespace(s) + |r| <= |s|
      && r == s[LeadingWhitespace(s)..LeadingWhitespace(s) + |r|]
      && AllWhitespace(s[..LeadingWhitespace(s)]) && AllWhitespace(s[LeadingWhitespace(s) + |r|..])
      && (r == [] || (!IsWhitespace(r[0]) && !IsWhitespace(r[|r| - 1])))
      && (r == [] <==> AllWhitespace(s))
  {
    var t := TrimStart(s);
    var r := TrimEnd(t);
    var k := LeadingWhitespace(s);
    TrimStartShape(s);
    TrimEndShape(t);
    assert s[k..] == t;
    assert s[k..][..|r|] == s[k..k + |r|];
    assert s[k + |r|..] == t[|r|..];
    StripEmptyIffBlank(s);
  }

  lemma StripEmptyIffBlank(s: string)
    ensures Strip(s) == [] <==> AllWhitespace(s)
  {
    var t := TrimStart(s);
    var r := TrimEnd(t);
    if r == [] {
      BlankWhenStripEmpty(s);
    } else {
      TrimStartShape(s);
      TrimEndShape(t);
      var k := LeadingWhitespace(s);
      assert s[k..] == t;
      assert s[k] == r[0];
    }
  }

  lemma {:induction false} BlankWhenStripEmpty(s: string)
    requires TrimEnd(TrimStart(s)) == []
    ensures AllWhitespace(s)
  {
    var t := TrimStart(s);
    TrimStartShape(s);
    TrimEndShape(t);
    assert t[0..] == t;
    assert t == [];
    assert s[..|s|] == s;
  }

  /** The first word of `s`: its longest prefix without whitespace. */
  function TakeWord(s: string): (w: string)
    ensures w <= s && NoWhitespace(w)
    ensures |w| == |s| || IsWhitespace(s[|w|])
  {
    if s == [] || IsWhitespace(s[0]) then [] else [s[0]] + TakeWord(s[1..])
  }

  /** Python's `s.split()`: the maximal runs of non-whitespace characters, in order. */
  function Words(s: string): (ws: seq<string>)
    ensures forall i :: 0 <= i < |ws| ==> ws[i] != [] && NoWhitespace(ws[i])
    decreases |s|
  {
    var t := TrimStart(s);
    TrimStartShape(s);
    if t == [] then [] else
      var w := TakeWord(t);
      assert w != [] by { assert !IsWhitespace(t[0]); }
      [w] + Words(t[|w|..])
  }

  /** `s.lower()` restricted to the ASCII letters `A`-`Z`. */
  function LowerAscii(s: string): (r: string)
    ensures |r| == |s|
    ensures forall i :: 0 <= i < |s| ==> r[i] == (if 'A' <= s[i] <= 'Z' then (s[i] as int + 32) as char else s[i])
  {
    if s == [] then []
    else [if 'A' <= s[0] <= 'Z' then (s[0] as int + 32) as char else s[0]] + LowerAscii(s[1..])
  }

  // ---------------------------------------------------------------------------
  // Decimal numerals
  // ---------------------------------------------------------------------------

  predicate IsDigit(c: char) {
    '0' <= c <= '9'
  }

  predicate AllDigits(s: string) {
    forall i :: 0 <= i < |s| ==> IsDigit(s[i])
  }

  function DigitChar(d: nat): (c: char)
    requires d < 10
    ensures IsDigit(c) && c as int - '0' as int == d
  {
    ('0' as int + d) as char
  }

  function DigitValue(c: char): (d: nat)
    requires IsDigit(c)
    ensures d < 10
  {
    c as int - '0' as int
  }

  function Pow10(k: nat): (p: nat)
    ensures p >= 1
  {
    if k == 0 then 1 else 10 * Pow10(k - 1)
  }

  /** Python's `str(n)` for a natural number: its shortest decimal numeral. */
  function NatToDecimal(n: nat): (r: string)
    ensures |r| >= 1 && AllDigits(r)
    decreases n
  {
    if n < 10 then [DigitChar(n)] else NatToDecimal(n / 10) + [DigitChar(n % 10)]
  }

  /** The number a string of decimal digits denotes (most significant digit first). */
  function DecimalValue(s: string): (v: nat)
    requires AllDigits(s)
    decreases |s|
  {
    if s == [] then 0 else DecimalValue(s[..|s| - 1]) * 10 + DigitValue(s[|s| - 1])
  }

  /** A `width`-digit, zero-padded numeral, as strftime writes `%Y`, `%m`, `%d`, `%H`, `%M`, `%S`. */
  function ZeroPadded(n: nat, width: nat): (r: string)
    requires n < Pow10(width)
    ensures |r| == width && AllDigits(r) && DecimalValue(r) == n
  {
    if width == 0 then []
    else
      var r := ZeroPadded(n / 10, width - 1) + [DigitChar(n % 10)];
      assert r[..|r| - 1] == ZeroPadded(n / 10, width - 1);
      r
  }

  /** Reading back the numeral `str(n)` gives `n`. */
  lemma {:induction false} DecimalRoundTrip(n: nat)
    ensures DecimalValue(NatToDecimal(n)) == n
  {
    if n >= 10 {
      DecimalRoundTrip(n / 10);
      var s := NatToDecimal(n);
      assert s[..|s| - 1] == NatToDecimal(n / 10);
    }
  }

  /** Distinct numbers have distinct numerals. */
  lemma NatToDecimalInjective(m: nat, n: nat)
    requires NatToDecimal(m) == NatToDecimal(n)
    ensures m == n
  {
    DecimalRoundTrip(m);
    DecimalRoundTrip(n);
  }

  /** The value of a numeral is below 10 to the power of its length. */
  lemma {:induction false} DecimalValueBound(s: string)
    requires AllDigits(s)
    ensures DecimalValue(s) < Pow10(|s|)
  {
    if s != [] {
      DecimalValueBound(s[..|s| - 1]);
    }
  }

  /** The value of a concatenation of numerals. */
  lemma {:induction false} DecimalValueConcat(a: string, b: string)
    requires AllDigits(a) && AllDigits(b)
    ensures AllDigits(a + b)
    ensures DecimalValue(a + b) == DecimalValue(a) * Pow10(|b|) + DecimalValue(b)
  {
    if b != [] {
      var b' := b[..|b| - 1];
      assert (a + b)[..|a + b| - 1] == a + b';
      DecimalValueConcat(a, b');
      var x, p, y, d := DecimalValue(a), Pow10(|b'|), DecimalValue(b'), DigitValue(b[|b| - 1]);
      assert (a + b)[|a + b| - 1] == b[|b| - 1];
      assert DecimalValue(a + b) == DecimalValue(a + b') * 10 + d;
      assert DecimalValue(b) == y * 10 + d;
      assert Pow10(|b|) == p * 10;
      ShiftDigit(x, p, y, d);
    } else {
      assert a + b == a;
    }
  }

  lemma ShiftDigit(x: int, p: int, y: int, d: int)
    ensures (x * p + y) * 10 + d == x * (p * 10) + (y * 10 + d)
  {
  }

  // ---------------------------------------------------------------------------
  // String order, substring test, join
  // ---------------------------------------------------------------------------

  /** Python's `a < b` on `str`: code-point lexicographic order, a proper prefix sorts first. */
  predicate LexLess(a: string, b: string)
    decreases |a|
  {
    if a == [] then b != []
    else b != [] && (a[0] < b[0] || (a[0] == b[0] && LexLess(a[1..], b[1..])))
  }

  lemma {:induction false} LexLessIrreflexive(a: string)
    ensures !LexLess(a, a)
  {
    if a != [] {
      LexLessIrreflexive(a[1..]);
    }
  }

  lemma {:induction false} LexLessTransitive(a: string, b: string, c: string)
    requires LexLess(a, b) && LexLess(b, c)
    ensures LexLess(a, c)
  {
    if a != [] && a[0] == b[0] && b[0] == c[0] {
      LexLessTransitive(a[1..], b[1..], c[1..]);
    }
  }

  lemma {:induction false} LexLessTotal(a: string, b: string)
    requires a != b
    ensures LexLess(a, b) || LexLess(b, a)
  {
    if a != [] && b != [] && a[0] == b[0] {
      assert a == [a[0]] + a[1..] && b == [b[0]] + b[1..];
      LexLessTotal(a[1..], b[1..]);
    }
  }

  lemma {:induction false} LexLessAsymmetric(a: string, b: string)
    requires LexLess(a, b)
    ensures !LexLess(b, a)
  {
    if a != [] && a[0] == b[0] {
      LexLessAsymmetric(a[1..], b[1..]);
    }
  }

  /** Strings that agree before position `p` and differ there are ordered by that character. */
  lemma {:induction false} LexLessAtFirstDifference(a: string, b: string, p: nat)
    requires p < |a| && p < |b| && a[..p] == b[..p] && a[p] < b[p]
    ensures LexLess(a, b)
  {
    if p > 0 {
      assert a[1..][..p - 1] == a[..p][1..] && b[1..][..p - 1] == b[..p][1..];
      LexLessAtFirstDifference(a[1..], b[1..], p - 1);
    }
  }

  /** Python's `sub in s`: `sub` occurs in `s` as a contiguous substring. */
  predicate Contains(s: string, sub: string)
    decreases |s|
  {
    sub <= s || (s != [] && Contains(s[1..], sub))
  }

  /** Python's `sep.join(parts)`. */
  function Join(sep: string, parts: seq<string>): string
    decreases |parts|
  {
    if parts == [] then "" else if |parts| == 1 then parts[0] else parts[0] + sep + Join(sep, parts[1..])
  }

  /** Concatenation of all parts, Python's `"".join(parts)`. */
  function Concat(parts: seq<string>): (r: string)
    ensures |r| == TotalLength(parts)
  {
    if parts == [] then "" else Concat(parts[..|parts| - 1]) + parts[|parts| - 1]
  }

  function TotalLength(parts: seq<string>): nat {
    if parts == [] then 0 else TotalLength(parts[..|parts| - 1]) + |parts[|parts| - 1]|
  }

  /** Appending a part to a non-empty join adds one separator and the part. */
  lemma {:induction false} JoinAppend(sep: string, parts: seq<string>, x: string)
    requires parts != []
    ensures Join(sep, parts + [x]) == Join(sep, parts) + sep + x
    decreases |parts|
  {
    if |parts| > 1 {
      assert (parts + [x])[1..] == parts[1..] + [x];
      JoinAppend(sep, parts[1..], x);
    }
  }

  /** Joining words by single spaces and splitting on whitespace gives the words back. */
  lemma {:induction false} WordsOfJoin(ws: seq<string>)
    requires forall i :: 0 <= i < |ws| ==> ws[i] != [] && NoWhitespace(ws[i])
    ensures Words(Join(" ", ws)) == ws
    decreases |ws|
  {
    if ws == [] {
    } else if |ws| == 1 {
      WordsOfWord(ws[0], []);
      assert ws[0] + [] == ws[0];
    } else {
      WordsOfJoin(ws[1..]);
      WordsOfJoinStep(ws);
    }
  }

  /** The first word splits off a join whose remainder already splits back. */
  lemma WordsOfJoinStep(ws: seq<string>)
    requires |ws| > 1 && forall i :: 0 <= i < |ws| ==> ws[i] != [] && NoWhitespace(ws[i])
    requires Words(Join(" ", ws[1..])) == ws[1..]
    ensures Words(Join(" ", ws)) == ws
  {
    var rest := Join(" ", ws[1..]);
    JoinStartsWithWord(ws[1..]);
    JoinCons(" ", ws);
    WordsOfWord(ws[0], " " + rest);
    WordsAfterSpace(rest);
    assert [ws[0]] + ws[1..] == ws;
  }

  lemma JoinCons(sep: string, ws: seq<string>)
    requires |ws| > 1
    ensures Join(sep, ws) == ws[0] + (sep + Join(sep, ws[1..]))
  {
  }

  lemma {:induction false} WordsAfterSpace(rest: string)
    requires rest != [] && !IsWhitespace(rest[0])
    ensures Words(" " + rest) == Words(rest)
  {
    assert (" " + rest)[1..] == rest;
    assert TrimStart(" " + rest) == TrimStart(rest);
  }

  lemma {:induction false} JoinStartsWithWord(ws: seq<string>)
    requires ws != [] && forall i :: 0 <= i < |ws| ==> ws[i] != [] && NoWhitespace(ws[i])
    ensures Join(" ", ws) != [] && Join(" ", ws)[0] == ws[0][0]
  {
  }

  /** A word followed by text that is empty or starts with whitespace is split off whole. */
  lemma {:induction false} WordsOfWord(w: string, tail: string)
    requires w != [] && NoWhitespace(w)
    requires tail == [] || IsWhitespace(tail[0])
    ensures Words(w + tail) == [w] + Words(tail)
  {
    TakeWordOf(w, tail);
    assert TrimStart(w + tail) == w + tail;
    assert (w + tail)[|w|..] == tail;
  }

  lemma {:induction false} TakeWordOf(w: string, tail: string)
    requires NoWhitespace(w)
    requires tail == [] || IsWhitespace(tail[0])
    ensures TakeWord(w + tail) == w
    decreases |w|
  {
    if w != [] {
      assert (w + tail)[1..] == w[1..] + tail;
      TakeWordOf(w[1..], tail);
    } else {
      assert w + tail == tail;
    }
  }
}
