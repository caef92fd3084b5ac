/**
 * Character classes and string operations that the two runtimes (JavaScript
 * and Python) apply to questions, answers, ids and prompts.
 */
module Text {

  /** JavaScript's WhiteSpace and LineTerminator characters: what `trim()` removes and what `\s` matches. */
  predicate IsJsSpace(c: char) {
    var n := c as int;
    (0x09 <= n <= 0x0D) || n == 0x20 || n == 0xA0 || n == 0x1680 || (0x2000 <= n <= 0x200A)
    || n == 0x2028 || n == 0x2029 || n == 0x202F || n == 0x205F || n == 0x3000 || n == 0xFEFF
  }

  /** Python's `str.isspace()` characters: what `str.strip()` with no argument removes. */
  predicate IsPySpace(c: char) {
    var n := c as int;
    (0x09 <= n <= 0x0D) || (0x1C <= n <= 0x20) || n == 0x85 || n == 0xA0 || n == 0x1680
    || (0x2000 <= n <= 0x200A) || n == 0x2028 || n == 0x2029 || n == 0x202F || n == 0x205F || n == 0x3000
  }

  /** Characters that a regular-expression `.` does not match in JavaScript. */
  predicate IsLineTerminator(c: char) {
    c == '\n' || c == '\r' || c as int == 0x2028 || c as int == 0x2029
  }

  /** Characters that a regular-expression `.` matches. */
  predicate IsLineChar(c: char) {
    !IsLineTerminator(c)
  }

  /** The class `\d` of a JavaScript regular expression. */
  predicate IsDigit(c: char) {
    '0' <= c <= '9'
  }

  predicate AllDigits(s: string) {
    forall k :: 0 <= k < |s| ==> IsDigit(s[k])
  }

  predicate AllSatisfy(s: string, p: char -> bool) {
    forall k :: 0 <= k < |s| ==> p(s[k])
  }

  // ---------------------------------------------------------------------------
  // Maximal runs

  /** The end of the longest run of `p`-characters of `s` that starts at `i`. */
  function SpanWhile(s: string, i: nat, p: char -> bool): (e: nat)
    requires i <= |s|
    ensures i <= e <= |s|
    ensures forall k :: i <= k < e ==> p(s[k])
    ensures e < |s| ==> !p(s[e])
    decreases |s| - i
  {
    if i == |s| || !p(s[i]) then i else SpanWhile(s, i + 1, p)
  }

  /** The start of the longest run of `p`-characters of `s` that ends at `j` and stays at or after `lo`. */
  function SpanBackWhile(s: string, lo: nat, j: nat, p: char -> bool): (b: nat)
    requires lo <= j <= |s|
    ensures lo <= b <= j
    ensures forall k :: b <= k < j ==> p(s[k])
    ensures lo < b ==> !p(s[b - 1])
    decreases j - lo
  {
    if j == lo || !p(s[j - 1]) then j else SpanBackWhile(s, lo, j - 1, p)
  }

  // ---------------------------------------------------------------------------
  // Trimming

  /** The characters outside `[i, j)` are all white space and, unless empty, `s[i..j]` starts and ends with a non-space. */
  predicate IsTrimWindow(s: string, ws: char -> bool, i: nat, j: nat) {
    i <= j <= |s|
    && AllSatisfy(s[..i], ws)
    && AllSatisfy(s[j..], ws)
    && (i < j ==> !ws(s[i]) && !ws(s[j - 1]))
  }

  function TrimBounds(s: string, ws: char -> bool): (b: (nat, nat))
    ensures IsTrimWindow(s, ws, b.0, b.1)
  {
    var i := SpanWhile(s, 0, ws);
    (i, SpanBackWhile(s, i, |s|, ws))
  }

  /** `s` without its leading and trailing `ws`-characters. */
  function Trim(s: string, ws: char -> bool): string {
    var b := TrimBounds(s, ws);
    s[b.0..b.1]
  }

  /** JavaScript's `String.prototype.trim`: a slice of `s` with only white space around it, and none at its ends. */
  function JsTrim(s: string): (r: string)
    ensures exists i: nat, j: nat :: IsTrimWindow(s, IsJsSpace, i, j) && r == s[i..j]
  {
    Trim(s, IsJsSpace)
  }

  /** Python's `str.strip()`: a slice of `s` with only white space around it, and none at its ends. */
  function PyStrip(s: string): (r: string)
    ensures exists i: nat, j: nat :: IsTrimWindow(s, IsPySpace, i, j) && r == s[i..j]
  {
    Trim(s, IsPySpace)
  }

  /** Every trim window selects the same text: the trimmed string is determined by the characterisation. */
  lemma TrimWindowUnique(s: string, ws: char -> bool, i: nat, j: nat)
    requires IsTrimWindow(s, ws, i, j)
    ensures s[i..j] == Trim(s, ws)
  {
    var b := TrimBounds(s, ws);
    assert i < j <==> b.0 < b.1 by {
      if i < j {
        assert !ws(s[i]);
        assert s[i] !in s[..b.0] || i >= b.0;
      }
      if b.0 < b.1 {
        assert !ws(s[b.0]);
      }
    }
    if i < j {
      assert i == b.0 by {
        assert forall k :: 0 <= k < i ==> s[..i][k] == s[k];
        assert forall k :: 0 <= k < b.0 ==> s[..b.0][k] == s[k];
      }
      assert j == b.1 by {
        assert forall k :: j <= k < |s| ==> s[j..][k - j] == s[k];
        assert forall k :: b.1 <= k < |s| ==> s[b.1..][k - b.1] == s[k];
      }
    }
  }

  lemma AllSatisfyConcat(a: string, b: string, p: char -> bool)
    requires AllSatisfy(a, p) && AllSatisfy(b, p)
    ensures AllSatisfy(a + b, p)
  {
    assert forall k :: 0 <= k < |a| + |b| ==> (a + b)[k] == if k < |a| then a[k] else b[k - |a|];
  }

  /** Slices of `a + b + c` that start or end inside `b`. */
  lemma ConcatSlices(a: string, b: string, c: string, i: nat, j: nat)
    requires i <= j <= |b|
    ensures (a + b + c)[..|a| + i] == a + b[..i]
    ensures (a + b + c)[|a| + j..] == b[j..] + c
    ensures (a + b + c)[|a| + i..|a| + j] == b[i..j]
  {
    var t := a + b + c;
    assert t[..|a| + i] == a + b[..i] by {
      assert forall k :: 0 <= k < |a| + i ==> t[k] == (a + b[..i])[k];
    }
    assert t[|a| + j..] == b[j..] + c by {
      assert forall k :: 0 <= k < |t| - |a| - j ==> t[|a| + j + k] == (b[j..] + c)[k];
    }
    assert forall k :: |a| + i <= k < |a| + j ==> t[k] == b[k - |a|];
  }

  /** Trimming removes white space added on either side, and only that. */
  lemma TrimIgnoresPadding(pre: string, s: string, post: string, ws: char -> bool)
    requires AllSatisfy(pre, ws) && AllSatisfy(post, ws)
    ensures Trim(pre + s + post, ws) == Trim(s, ws)
  {
    var t := pre + s + post;
    var b := TrimBounds(s, ws);
    var i, j := |pre| + b.0, |pre| + b.1;
    ConcatSlices(pre, s, post, b.0, b.1);
    AllSatisfyConcat(pre, s[..b.0], ws);
    AllSatisfyConcat(s[b.1..], post, ws);
    if i < j {
      assert t[i] == s[b.0] && t[j - 1] == s[b.1 - 1];
    }
    assert IsTrimWindow(t, ws, i, j);
    TrimWindowUnique(t, ws, i, j);
  }

  /** Two strings with white space at the same positions have the same trim window. */
  lemma TrimWindowTransfer(s: string, t: string, ws: char -> bool)
    requires |s| == |t|
    requires forall k :: 0 <= k < |s| ==> ws(s[k]) == ws(t[k])
    ensures Trim(t, ws) == t[TrimBounds(s, ws).0..TrimBounds(s, ws).1]
  {
    var b := TrimBounds(s, ws);
    assert AllSatisfy(t[..b.0], ws) by {
      forall k | 0 <= k < b.0 ensures ws(t[..b.0][k]) {
        assert s[..b.0][k] == s[k];
      }
    }
    assert AllSatisfy(t[b.1..], ws) by {
      forall k | 0 <= k < |t| - b.1 ensures ws(t[b.1..][k]) {
        assert s[b.1..][k] == s[b.1 + k];
      }
    }
    TrimWindowUnique(t, ws, b.0, b.1);
  }

  /** Trimming twice is trimming once. */
  lemma TrimIdempotent(s: string, ws: char -> bool)
    ensures Trim(Trim(s, ws), ws) == Trim(s, ws)
  {
    var r := Trim(s, ws);
    assert r[..0] == [] && r[|r|..] == [];
    assert IsTrimWindow(r, ws, 0, |r|);
    TrimWindowUnique(r, ws, 0, |r|);
    assert r[0..|r|] == r;
  }

  // ---------------------------------------------------------------------------
  // Case folding (ASCII letters only)

  function AsciiLowerChar(c: char): char {
    if 'A' <= c <= 'Z' then (c as int + 32) as char else c
  }

  /** `toLowerCase()` restricted to the ASCII letters. */
  function AsciiLower(s: string): (r: string)
    ensures |r| == |s|
  {
    seq(|s|, k requires 0 <= k < |s| => AsciiLowerChar(s[k]))
  }

  function AsciiUpperChar(c: char): char {
    if 'a' <= c <= 'z' then (c as int - 32) as char else c
  }

  function AsciiUpper(s: string): (r: string)
    ensures |r| == |s|
  {
    seq(|s|, k requires 0 <= k < |s| => AsciiUpperChar(s[k]))
  }

  lemma LowerKeepsSpace(c: char)
    ensures IsJsSpace(AsciiLowerChar(c)) == IsJsSpace(c)
  {
  }

  /** Lowering and trimming commute: lowering changes no character's white-space status. */
  lemma LowerTrimCommute(s: string)
    ensures AsciiLower(JsTrim(s)) == JsTrim(AsciiLower(s))
  {
    var l := AsciiLower(s);
    LowerKeepsSpaces(s, l);
    TrimWindowTransfer(s, l, IsJsSpace);
    var b := TrimBounds(s, IsJsSpace);
    LowerSlice(s, l, b.0, b.1);
  }

  /** Lower-casing a slice is slicing the lower-cased text. */
  lemma LowerSlice(s: string, l: string, i: nat, j: nat)
    requires l == AsciiLower(s) && i <= j <= |s|
    ensures AsciiLower(s[i..j]) == l[i..j]
  {
    assert forall k :: 0 <= k < j - i ==> AsciiLower(s[i..j])[k] == l[i..j][k];
  }

  lemma LowerKeepsSpaces(s: string, l: string)
    requires l == AsciiLower(s)
    ensures |l| == |s| && forall k :: 0 <= k < |s| ==> IsJsSpace(s[k]) == IsJsSpace(l[k])
  {
    forall k | 0 <= k < |s| ensures IsJsSpace(s[k]) == IsJsSpace(l[k]) {
      LowerKeepsSpace(s[k]);
    }
  }

  /** Upper-casing first does not change what lowering gives. */
  lemma LowerOfUpper(s: string)
    ensures AsciiLower(AsciiUpper(s)) == AsciiLower(s)
  {
  }

  /** Text without upper-case ASCII letters is its own lower case. */
  lemma LowerOfLower(s: string)
    requires forall k :: 0 <= k < |s| ==> !('A' <= s[k] <= 'Z')
    ensures AsciiLower(s) == s
  {
  }

  // ---------------------------------------------------------------------------
  // Decimal numerals

  function DigitChar(d: nat): char
    requires d < 10
  {
    ('0' as int + d) as char
  }

  /** The shortest decimal numeral of `n`, as `String(n)` and `str(n)` write it. */
  function Decimal(n: nat): (r: string)
    ensures |r| > 0 && AllDigits(r)
    ensures r[0] == '0' <==> n == 0
  {
    if n < 10 then [DigitChar(n)] else Decimal(n / 10) + [DigitChar(n % 10)]
  }

  /** The value of a run of decimal digits, as `parseInt(s, 10)` reads it. */
  function DigitsValue(s: string): (r: nat)
    requires AllDigits(s)
    ensures r == 0 <==> forall k :: 0 <= k < |s| ==> s[k] == '0'
  {
    if |s| == 0 then 0 else DigitsValue(s[..|s| - 1]) * 10 + (s[|s| - 1] as int - '0' as int)
  }

  /** Reading a written numeral gives the number back. */
  lemma {:induction false} DecimalRoundTrip(n: nat)
    ensures DigitsValue(Decimal(n)) == n
  {
    var s := Decimal(n);
    if n >= 10 {
      assert s[..|s| - 1] == Decimal(n / 10);
      DecimalRoundTrip(n / 10);
    }
  }

  /** A numeral without a leading zero, other than "0" itself. */
  predicate Canonical(s: string) {
    |s| > 0 && AllDigits(s) && (s[0] == '0' ==> |s| == 1)
  }

  /** Writing the number a canonical numeral denotes gives the numeral back. */
  lemma {:induction false} NumeralRoundTrip(s: string)
    requires Canonical(s)
    ensures Decimal(DigitsValue(s)) == s
    decreases |s|
  {
    if |s| > 1 {
      var init := s[..|s| - 1];
      assert Canonical(init) by {
        assert init[0] == s[0];
      }
      NumeralRoundTrip(init);
      assert DigitsValue(init) != 0 by {
        assert init[0] != '0';
      }
      var n := DigitsValue(s);
      assert n / 10 == DigitsValue(init) && n % 10 == s[|s| - 1] as int - '0' as int;
      assert s == init + [s[|s| - 1]];
    }
  }

  /** An integer as a JavaScript template literal or a Python f-string writes it: a sign when negative, then the numeral of its magnitude. */
  function IntText(n: int): (r: string)
    ensures |r| > 0 && (r[0] == '-' <==> n < 0)
  {
    if n < 0 then "-" + Decimal(-n) else Decimal(n)
  }

  /** What follows the sign is the canonical numeral of the magnitude, and reads back to it. */
  lemma IntTextDigits(n: int)
    ensures var r := IntText(n);
            var digits := if n < 0 then r[1..] else r;
            Canonical(digits) && DigitsValue(digits) == (if n < 0 then -n else n)
  {
    DecimalRoundTrip(if n < 0 then -n else n);
    if n < 0 {
      assert IntText(n)[1..] == Decimal(-n);
    }
  }

  // ---------------------------------------------------------------------------
  // Joining and splitting lines

  /** `xs.join(sep)` in JavaScript, `sep.join(xs)` in Python. */
  function Join(xs: seq<string>, sep: char): (r: string)
    ensures |xs| == 0 ==> r == ""
    ensures |xs| > 0 ==> xs[0] <= r
    ensures |xs| > 1 ==> |xs[0]| < |r| && r[|xs[0]|] == sep
  {
    if |xs| == 0 then "" else if |xs| == 1 then xs[0] else xs[0] + [sep] + Join(xs[1..], sep)
  }

  /** `s.split(sep)` in Python: the pieces between separators, at least one. */
  function Split(s: string, sep: char): (r: seq<string>)
    ensures |r| > 0
    decreases |s|
  {
    var i := SpanWhile(s, 0, c => c != sep);
    if i == |s| then [s] else [s[..i]] + Split(s[i + 1..], sep)
  }

  /** Joining two non-empty lists puts one separator between their joins. */
  lemma {:induction false} JoinAppend(xs: seq<string>, ys: seq<string>, sep: char)
    requires |xs| > 0 && |ys| > 0
    ensures Join(xs + ys, sep) == Join(xs, sep) + [sep] + Join(ys, sep)
  {
    if |xs| > 1 {
      assert (xs + ys)[1..] == xs[1..] + ys;
      JoinAppend(xs[1..], ys, sep);
    }
  }

  /** Splitting a join of pieces that contain no separator gives the pieces back. */
  lemma {:induction false} SplitJoin(xs: seq<string>, sep: char)
    requires |xs| > 0
    requires forall i :: 0 <= i < |xs| ==> sep !in xs[i]
    ensures Split(Join(xs, sep), sep) == xs
  {
    var s := Join(xs, sep);
    var x := xs[0];
    if |xs| == 1 {
      assert SpanWhile(s, 0, c => c != sep) == |s|;
    } else {
      var rest := Join(xs[1..], sep);
      assert s == x + [sep] + rest;
      assert s[|x|] == sep;
      assert forall k :: 0 <= k < |x| ==> s[k] == x[k];
      assert SpanWhile(s, 0, c => c != sep) == |x|;
      assert s[..|x|] == x;
      assert s[|x| + 1..] == rest;
      SplitJoin(xs[1..], sep);
      assert [x] + xs[1..] == xs;
    }
  }
}
