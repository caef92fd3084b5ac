/**
 * The exact-reference matcher of the query route: what
 * `lower.match(/.*chapter\s+(\d+)\s+verse\s+(\d+).* /)` (without the space
 * before the closing slash) finds in the lower-cased question. A JavaScript
 * regular expression without the `g` flag tries start positions from left to
 * right; from each one the greedy leading `.*` first swallows the rest of the
 * line and then gives characters back one at a time, so the phrase that wins
 * is the last one on the first line that has one.
 */
module ReferenceMatcher {
  import opened Wrappers
  import opened Text

  /** The two captured groups: the digits after "chapter" and after "verse". */
  datatype Captures = Captures(chapterDigits: string, verseDigits: string)

  /** `s` has `word` at position `p`. */
  predicate HasAt(s: string, p: nat, word: string) {
    p + |word| <= |s| && s[p..p + |word|] == word
  }

  /** One element of the pattern `chapter\s+(\d+)\s+verse\s+(\d+)`. */
  datatype Token =
    | Word(w: string)   // literal text
    | Spaces            // `\s+`
    | Digits            // `(\d+)`, a capture group

  const Pattern: seq<Token> := [Word("chapter"), Spaces, Digits, Spaces, Word("verse"), Spaces, Digits]

  function CaptureCount(ts: seq<Token>): nat {
    if |ts| == 0 then 0 else (if ts[0].Digits? then 1 else 0) + CaptureCount(ts[1..])
  }

  /**
   * The end of the longest run of `p`-characters starting at `i`: the
   * position `Text.SpanWhile` computes (`RunEndIsSpan`). The matcher keeps
   * this copy without quantified postconditions, and states the run's
   * properties as the lemmas below, so that its many unfoldings in the
   * matching proofs stay cheap.
   */
  function RunEnd(s: string, i: nat, p: char -> bool): (e: nat)
    requires i <= |s|
    ensures i <= e <= |s|
    decreases |s| - i
  {
    if i < |s| && p(s[i]) then RunEnd(s, i + 1, p) else i
  }

  /** The matcher's run end is the one the trimming code uses. */
  lemma {:induction false} RunEndIsSpan(s: string, i: nat, p: char -> bool)
    requires i <= |s|
    ensures RunEnd(s, i, p) == SpanWhile(s, i, p)
    decreases |s| - i
  {
    if i < |s| && p(s[i]) {
      RunEndIsSpan(s, i + 1, p);
    }
  }

  /** The run really is one: every character up to `RunEnd` belongs to it, and the one at `RunEnd` does not. */
  lemma {:induction false} RunEndIsRun(s: string, i: nat, p: char -> bool)
    requires i <= |s|
    ensures forall k :: i <= k < RunEnd(s, i, p) ==> p(s[k])
    ensures RunEnd(s, i, p) < |s| ==> !p(s[RunEnd(s, i, p)])
    decreases |s| - i
  {
    if i < |s| && p(s[i]) {
      RunEndIsRun(s, i + 1, p);
    }
  }

  /** A stretch of run characters followed by a non-run character (or the end) is where the run ends. */
  lemma {:induction false} RunEndAt(s: string, i: nat, n: nat, p: char -> bool)
    requires i + n <= |s|
    requires forall k :: i <= k < i + n ==> p(s[k])
    requires i + n < |s| ==> !p(s[i + n])
    ensures RunEnd(s, i, p) == i + n
    decreases n
  {
    if n > 0 {
      RunEndAt(s, i + 1, n - 1, p);
    }
  }

  /**
   * Matches `ts` anchored at `i`, each `\s+` and `\d+` taking its longest
   * run, and returns the captured digit runs. In the pattern every run is
   * followed by a token whose first character the run cannot contain, so
   * the longest run is the only one a backtracking engine can accept.
   */
  function MatchTokens(s: string, i: nat, ts: seq<Token>): (r: Option<seq<string>>)
    requires i <= |s|
    ensures r.Some? ==> |r.value| == CaptureCount(ts)
    decreases |ts|
  {
    if |ts| == 0 then Some([])
    else
      match ts[0]
      case Word(w) =>
        if HasAt(s, i, w) then MatchTokens(s, i + |w|, ts[1..]) else None
      case Spaces =>
        var j := RunEnd(s, i, IsJsSpace);
        if j == i then None else MatchTokens(s, j, ts[1..])
      case Digits =>
        var j := RunEnd(s, i, IsDigit);
        if j == i then None
        else
          match MatchTokens(s, j, ts[1..])
          case None => None
          case Some(cs) => Some([s[i..j]] + cs)
  }

  /** The pattern anchored at `p`: the trailing `.*` accepts whatever follows. */
  function PhraseAt(s: string, p: nat): (r: Option<Captures>)
    requires p <= |s|
    ensures r.Some? ==> |r.value.chapterDigits| > 0 && AllDigits(r.value.chapterDigits)
    ensures r.Some? ==> |r.value.verseDigits| > 0 && AllDigits(r.value.verseDigits)
  {
    assert CaptureCount(Pattern) == 2 by {
      assert Pattern[1..][1..][1..][1..][1..][1..][1..] == [];
    }
    match MatchTokens(s, p, Pattern)
    case None => None
    case Some(cs) =>
      assert forall k :: 0 <= k < |cs| ==> |cs[k]| > 0 && AllDigits(cs[k]) by {
        var ns := MatchTokensSound(s, p, Pattern);
        CapturedDigits(s, p, Pattern, ns);
      }
      Some(Captures(cs[0], cs[1]))
  }

  /** `s[i..i + n]` is a longest non-empty run of `p`-characters. */
  predicate IsRun(s: string, i: nat, n: nat, p: char -> bool) {
    0 < n && i + n <= |s|
    && (forall k :: i <= k < i + n ==> p(s[k]))
    && (i + n < |s| ==> !p(s[i + n]))
  }

  /** Token `t` spans `s[i..i + n]`, a longest run in the case of `\s+` and `\d+`. */
  predicate TokenFits(s: string, i: nat, t: Token, n: nat) {
    match t
    case Word(w) => n == |w| && HasAt(s, i, w)
    case Spaces => IsRun(s, i, n, IsJsSpace)
    case Digits => IsRun(s, i, n, IsDigit)
  }

  /** The tokens `ts` span consecutive pieces of `s` of lengths `ns`, starting at `i`. */
  predicate TokensFit(s: string, i: nat, ts: seq<Token>, ns: seq<nat>)
    decreases |ts|
  {
    |ns| == |ts| && (|ts| > 0 ==> TokenFits(s, i, ts[0], ns[0]) && TokensFit(s, i + ns[0], ts[1..], ns[1..]))
  }

  /** The pieces spanned by the capture groups. */
  function Captured(s: string, i: nat, ts: seq<Token>, ns: seq<nat>): seq<string>
    requires TokensFit(s, i, ts, ns)
    decreases |ts|
  {
    if |ts| == 0 then []
    else
      var rest := Captured(s, i + ns[0], ts[1..], ns[1..]);
      if ts[0].Digits? then [s[i..i + ns[0]]] + rest else rest
  }

  /** Completeness of the matcher: whenever the tokens fit the text, it finds that fit and captures its digit pieces. */
  lemma {:induction false} MatchTokensComplete(s: string, i: nat, ts: seq<Token>, ns: seq<nat>)
    requires i <= |s| && TokensFit(s, i, ts, ns)
    ensures MatchTokens(s, i, ts) == Some(Captured(s, i, ts, ns))
    decreases |ts|
  {
    if |ts| > 0 {
      MatchTokensComplete(s, i + ns[0], ts[1..], ns[1..]);
      MatchStep(s, i, ts, ns[0]);
    }
  }

  /** One token that fits hands the rest of the text to the rest of the pattern. */
  lemma MatchStep(s: string, i: nat, ts: seq<Token>, n: nat)
    requires |ts| > 0 && i + n <= |s| && TokenFits(s, i, ts[0], n)
    requires MatchTokens(s, i + n, ts[1..]).Some?
    ensures MatchTokens(s, i, ts) ==
              Some(if ts[0].Digits? then [s[i..i + n]] + MatchTokens(s, i + n, ts[1..]).value
                   else MatchTokens(s, i + n, ts[1..]).value)
  {
    match ts[0]
    case Word(w) =>
    case Spaces =>
      RunEndAt(s, i, n, IsJsSpace);
    case Digits =>
      RunEndAt(s, i, n, IsDigit);
  }

  /** Soundness of the matcher: whatever it captures comes from a fit of the tokens. */
  lemma {:induction false} MatchTokensSound(s: string, i: nat, ts: seq<Token>) returns (ns: seq<nat>)
    requires i <= |s| && MatchTokens(s, i, ts).Some?
    ensures TokensFit(s, i, ts, ns) && Captured(s, i, ts, ns) == MatchTokens(s, i, ts).value
    decreases |ts|
  {
    if |ts| == 0 {
      ns := [];
    } else {
      var n := MatchedStep(s, i, ts);
      var rest := MatchTokensSound(s, i + n, ts[1..]);
      ns := [n] + rest;
      FitCons(s, i, ts, n, rest);
    }
  }

  /** A fit of the first token followed by a fit of the rest is a fit of all the tokens. */
  lemma FitCons(s: string, i: nat, ts: seq<Token>, n: nat, rest: seq<nat>)
    requires |ts| > 0 && TokenFits(s, i, ts[0], n) && TokensFit(s, i + n, ts[1..], rest)
    ensures TokensFit(s, i, ts, [n] + rest)
    ensures Captured(s, i, ts, [n] + rest) ==
              if ts[0].Digits? then [s[i..i + n]] + Captured(s, i + n, ts[1..], rest)
              else Captured(s, i + n, ts[1..], rest)
  {
    assert ([n] + rest)[1..] == rest;
  }

  /** A successful match starts with a fit of its first token. */
  lemma MatchedStep(s: string, i: nat, ts: seq<Token>) returns (n: nat)
    requires |ts| > 0 && i <= |s| && MatchTokens(s, i, ts).Some?
    ensures i + n <= |s| && TokenFits(s, i, ts[0], n) && MatchTokens(s, i + n, ts[1..]).Some?
    ensures MatchTokens(s, i, ts) ==
              Some(if ts[0].Digits? then [s[i..i + n]] + MatchTokens(s, i + n, ts[1..]).value
                   else MatchTokens(s, i + n, ts[1..]).value)
  {
    match ts[0]
    case Word(w) =>
      n := |w|;
    case Spaces =>
      n := RunEnd(s, i, IsJsSpace) - i;
      RunEndIsRun(s, i, IsJsSpace);
    case Digits =>
      n := RunEnd(s, i, IsDigit) - i;
      RunEndIsRun(s, i, IsDigit);
  }

  /** Each capture of a fit is a whole, non-empty digit run. */
  lemma {:induction false} CapturedDigits(s: string, i: nat, ts: seq<Token>, ns: seq<nat>)
    requires TokensFit(s, i, ts, ns)
    ensures forall k :: 0 <= k < |Captured(s, i, ts, ns)| ==>
              |Captured(s, i, ts, ns)[k]| > 0 && AllDigits(Captured(s, i, ts, ns)[k])
    decreases |ts|
  {
    if |ts| > 0 {
      CapturedDigits(s, i + ns[0], ts[1..], ns[1..]);
      if ts[0].Digits? {
        var d := s[i..i + ns[0]];
        assert forall k :: 0 <= k < |d| ==> d[k] == s[i + k];
      }
    }
  }

  // ---------------------------------------------------------------------------
  // A phrase written out, and completeness on it

  /** A text cut into consecutive pieces. */
  datatype Pieces = Nil | Cons(head: string, tail: Pieces)

  function Concat(ps: Pieces): string {
    match ps
    case Nil => ""
    case Cons(h, t) => h + Concat(t)
  }

  /** The pieces of "chapter<w1><x><w2>verse<w3><y>". */
  function PhrasePieces(w1: string, x: string, w2: string, w3: string, y: string): Pieces {
    Cons("chapter", Cons(w1, Cons(x, Cons(w2, Cons("verse", Cons(w3, Cons(y, Nil)))))))
  }

  /** The phrase "chapter<w1><x><w2>verse<w3><y>" with the given white space and digit runs. */
  function Phrase(w1: string, x: string, w2: string, w3: string, y: string): string {
    Concat(PhrasePieces(w1, x, w2, w3, y))
  }

  predicate WellFormedPhrase(w1: string, x: string, w2: string, w3: string, y: string) {
    |w1| > 0 && |w2| > 0 && |w3| > 0 && |x| > 0 && |y| > 0
    && AllSatisfy(w1, IsJsSpace) && AllSatisfy(w2, IsJsSpace) && AllSatisfy(w3, IsJsSpace)
    && AllDigits(x) && AllDigits(y)
  }

  /** The phrase spelled as one string. */
  lemma PhraseSpelled(w1: string, x: string, w2: string, w3: string, y: string)
    ensures Phrase(w1, x, w2, w3, y) == "chapter" + (w1 + (x + (w2 + ("verse" + (w3 + y)))))
  {
    assert Concat(Cons(y, Nil)) == y;
    assert Concat(Cons(w3, Cons(y, Nil))) == w3 + y;
    assert Concat(Cons("verse", Cons(w3, Cons(y, Nil)))) == "verse" + (w3 + y);
    assert Concat(Cons(w2, Cons("verse", Cons(w3, Cons(y, Nil))))) == w2 + ("verse" + (w3 + y));
    assert Concat(Cons(x, Cons(w2, Cons("verse", Cons(w3, Cons(y, Nil)))))) == x + (w2 + ("verse" + (w3 + y)));
    assert Concat(Cons(w1, Cons(x, Cons(w2, Cons("verse", Cons(w3, Cons(y, Nil))))))) == w1 + (x + (w2 + ("verse" + (w3 + y))));
  }

  /** Splits a slice that spells `u + v` into its two parts. */
  lemma Peel(s: string, i: nat, u: string, v: string)
    requires HasAt(s, i, u + v)
    ensures HasAt(s, i, u) && HasAt(s, i + |u|, v)
  {
    assert forall k :: i <= k < i + |u| ==> s[k] == (u + v)[k - i];
    assert forall k :: i + |u| <= k < i + |u| + |v| ==> s[k] == (u + v)[k - i];
  }

  /** Splits off the first piece. */
  lemma PeelPiece(s: string, i: nat, h: string, t: Pieces)
    requires HasAt(s, i, Concat(Cons(h, t)))
    ensures HasAt(s, i, h) && HasAt(s, i + |h|, Concat(t))
  {
    Peel(s, i, h, Concat(t));
  }

  /** A non-empty word at `i` starts with the character at `i`. */
  lemma FirstAt(s: string, i: nat, u: string)
    requires HasAt(s, i, u) && |u| > 0
    ensures s[i] == u[0]
  {
    assert s[i] == s[i..i + |u|][0];
  }

  /** A word at `i` spells the characters from `i` on. */
  lemma CharsAt(s: string, i: nat, u: string)
    requires HasAt(s, i, u)
    ensures forall k :: i <= k < i + |u| ==> s[k] == u[k - i]
  {
    assert forall k :: i <= k < i + |u| ==> s[k] == s[i..i + |u|][k - i];
  }

  /** A word of `\s` characters from `i` to `j`, followed by something else, is a whole run. */
  lemma SpaceRunAt(s: string, i: nat, j: nat, u: string)
    requires j == i + |u| && HasAt(s, i, u) && AllSatisfy(u, IsJsSpace)
    requires j < |s| ==> !IsJsSpace(s[j])
    ensures RunEnd(s, i, IsJsSpace) == j
  {
    CharsAt(s, i, u);
    RunEndAt(s, i, |u|, IsJsSpace);
  }

  /** A word of `\d` characters from `i` to `j`, followed by something else, is a whole run. */
  lemma DigitRunAt(s: string, i: nat, j: nat, u: string)
    requires j == i + |u| && HasAt(s, i, u) && AllDigits(u)
    requires j < |s| ==> !IsDigit(s[j])
    ensures RunEnd(s, i, IsDigit) == j
  {
    CharsAt(s, i, u);
    RunEndAt(s, i, |u|, IsDigit);
  }

  /** The cuts `p < a1 < ... < a7` between the pieces of "chapter<w1><x><w2>verse<w3><y>". */
  predicate PhraseCuts(p: nat, w1: string, x: string, w2: string, w3: string, y: string,
                       a1: nat, a2: nat, a3: nat, a4: nat, a5: nat, a6: nat, a7: nat) {
    a1 == p + 7 && a2 == a1 + |w1| && a3 == a2 + |x| && a4 == a3 + |w2|
    && a5 == a4 + 5 && a6 == a5 + |w3| && a7 == a6 + |y|
  }

  /** Where each piece of a phrase lies. */
  lemma PhraseLayout(s: string, p: nat, w1: string, x: string, w2: string, w3: string, y: string,
                     a1: nat, a2: nat, a3: nat, a4: nat, a5: nat, a6: nat, a7: nat)
    requires PhraseCuts(p, w1, x, w2, w3, y, a1, a2, a3, a4, a5, a6, a7)
    requires HasAt(s, p, Phrase(w1, x, w2, w3, y))
    ensures HasAt(s, p, "chapter") && HasAt(s, a1, w1) && HasAt(s, a2, x) && HasAt(s, a3, w2)
    ensures HasAt(s, a4, "verse") && HasAt(s, a5, w3) && HasAt(s, a6, y)
    ensures a7 == p + |Phrase(w1, x, w2, w3, y)|
  {
    var t6 := Cons(y, Nil);
    var t5 := Cons(w3, t6);
    var t4 := Cons("verse", t5);
    var t3 := Cons(w2, t4);
    var t2 := Cons(x, t3);
    var t1 := Cons(w1, t2);
    PeelPiece(s, p, "chapter", t1);
    PeelPiece(s, a1, w1, t2);
    PeelPiece(s, a2, x, t3);
    PeelPiece(s, a3, w2, t4);
    PeelPiece(s, a4, "verse", t5);
    PeelPiece(s, a5, w3, t6);
    assert Concat(t6) == y;
  }

  // Matching a phrase runs the pattern from its last token back to its first.

  lemma WordThen(s: string, i: nat, k: nat, cs: seq<string>)
    requires i <= |s| && k < |Pattern| && Pattern[k].Word? && HasAt(s, i, Pattern[k].w)
    requires MatchTokens(s, i + |Pattern[k].w|, Pattern[k + 1..]) == Some(cs)
    ensures MatchTokens(s, i, Pattern[k..]) == Some(cs)
  {
    assert Pattern[k..][1..] == Pattern[k + 1..];
  }

  lemma SpacesThen(s: string, i: nat, j: nat, k: nat, cs: seq<string>)
    requires i < j <= |s| && k < |Pattern| && Pattern[k] == Spaces && RunEnd(s, i, IsJsSpace) == j
    requires MatchTokens(s, j, Pattern[k + 1..]) == Some(cs)
    ensures MatchTokens(s, i, Pattern[k..]) == Some(cs)
  {
    assert Pattern[k..][1..] == Pattern[k + 1..];
  }

  lemma DigitsThen(s: string, i: nat, j: nat, k: nat, cs: seq<string>)
    requires i < j <= |s| && k < |Pattern| && Pattern[k] == Digits && RunEnd(s, i, IsDigit) == j
    requires MatchTokens(s, j, Pattern[k + 1..]) == Some(cs)
    ensures MatchTokens(s, i, Pattern[k..]) == Some([s[i..j]] + cs)
  {
    assert Pattern[k..][1..] == Pattern[k + 1..];
  }

  /** Each run of a well-formed phrase ends where the next piece starts. */
  lemma PhraseRuns(s: string, p: nat, w1: string, x: string, w2: string, w3: string, y: string,
                   a1: nat, a2: nat, a3: nat, a4: nat, a5: nat, a6: nat, a7: nat)
    requires PhraseCuts(p, w1, x, w2, w3, y, a1, a2, a3, a4, a5, a6, a7)
    requires WellFormedPhrase(w1, x, w2, w3, y)
    requires HasAt(s, a1, w1) && HasAt(s, a2, x) && HasAt(s, a3, w2)
    requires HasAt(s, a4, "verse") && HasAt(s, a5, w3) && HasAt(s, a6, y)
    requires a7 < |s| ==> !IsDigit(s[a7])
    ensures RunEnd(s, a1, IsJsSpace) == a2 && RunEnd(s, a2, IsDigit) == a3 && RunEnd(s, a3, IsJsSpace) == a4
    ensures RunEnd(s, a5, IsJsSpace) == a6 && RunEnd(s, a6, IsDigit) == a7
  {
    FirstAt(s, a2, x);
    FirstAt(s, a3, w2);
    FirstAt(s, a4, "verse");
    FirstAt(s, a6, y);
    assert IsDigit(x[0]) && IsJsSpace(w2[0]) && IsDigit(y[0]);
    SpaceRunAt(s, a1, a2, w1);
    DigitRunAt(s, a2, a3, x);
    SpaceRunAt(s, a3, a4, w2);
    SpaceRunAt(s, a5, a6, w3);
    DigitRunAt(s, a6, a7, y);
  }

  /**
   * Completeness on phrases: wherever a well-formed phrase starts, and its
   * last digit run is not followed by another digit, the pattern matches
   * there and captures exactly the two whole digit runs.
   */
  lemma PhraseAtFinds(s: string, p: nat, w1: string, x: string, w2: string, w3: string, y: string)
    requires WellFormedPhrase(w1, x, w2, w3, y)
    requires HasAt(s, p, Phrase(w1, x, w2, w3, y))
    requires p + |Phrase(w1, x, w2, w3, y)| < |s| ==> !IsDigit(s[p + |Phrase(w1, x, w2, w3, y)|])
    ensures PhraseAt(s, p) == Some(Captures(x, y))
  {
    var a1 := p + 7;
    var a2 := a1 + |w1|;
    var a3 := a2 + |x|;
    var a4 := a3 + |w2|;
    var a5 := a4 + 5;
    var a6 := a5 + |w3|;
    var a7 := a6 + |y|;
    PhraseLayout(s, p, w1, x, w2, w3, y, a1, a2, a3, a4, a5, a6, a7);
    PhraseRuns(s, p, w1, x, w2, w3, y, a1, a2, a3, a4, a5, a6, a7);
    MatchAtRuns(s, p, a1, a2, a3, a4, a5, a6, a7);
    assert s[a2..a3] == x && s[a6..a7] == y;
  }

  /** The pattern matches at `p` when its literal words and run ends are where a phrase puts them. */
  lemma MatchAtRuns(s: string, p: nat, a1: nat, b: nat, c: nat, d: nat, e: nat, f: nat, g: nat)
    requires a1 == p + 7 && e == d + 5 && a1 < b < c < d && e < f < g <= |s|
    requires HasAt(s, p, "chapter") && HasAt(s, d, "verse")
    requires RunEnd(s, a1, IsJsSpace) == b && RunEnd(s, b, IsDigit) == c && RunEnd(s, c, IsJsSpace) == d
    requires RunEnd(s, e, IsJsSpace) == f && RunEnd(s, f, IsDigit) == g
    ensures MatchTokens(s, p, Pattern) == Some([s[b..c], s[f..g]])
  {
    MatchFromVerse(s, d, e, f, g);
    MatchFromChapterDigits(s, b, c, d, [s[f..g]]);
    assert [s[b..c]] + [s[f..g]] == [s[b..c], s[f..g]];
    MatchFromChapter(s, p, a1, b, [s[b..c], s[f..g]]);
  }

  /** The pattern from "verse" on, given where its runs end. */
  lemma MatchFromVerse(s: string, d: nat, e: nat, f: nat, g: nat)
    requires e == d + 5 && HasAt(s, d, "verse") && e < f < g <= |s|
    requires RunEnd(s, e, IsJsSpace) == f && RunEnd(s, f, IsDigit) == g
    ensures MatchTokens(s, d, Pattern[4..]) == Some([s[f..g]])
  {
    assert Pattern[7..] == [];
    DigitsThen(s, f, g, 6, []);
    assert [s[f..g]] + [] == [s[f..g]];
    SpacesThen(s, e, f, 5, [s[f..g]]);
    WordThen(s, d, 4, [s[f..g]]);
  }

  /** The pattern from the first digit run on, given where its runs end. */
  lemma MatchFromChapterDigits(s: string, b: nat, c: nat, d: nat, cs: seq<string>)
    requires b < c < d <= |s| && RunEnd(s, b, IsDigit) == c && RunEnd(s, c, IsJsSpace) == d
    requires MatchTokens(s, d, Pattern[4..]) == Some(cs)
    ensures MatchTokens(s, b, Pattern[2..]) == Some([s[b..c]] + cs)
  {
    SpacesThen(s, c, d, 3, cs);
    DigitsThen(s, b, c, 2, cs);
  }

  /** The whole pattern, given where the first run ends. */
  lemma MatchFromChapter(s: string, p: nat, a1: nat, b: nat, cs: seq<string>)
    requires a1 == p + 7 && HasAt(s, p, "chapter") && a1 < b <= |s| && RunEnd(s, a1, IsJsSpace) == b
    requires MatchTokens(s, b, Pattern[2..]) == Some(cs)
    ensures MatchTokens(s, p, Pattern) == Some(cs)
  {
    SpacesThen(s, a1, b, 1, cs);
    WordThen(s, p, 0, cs);
    assert Pattern[0..] == Pattern;
  }

  // ---------------------------------------------------------------------------
  // The unanchored search. It is stated for any anchored test `found`; the
  // regular expression's test is `MatchesAt`.

  /** The pattern matches with its "chapter" at `q`. */
  predicate MatchesAt(s: string, q: nat) {
    q <= |s| && PhraseAt(s, q).Some?
  }

  /** The highest position in `[lo, hi]` that passes `found`: the leading `.*` giving characters back. */
  function LastIn(s: string, found: (string, nat) -> bool, lo: nat, hi: nat): (r: Option<nat>)
    requires lo <= hi
    ensures r.Some? ==> lo <= r.value <= hi && found(s, r.value)
    ensures r.Some? ==> forall q :: r.value < q <= hi ==> !found(s, q)
    ensures r.None? ==> forall q :: lo <= q <= hi ==> !found(s, q)
    decreases hi - lo
  {
    if found(s, hi) then Some(hi)
    else if hi == lo then None
    else LastIn(s, found, lo, hi - 1)
  }

  /** The engine's scan over start positions `st, st + 1, ...`; from each, `.*` reaches the end of its line. */
  function ScanFrom(s: string, found: (string, nat) -> bool, st: nat): (r: Option<nat>)
    requires st <= |s| + 1
    ensures r.Some? ==> st <= r.value <= |s| && found(s, r.value)
    ensures r.None? ==> forall q :: st <= q <= |s| ==> !found(s, q)
    decreases |s| + 1 - st
  {
    if st > |s| then None
    else
      match LastIn(s, found, st, SpanWhile(s, st, IsLineChar))
      case Some(p) => Some(p)
      case None => ScanFrom(s, found, st + 1)
  }

  /** The position of the phrase the regular expression captures, if it matches at all. */
  function MatchPosition(s: string): (r: Option<nat>)
    ensures r.Some? ==> r.value <= |s| && PhraseAt(s, r.value).Some?
    ensures r.None? <==> forall q :: 0 <= q <= |s| ==> PhraseAt(s, q).None?
  {
    NoScanResultNoMatch(s);
    ScanFrom(s, MatchesAt, 0)
  }

  lemma NoScanResultNoMatch(s: string)
    ensures ScanFrom(s, MatchesAt, 0).None? ==> forall q :: 0 <= q <= |s| ==> PhraseAt(s, q).None?
  {
    if ScanFrom(s, MatchesAt, 0).None? {
      forall q | 0 <= q <= |s| ensures PhraseAt(s, q).None? {
        var found: (string, nat) -> bool := MatchesAt;
        assert !found(s, q);
      }
    }
  }

  /** No line terminator in `s[i..j]`. */
  predicate OnOneLine(s: string, i: nat, j: nat)
    requires i <= j <= |s|
  {
    forall k :: i <= k < j ==> IsLineChar(s[k])
  }

  /** The scan stops at the last position of the first line that has one passing `found`. */
  lemma {:induction false} ScanChoosesLastOnLine(s: string, found: (string, nat) -> bool, st: nat)
    requires st <= |s| + 1
    requires forall q :: 0 <= q < st && q <= |s| ==> !found(s, q)
    ensures ScanFrom(s, found, st).Some? ==>
              var p := ScanFrom(s, found, st).value;
              (forall q :: 0 <= q < p && found(s, q) ==> OnOneLine(s, q, p))
              && (forall q :: p < q <= |s| && found(s, q) ==> !OnOneLine(s, p, q))
    decreases |s| + 1 - st
  {
    if st <= |s| {
      var e := SpanWhile(s, st, IsLineChar);
      match LastIn(s, found, st, e)
      case Some(p) =>
        forall q | p < q <= |s| && found(s, q) ensures !OnOneLine(s, p, q) {
          assert e < q && e < |s| && !IsLineChar(s[e]);
        }
      case None =>
        ScanChoosesLastOnLine(s, found, st + 1);
    }
  }

  /**
   * The phrase the regular expression reports: every phrase before it is on
   * the same line, and no phrase after it is. On a single line this is the
   * last phrase.
   */
  lemma MatchIsLastOnFirstLine(s: string)
    ensures MatchPosition(s).Some? ==>
              var p := MatchPosition(s).value;
              (forall q :: 0 <= q < p && PhraseAt(s, q).Some? ==> OnOneLine(s, q, p))
              && (forall q :: p < q <= |s| && PhraseAt(s, q).Some? ==> !OnOneLine(s, p, q))
    ensures MatchPosition(s).Some? && OnOneLine(s, 0, |s|) ==>
              forall q :: MatchPosition(s).value < q <= |s| ==> PhraseAt(s, q).None?
  {
    ScanChoosesLastOnLine(s, MatchesAt, 0);
    if MatchPosition(s).Some? && OnOneLine(s, 0, |s|) {
      var p := MatchPosition(s).value;
      forall q | p < q <= |s| ensures PhraseAt(s, q).None? {
        assert OnOneLine(s, p, q);
      }
    }
  }

  /** The chapter and verse numbers the route parses from a lower-cased question, if it asks for one. */
  function VerseRequest(lower: string): (r: Option<(nat, nat)>)
    ensures r.Some? <==> exists q :: 0 <= q <= |lower| && PhraseAt(lower, q).Some?
    ensures r.Some? ==> exists q :: 0 <= q <= |lower| && PhraseAt(lower, q).Some?
                         && r.value == (DigitsValue(PhraseAt(lower, q).value.chapterDigits),
                                        DigitsValue(PhraseAt(lower, q).value.verseDigits))
    ensures r.Some? ==> MatchPosition(lower).Some?
                        && r.value == (DigitsValue(PhraseAt(lower, MatchPosition(lower).value).value.chapterDigits),
                                       DigitsValue(PhraseAt(lower, MatchPosition(lower).value).value.verseDigits))
  {
    match MatchPosition(lower)
    case None => None
    case Some(p) =>
      var c := PhraseAt(lower, p).value;
      var v := (DigitsValue(c.chapterDigits), DigitsValue(c.verseDigits));
      assert p <= |lower| && PhraseAt(lower, p).Some?
             && v == (DigitsValue(PhraseAt(lower, p).value.chapterDigits), DigitsValue(PhraseAt(lower, p).value.verseDigits));
      Some(v)
  }
}
