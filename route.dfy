/**
 * The Next.js query route: its one-time index seeding and its `POST`
 * handler. A question asking for "chapter N verse M" is answered straight
 * from the corpus; any other question goes through retrieval and the
 * text-generation endpoint. The vector store's ranking and the endpoint are
 * parameters of the model.
 */
module QueryRoute {
  import opened Wrappers
  import opened Text
  import opened Verses
  import opened Services
  import opened ReferenceMatcher

  /** What the handler sends back. */
  datatype Response =
    | Reply(answer: string, usedVerses: bool, status: int)   // a JSON body {answer, used_verses}
    | Failure                                                // the handler throws; no JSON body is written

  const Apology: string := "Sorry, I couldn\U{2019}t find that verse in the Gita."
  const GenerationError: string := "Error generating response"
  // The two fixed prompt lines, written in pieces so that the verifier can see they hold no newline.
  const Preamble: string := "Below are three " + "relevant Bhagavad " + "Gita verses:"
  const Instruction: string := "Answer concisely, " + "using only the " + "above verses " + "as reference:"

  /** The number of results asked of the vector store. */
  const ResultCount: nat := 3

  // ---------------------------------------------------------------------------
  // The exact-reference path

  /** `(chapter_number || chapter_id) === chap && (verse_number || verse_order) === verseNum`. */
  predicate KeyMatches(v: RawVerse, chap: int, num: int) {
    Chapter(v) == Some(chap) && VerseNo(v) == Some(num)
  }

  /** `verses.find(...)`: the index of the first verse in corpus order with the requested key. */
  function FindVerse(verses: seq<RawVerse>, chap: int, num: int): (r: Option<nat>)
    ensures r.Some? ==> r.value < |verses| && KeyMatches(verses[r.value], chap, num)
    ensures r.Some? ==> forall k :: 0 <= k < r.value ==> !KeyMatches(verses[k], chap, num)
    ensures r.None? <==> forall k :: 0 <= k < |verses| ==> !KeyMatches(verses[k], chap, num)
  {
    if |verses| == 0 then None
    else if KeyMatches(verses[0], chap, num) then Some(0)
    else
      match FindVerse(verses[1..], chap, num)
      case None => None
      case Some(i) => Some(i + 1)
  }

  /** The reply to a question that names a chapter and a verse. */
  function DirectAnswer(verses: seq<RawVerse>, chap: int, num: int): (r: Response)
    ensures r.Reply? && r.usedVerses && r.status == 200
    ensures (forall k :: 0 <= k < |verses| ==> !KeyMatches(verses[k], chap, num)) ==> r.answer == Apology
    ensures forall k :: 0 <= k < |verses| && KeyMatches(verses[k], chap, num)
                        && (forall j :: 0 <= j < k ==> !KeyMatches(verses[j], chap, num)) ==>
              r.answer == TsTranslation(verses[k])
  {
    match FindVerse(verses, chap, num)
    case Some(i) => Reply(TsTranslation(verses[i]), true, 200)
    case None => Reply(Apology, true, 200)
  }

  /**
   * The chapter and verse a question asks for: trimmed, lower-cased, then
   * matched. There is a request exactly when the normalised question holds
   * the phrase, and it is then the value of the digits of an occurrence.
   */
  function RequestedVerse(q: string): (r: Option<(nat, nat)>)
    ensures var lower := AsciiLower(JsTrim(q));
            r.Some? <==> exists p :: 0 <= p <= |lower| && PhraseAt(lower, p).Some?
    ensures var lower := AsciiLower(JsTrim(q));
            r.Some? ==> exists p :: 0 <= p <= |lower| && PhraseAt(lower, p).Some?
                         && r.value == (DigitsValue(PhraseAt(lower, p).value.chapterDigits),
                                        DigitsValue(PhraseAt(lower, p).value.verseDigits))
    ensures var lower := AsciiLower(JsTrim(q));
            r.Some? ==> MatchPosition(lower).Some?
                        && r.value == (DigitsValue(PhraseAt(lower, MatchPosition(lower).value).value.chapterDigits),
                                       DigitsValue(PhraseAt(lower, MatchPosition(lower).value).value.verseDigits))
  {
    VerseRequest(AsciiLower(JsTrim(q)))
  }

  // ---------------------------------------------------------------------------
  // The semantic path

  /** The grounding prompt, assembled as the route concatenates it: its line layout joined by newlines. */
  function TsPrompt(queryText: string, mds: seq<Metadata>): (r: string)
    ensures r == Join(TsPromptLines(queryText, mds), '\n')
  {
    TsPromptLayout(queryText, mds);
    Preamble + "\n\n" + Join(VerseLines(mds), '\n') + "\n\nQuestion: " + queryText + "\n" + Instruction
  }

  /** The same prompt read as lines: an empty retrieval leaves one blank line where the verses go. */
  function TsPromptLines(queryText: string, mds: seq<Metadata>): seq<string> {
    [Preamble, ""] + (if |mds| == 0 then [""] else VerseLines(mds)) + ["", "Question: " + queryText, Instruction]
  }

  /** Regrouping the pieces of the prompt. */
  lemma PromptPiecesRegroup(p: string, j: string, q: string, i: string)
    ensures ((p + "\n" + "") + "\n" + j) + "\n" + ("" + "\n" + (("Question: " + q) + "\n" + i))
            == p + "\n\n" + j + "\n\nQuestion: " + q + "\n" + i
  {
  }

  /** The route's concatenation is the line layout joined by newlines. */
  lemma TsPromptLayout(queryText: string, mds: seq<Metadata>)
    ensures Preamble + "\n\n" + Join(VerseLines(mds), '\n') + "\n\nQuestion: " + queryText + "\n" + Instruction
            == Join(TsPromptLines(queryText, mds), '\n')
  {
    var body := if |mds| == 0 then [""] else VerseLines(mds);
    var head: seq<string> := [Preamble, ""];
    var question := "Question: " + queryText;
    var tail: seq<string> := ["", question, Instruction];
    assert Join(body, '\n') == Join(VerseLines(mds), '\n');
    assert Join(head, '\n') == Preamble + "\n" + "" by {
      assert head[1..] == [""];
    }
    assert Join(tail, '\n') == "" + "\n" + (question + "\n" + Instruction) by {
      assert tail[1..] == [question, Instruction];
      assert tail[1..][1..] == [Instruction];
      assert Join(tail[1..], '\n') == question + "\n" + Instruction;
    }
    JoinAppend(head, body, '\n');
    JoinAppend(head + body, tail, '\n');
    assert TsPromptLines(queryText, mds) == head + body + tail;
    PromptPiecesRegroup(Preamble, Join(VerseLines(mds), '\n'), queryText, Instruction);
  }

  /** The fixed lines hold no newline. */
  lemma FixedLinesOneLine()
    ensures '\n' !in Preamble && '\n' !in Instruction
  {
  }

  /**
   * When neither the question nor any retrieved id or translation holds a
   * newline, the prompt has the preamble, a blank line, the verse lines (or
   * one blank line), a blank line, the question and the instruction.
   */
  lemma TsPromptShape(queryText: string, mds: seq<Metadata>)
    requires '\n' !in queryText
    requires forall k :: 0 <= k < |mds| ==> '\n' !in mds[k].id && '\n' !in mds[k].translation
    ensures var lines := Split(TsPrompt(queryText, mds), '\n');
            |lines| == 5 + (if |mds| == 0 then 1 else |mds|)
            && lines[0] == Preamble && lines[1] == "" && lines[|lines| - 3] == ""
            && lines[|lines| - 2] == "Question: " + queryText
            && lines[|lines| - 1] == Instruction
            && forall k :: 0 <= k < |mds| ==> lines[2 + k] == VerseLine(mds[k])
  {
    TsPromptLinesOneLine(queryText, mds);
    SplitJoin(TsPromptLines(queryText, mds), '\n');
  }

  /** No line of the prompt holds a line break of its own. */
  lemma TsPromptLinesOneLine(queryText: string, mds: seq<Metadata>)
    requires '\n' !in queryText
    requires forall k :: 0 <= k < |mds| ==> '\n' !in mds[k].id && '\n' !in mds[k].translation
    ensures forall i :: 0 <= i < |TsPromptLines(queryText, mds)| ==> '\n' !in TsPromptLines(queryText, mds)[i]
  {
    var xs := TsPromptLines(queryText, mds);
    FixedLinesOneLine();
    forall i | 0 <= i < |xs| ensures '\n' !in xs[i] {
      if 2 <= i < |xs| - 3 && |mds| > 0 {
        assert xs[i] == VerseLine(mds[i - 2]);
      }
    }
  }

  /** The reply built from the generation endpoint's answer. */
  function TsReply(g: Generation): (r: Response)
    ensures r.Reply? ==> r.usedVerses
    ensures r == Reply(GenerationError, true, 500) <==> !(200 <= g.status <= 299)
    ensures r.Failure? <==>
              200 <= g.status <= 299
              && !(g.body.List? && |g.body.items| > 0 && g.body.items[0].generatedText.Some?)
    ensures r.Reply? && r.status == 200 ==> JsTrim(r.answer) == r.answer
    ensures 200 <= g.status <= 299 && g.body.List? && |g.body.items| > 0 && g.body.items[0].generatedText.Some? ==>
              r == Reply(JsTrim(g.body.items[0].generatedText.value), true, 200)
  {
    if !(200 <= g.status <= 299) then Reply(GenerationError, true, 500)
    else
      match g.body
      case List(items) =>
        if |items| > 0 && items[0].generatedText.Some? then
          TrimIdempotent(items[0].generatedText.value, IsJsSpace);
          Reply(JsTrim(items[0].generatedText.value), true, 200)
        else Failure
      case NotAList => Failure
      case Unparsable => Failure
  }

  /** The store's ranked answer to a query: at most `n` result slots, some possibly without metadata. */
  type Search = (string, nat) -> seq<Option<Metadata>>

  /** The generation endpoint's answer to a prompt. */
  type Generate = string -> Generation

  /** A search that honours the requested result count, as the vector store does. */
  ghost predicate HonoursCount(search: Search) {
    forall t, n :: |search(t, n)| <= n
  }

  /**
   * The prompt the semantic path sends for a question: the line layout of the
   * trimmed question and the retrieved verses that carry metadata, in rank order.
   */
  function SemanticPrompt(q: string, search: Search): (r: string)
    ensures r == Join(TsPromptLines(JsTrim(q), KeepPresent(search(JsTrim(q), ResultCount))), '\n')
  {
    var queryText := JsTrim(q);
    TsPrompt(queryText, KeepPresent(search(queryText, ResultCount)))
  }

  /**
   * `POST /api/query` on the question `q`. Every JSON reply says
   * `used_verses: true` and is either a 200 or the 500 generation error; a
   * question with a reference always gets a 200.
   */
  function Post(q: string, verses: seq<RawVerse>, search: Search, generate: Generate): (r: Response)
    ensures r.Reply? ==> r.usedVerses
    ensures r.Reply? ==> r.status == 200 || r == Reply(GenerationError, true, 500)
    ensures RequestedVerse(q).Some? ==> r.Reply? && r.status == 200
    ensures RequestedVerse(q).Some? ==> r == DirectAnswer(verses, RequestedVerse(q).value.0, RequestedVerse(q).value.1)
    ensures RequestedVerse(q).None? ==> r == TsReply(generate(SemanticPrompt(q, search)))
  {
    match RequestedVerse(q)
    case Some((chap, num)) => DirectAnswer(verses, chap, num)
    case None => TsReply(generate(SemanticPrompt(q, search)))
  }

  // ---------------------------------------------------------------------------
  // Properties of the handler

  /**
   * A question that names a chapter and a verse is answered from the corpus
   * alone: neither the store nor the endpoint affects the reply, which is
   * always a 200.
   */
  lemma ReferenceBypassesServices(q: string, verses: seq<RawVerse>, s1: Search, g1: Generate, s2: Search, g2: Generate)
    requires RequestedVerse(q).Some?
    ensures Post(q, verses, s1, g1) == Post(q, verses, s2, g2)
    ensures Post(q, verses, s1, g1).Reply? && Post(q, verses, s1, g1).status == 200
  {
  }

  /** Only a question without a reference reaches the endpoint; its reply then depends on the endpoint's status. */
  lemma SemanticPathReplies(q: string, verses: seq<RawVerse>, search: Search, generate: Generate)
    requires RequestedVerse(q).None?
    ensures var g := generate(SemanticPrompt(q, search));
            (Post(q, verses, search, generate) == Reply(GenerationError, true, 500) <==> !(200 <= g.status <= 299))
            && (Post(q, verses, search, generate).Reply? && 200 <= g.status <= 299 ==>
                  Post(q, verses, search, generate).status == 200)
  {
  }

  /** The prompt quotes at most three verses when the store honours the result count. */
  lemma PromptQuotesAtMostThree(q: string, search: Search)
    requires HonoursCount(search)
    ensures |KeepPresent(search(JsTrim(q), ResultCount))| <= 3
  {
    var slots := search(JsTrim(q), ResultCount);
    assert |slots| <= ResultCount;
  }

  /** White space around the question changes nothing. */
  lemma PaddingIrrelevant(pre: string, q: string, post: string, verses: seq<RawVerse>, search: Search, generate: Generate)
    requires AllSatisfy(pre, IsJsSpace) && AllSatisfy(post, IsJsSpace)
    ensures Post(pre + q + post, verses, search, generate) == Post(q, verses, search, generate)
  {
    TrimIgnoresPadding(pre, q, post, IsJsSpace);
  }

  /** Letter case does not affect routing, nor the answer to a question with a reference. */
  lemma CaseIrrelevantToRouting(q1: string, q2: string, verses: seq<RawVerse>, search: Search, generate: Generate)
    requires AsciiLower(q1) == AsciiLower(q2)
    ensures RequestedVerse(q1) == RequestedVerse(q2)
    ensures RequestedVerse(q1).Some? ==> Post(q1, verses, search, generate) == Post(q2, verses, search, generate)
  {
    LowerTrimCommute(q1);
    LowerTrimCommute(q2);
  }

  /** Shouting the question routes it as the lower-case question. */
  lemma UpperCaseRoutesAlike(q: string)
    ensures RequestedVerse(AsciiUpper(q)) == RequestedVerse(q)
  {
    LowerOfUpper(q);
    LowerTrimCommute(q);
    LowerTrimCommute(AsciiUpper(q));
  }

  /** "chapter C verse V": the question every reference starts from. */
  function ReferenceQuestion(chap: nat, num: nat): string {
    Phrase(" ", Decimal(chap), " ", " ", Decimal(num))
  }

  /** A successful match always starts with "chapter". */
  lemma PhraseStartsWithChapter(s: string, p: nat)
    requires p <= |s| && PhraseAt(s, p).Some?
    ensures HasAt(s, p, "chapter") && s[p] == 'c'
  {
    assert Pattern[0] == Word("chapter");
    assert s[p] == s[p..p + 7][0];
  }

  /** May follow the first letter of a reference question. */
  predicate TailChar(c: char) {
    c != 'c' && !('A' <= c <= 'Z')
  }

  /** The reference question starts with 'c', ends with a digit, and has no further 'c' and no upper-case letter. */
  lemma ReferenceQuestionLetters(chap: nat, num: nat)
    ensures var s := ReferenceQuestion(chap, num);
            |s| > 0 && s[0] == 'c' && IsDigit(s[|s| - 1]) && AllSatisfy(s[1..], TailChar)
  {
    var x, y := Decimal(chap), Decimal(num);
    var s := ReferenceQuestion(chap, num);
    PhraseSpelled(" ", x, " ", " ", y);
    var t := "hapter" + (" " + (x + (" " + ("verse" + (" " + y)))));
    assert s == "c" + t;
    assert s[1..] == t;
    assert AllSatisfy(x, TailChar) && AllSatisfy(y, TailChar);
    assert AllSatisfy(" ", TailChar) && AllSatisfy("verse", TailChar) && AllSatisfy("hapter", TailChar);
    AllSatisfyConcat(" ", y, TailChar);
    AllSatisfyConcat("verse", " " + y, TailChar);
    AllSatisfyConcat(" ", "verse" + (" " + y), TailChar);
    AllSatisfyConcat(x, " " + ("verse" + (" " + y)), TailChar);
    AllSatisfyConcat(" ", x + (" " + ("verse" + (" " + y))), TailChar);
    AllSatisfyConcat("hapter", " " + (x + (" " + ("verse" + (" " + y)))), TailChar);
    assert s[|s| - 1] == y[|y| - 1];
  }

  /** The reference question is already trimmed and lower-case. */
  lemma ReferenceQuestionNormal(chap: nat, num: nat)
    ensures AsciiLower(JsTrim(ReferenceQuestion(chap, num))) == ReferenceQuestion(chap, num)
  {
    var s := ReferenceQuestion(chap, num);
    ReferenceQuestionLetters(chap, num);
    assert forall k :: 1 <= k < |s| ==> s[k] == s[1..][k - 1];
    LowerOfLower(s);
    assert IsTrimWindow(s, IsJsSpace, 0, |s|) by {
      assert s[..0] == [] && s[|s|..] == [];
    }
    TrimWindowUnique(s, IsJsSpace, 0, |s|);
    assert s[0..|s|] == s;
  }

  /** The reference question has its phrase at the start and nowhere else. */
  lemma ReferenceQuestionPhrases(chap: nat, num: nat)
    ensures PhraseAt(ReferenceQuestion(chap, num), 0) == Some(Captures(Decimal(chap), Decimal(num)))
    ensures forall p :: 0 < p <= |ReferenceQuestion(chap, num)| ==> PhraseAt(ReferenceQuestion(chap, num), p).None?
  {
    var x, y := Decimal(chap), Decimal(num);
    var s := ReferenceQuestion(chap, num);
    assert AllSatisfy(" ", IsJsSpace);
    PhraseAtFinds(s, 0, " ", x, " ", " ", y);
    ReferenceQuestionLetters(chap, num);
    assert 'c' !in s[1..];
    NoPhrasePastStart(s);
  }

  /** A phrase can only start at a 'c'. */
  lemma NoPhrasePastStart(s: string)
    requires |s| > 0 && 'c' !in s[1..]
    ensures forall p :: 0 < p <= |s| ==> PhraseAt(s, p).None?
  {
    forall p | 0 < p <= |s| ensures PhraseAt(s, p).None? {
      if PhraseAt(s, p).Some? {
        PhraseStartsWithChapter(s, p);
      }
    }
  }

  /** The written reference "chapter C verse V" is parsed back to `(C, V)`. */
  lemma ReferenceQuestionParses(chap: nat, num: nat)
    ensures RequestedVerse(ReferenceQuestion(chap, num)) == Some((chap, num))
  {
    var x, y := Decimal(chap), Decimal(num);
    var s := ReferenceQuestion(chap, num);
    ReferenceQuestionNormal(chap, num);
    ReferenceQuestionPhrases(chap, num);
    assert MatchPosition(s) == Some(0);
    DecimalRoundTrip(chap);
    DecimalRoundTrip(num);
  }

  /**
   * Asking "chapter C verse V" answers with the translation of the first
   * verse numbered (C, V), or with the apology when the corpus has none.
   */
  lemma ReferenceQuestionAnswered(chap: nat, num: nat, verses: seq<RawVerse>, search: Search, generate: Generate)
    ensures var r := Post(ReferenceQuestion(chap, num), verses, search, generate);
            r.Reply? && r.status == 200 && r.usedVerses
            && (FindVerse(verses, chap, num).None? ==> r.answer == Apology)
            && (FindVerse(verses, chap, num).Some? ==>
                  r.answer == TsTranslation(verses[FindVerse(verses, chap, num).value]))
  {
    ReferenceQuestionParses(chap, num);
  }

  // ---------------------------------------------------------------------------
  // Index seeding

  /** The ids the route seeds, one per verse. */
  function SeedIds(verses: seq<RawVerse>): (r: seq<string>)
    ensures |r| == |verses| && forall i :: 0 <= i < |verses| ==> r[i] == TsId(verses[i])
  {
    seq(|verses|, i requires 0 <= i < |verses| => TsId(verses[i]))
  }

  /** The documents the route seeds: `translation || text`. */
  function SeedDocs(verses: seq<RawVerse>): (r: seq<string>)
    ensures |r| == |verses| && forall i :: 0 <= i < |verses| ==> r[i] == TsTranslation(verses[i])
  {
    seq(|verses|, i requires 0 <= i < |verses| => TsTranslation(verses[i]))
  }

  /** The metadata the route seeds. */
  function SeedMetadatas(verses: seq<RawVerse>): (r: seq<Metadata>)
    ensures |r| == |verses| && forall i :: 0 <= i < |verses| ==> r[i] == TsMetadata(verses[i])
  {
    seq(|verses|, i requires 0 <= i < |verses| => TsMetadata(verses[i]))
  }

  /** The three seeded lists are aligned: entry `i` of each describes verse `i`. */
  lemma SeedListsAligned(verses: seq<RawVerse>)
    ensures |SeedIds(verses)| == |SeedDocs(verses)| == |SeedMetadatas(verses)| == |verses|
    ensures forall i :: 0 <= i < |verses| ==>
              SeedIds(verses)[i] == SeedMetadatas(verses)[i].id
              && SeedDocs(verses)[i] == SeedMetadatas(verses)[i].translation
              && SeedMetadatas(verses)[i].text == verses[i].text
              && SeedMetadatas(verses)[i].chapter == Chapter(verses[i])
              && SeedMetadatas(verses)[i].verse == VerseNo(verses[i])
              && (verses[i].transliteration.None? ==> SeedMetadatas(verses)[i].transliteration == "")
              && (verses[i].wordMeanings.None? ==> SeedMetadatas(verses)[i].wordMeanings == "")
  {
  }

  /**
   * The store's collections after seeding: "gita" always exists and no other
   * collection changes; an existing "gita" is kept as it is, a new one holds
   * one entry per verse in corpus order.
   */
  function Seeded(collections: map<string, seq<Entry>>, verses: seq<RawVerse>): (r: map<string, seq<Entry>>)
    ensures r.Keys == collections.Keys + {CollectionName}
    ensures forall name :: name in collections && name != CollectionName ==> r[name] == collections[name]
    ensures CollectionName in collections ==> r[CollectionName] == collections[CollectionName]
    ensures CollectionName !in collections ==>
              |r[CollectionName]| == |verses|
              && forall i :: 0 <= i < |verses| ==>
                   r[CollectionName][i] == Entry(TsId(verses[i]), TsTranslation(verses[i]), TsMetadata(verses[i]))
  {
    if CollectionName in collections then collections
    else collections[CollectionName := Zip(SeedIds(verses), SeedDocs(verses), SeedMetadatas(verses))]
  }

  /** Seeding twice is seeding once: the second run finds the collection. */
  lemma SeedingIdempotent(collections: map<string, seq<Entry>>, verses: seq<RawVerse>)
    ensures Seeded(Seeded(collections, verses), verses) == Seeded(collections, verses)
  {
  }

  /** The start-up block: get the collection, or create it and add every verse. */
  method SeedIndex(store: Store, verses: seq<RawVerse>)
    modifies store
    ensures store.collections == Seeded(old(store.collections), verses)
  {
    var found := store.GetCollection(CollectionName);
    if !found {
      store.CreateCollection(CollectionName);
      var ids, docs, metadatas := SeedIds(verses), SeedDocs(verses), SeedMetadatas(verses);
      store.Add(CollectionName, ids, docs, metadatas);
      assert [] + Zip(ids, docs, metadatas) == Zip(ids, docs, metadatas);
    }
  }
}
