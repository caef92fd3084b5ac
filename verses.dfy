/**
 * Entries of the verse corpus and the record normalisation that both the
 * Next.js route and the Python scripts apply to them. The two runtimes read
 * the same JSON, but fall back between fields differently: `a || b` and
 * `a or b` skip a falsy first operand (absent, zero, empty string), while
 * Python's `dict.get(key, default)` uses the default only for an absent key.
 */
module Verses {
  import opened Wrappers
  import opened Text

  /** One object of the corpus file; an absent key is `None`. */
  datatype RawVerse = RawVerse(
    chapterNumber: Option<int>,
    chapterId: Option<int>,
    verseNumber: Option<int>,
    verseOrder: Option<int>,
    translation: Option<string>,
    text: string,
    transliteration: Option<string>,
    wordMeanings: Option<string>)

  /** The metadata stored beside each document in the "gita" collection. */
  datatype Metadata = Metadata(
    id: string,
    chapter: Option<int>,
    verse: Option<int>,
    text: string,
    translation: string,
    transliteration: string,
    wordMeanings: string)

  /** `a || b` on numbers in JavaScript and `a or b` in Python: both skip an absent or zero first operand. */
  function OrNumber(a: Option<int>, b: Option<int>): (r: Option<int>)
    ensures r == a || r == b
    ensures r == a <==> (a.Some? && a.value != 0) || a == b
  {
    if a.Some? && a.value != 0 then a else b
  }

  /** `a || b` on strings: skips an absent or empty first operand. */
  function OrString(a: Option<string>, b: string): (r: string)
    ensures r == b || a == Some(r)
    ensures a.Some? && a.value != "" ==> r == a.value
    ensures r == "" <==> (a.None? || a.value == "") && b == ""
  {
    if a.Some? && a.value != "" then a.value else b
  }

  /** Python's `d.get(key, default)`: the default only when the key is absent. */
  function GetOr(a: Option<string>, default: string): (r: string)
    ensures a.Some? ==> r == a.value
    ensures a.None? ==> r == default
  {
    a.GetOr(default)
  }

  /** The chapter number, falling back to the chapter id. */
  function Chapter(v: RawVerse): Option<int> {
    OrNumber(v.chapterNumber, v.chapterId)
  }

  /** The verse number, falling back to the verse order. */
  function VerseNo(v: RawVerse): Option<int> {
    OrNumber(v.verseNumber, v.verseOrder)
  }

  /** A possibly missing number in a JavaScript template literal. */
  function JsNumberText(n: Option<int>): string {
    match n
    case None => "undefined"
    case Some(x) => IntText(x)
  }

  /** A possibly missing number in a Python f-string. */
  function PyNumberText(n: Option<int>): string {
    match n
    case None => "None"
    case Some(x) => IntText(x)
  }

  /** The id "<chapter>.<verse>" as the route writes it. */
  function TsId(v: RawVerse): (r: string)
    ensures Chapter(v).Some? && VerseNo(v).Some? ==> r == IntText(Chapter(v).value) + "." + IntText(VerseNo(v).value)
    ensures Chapter(v).None? ==> |r| > 10 && r[..10] == "undefined."
    ensures VerseNo(v).None? ==> |r| > 10 && r[|r| - 10..] == ".undefined"
  {
    JsNumberText(Chapter(v)) + "." + JsNumberText(VerseNo(v))
  }

  /** The id "<chapter>.<verse>" as the Python scripts write it. */
  function PyId(v: RawVerse): (r: string)
    ensures Chapter(v).Some? && VerseNo(v).Some? ==> r == IntText(Chapter(v).value) + "." + IntText(VerseNo(v).value)
    ensures Chapter(v).None? ==> |r| > 5 && r[..5] == "None."
    ensures VerseNo(v).None? ==> |r| > 5 && r[|r| - 5..] == ".None"
  {
    PyNumberText(Chapter(v)) + "." + PyNumberText(VerseNo(v))
  }

  /** `translation || text`. */
  function TsTranslation(v: RawVerse): (r: string)
    ensures v.translation.Some? && v.translation.value != "" ==> r == v.translation.value
    ensures r == v.text <==> v.translation.None? || v.translation == Some("") || v.translation == Some(v.text)
  {
    OrString(v.translation, v.text)
  }

  /** `v.get("translation", v["text"])`. */
  function PyTranslation(v: RawVerse): (r: string)
    ensures v.translation.Some? ==> r == v.translation.value
    ensures r == v.text <==> v.translation.None? || v.translation == Some(v.text)
  {
    GetOr(v.translation, v.text)
  }

  /** The metadata the route attaches to a verse when it seeds the collection. */
  function TsMetadata(v: RawVerse): (md: Metadata)
    ensures md.id == JsNumberText(md.chapter) + "." + JsNumberText(md.verse)
    ensures md.chapter == Chapter(v) && md.verse == VerseNo(v) && md.text == v.text
    ensures md.translation == TsTranslation(v)
    ensures md.transliteration == "" <==> v.transliteration.None? || v.transliteration == Some("")
    ensures md.wordMeanings == "" <==> v.wordMeanings.None? || v.wordMeanings == Some("")
    ensures md.transliteration == OrString(v.transliteration, "") && md.wordMeanings == OrString(v.wordMeanings, "")
  {
    Metadata(TsId(v), Chapter(v), VerseNo(v), v.text, TsTranslation(v),
             OrString(v.transliteration, ""), OrString(v.wordMeanings, ""))
  }

  /** The metadata the Python server attaches to a verse when it rebuilds the collection. */
  function PyMetadata(v: RawVerse): (md: Metadata)
    ensures md.id == PyNumberText(md.chapter) + "." + PyNumberText(md.verse)
    ensures md.chapter == Chapter(v) && md.verse == VerseNo(v) && md.text == v.text
    ensures md.translation == PyTranslation(v)
    ensures md.transliteration == v.transliteration.GetOr("") && md.wordMeanings == v.wordMeanings.GetOr("")
  {
    Metadata(PyId(v), Chapter(v), VerseNo(v), v.text, PyTranslation(v),
             GetOr(v.transliteration, ""), GetOr(v.wordMeanings, ""))
  }

  /** One verse of a grounding prompt: "<id>: <translation>". */
  function VerseLine(md: Metadata): string {
    md.id + ": " + md.translation
  }

  /** One "<id>: <translation>" line per retrieved verse, in rank order. */
  function VerseLines(mds: seq<Metadata>): (r: seq<string>)
    ensures |r| == |mds| && forall k :: 0 <= k < |mds| ==> r[k] == VerseLine(mds[k])
  {
    seq(|mds|, k requires 0 <= k < |mds| => VerseLine(mds[k]))
  }

  /** The metadata of the filled slots of a query result, in rank order. */
  function KeepPresent(slots: seq<Option<Metadata>>): (r: seq<Metadata>)
    ensures |r| <= |slots|
    ensures forall m :: m in r <==> Some(m) in slots
    ensures (forall k :: 0 <= k < |slots| ==> slots[k].Some?) ==>
              |r| == |slots| && forall k :: 0 <= k < |r| ==> r[k] == slots[k].value
  {
    if |slots| == 0 then []
    else
      var rest := KeepPresent(slots[1..]);
      assert forall m :: Some(m) in slots <==> Some(m) == slots[0] || Some(m) in slots[1..];
      match slots[0]
      case None => rest
      case Some(m) => [m] + rest
  }

  /** Filtering keeps the relative order: it distributes over concatenation. */
  lemma {:induction false} KeepPresentAppend(a: seq<Option<Metadata>>, b: seq<Option<Metadata>>)
    ensures KeepPresent(a + b) == KeepPresent(a) + KeepPresent(b)
  {
    if |a| > 0 {
      assert (a + b)[1..] == a[1..] + b;
      KeepPresentAppend(a[1..], b);
    } else {
      assert a + b == b;
    }
  }

  // ---------------------------------------------------------------------------
  // Where the two runtimes' normalisations differ

  /** The route's and the scripts' ids agree exactly when both numbering fallbacks yield a number. */
  lemma IdsAgree(v: RawVerse)
    ensures TsId(v) == PyId(v) <==> Chapter(v).Some? && VerseNo(v).Some?
  {
    var c, n := Chapter(v), VerseNo(v);
    if c.None? {
      assert TsId(v)[0] == 'u' && PyId(v)[0] == 'N';
    } else if n.None? {
      var p := IntText(c.value) + ".";
      assert TsId(v) == p + "undefined" && PyId(v) == p + "None";
      assert |TsId(v)| != |PyId(v)|;
    }
  }

  /** `translation || text` and `get("translation", text)` differ only on a present empty translation. */
  lemma TranslationsAgree(v: RawVerse)
    ensures TsTranslation(v) == PyTranslation(v) <==> !(v.translation == Some("") && v.text != "")
  {
  }

  /** The two stored metadata records coincide exactly when the ids and translations do. */
  lemma MetadataAgree(v: RawVerse)
    ensures TsMetadata(v) == PyMetadata(v) <==>
              Chapter(v).Some? && VerseNo(v).Some? && !(v.translation == Some("") && v.text != "")
  {
    IdsAgree(v);
    TranslationsAgree(v);
    assert OrString(v.transliteration, "") == GetOr(v.transliteration, "");
    assert OrString(v.wordMeanings, "") == GetOr(v.wordMeanings, "");
  }
}
