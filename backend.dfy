/**
 * The FastAPI server: at start-up it normalises the corpus into three
 * parallel lists and rebuilds the "gita" collection from them; each query
 * then assembles a line-based prompt from the retrieved metadata and
 * validates the text-generation endpoint's answer. Python exceptions are
 * results of type `Outcome`.
 */
module Backend {
  import opened Wrappers
  import opened Text
  import opened Verses
  import opened Services
  import QueryRoute

  /** The exceptions the modelled code raises. */
  datatype PyError =
    | IndexError                  // `raw_verses[0]` on an empty corpus
    | TypeError                   // `md['id']` on a result slot without metadata
    | ValueError(message: string) // the access token is not configured
    | HTTPError(status: int)      // `raise_for_status` on a 4xx or 5xx status
    | JSONDecodeError             // the response body is not JSON
    | RuntimeError                // the body is not a non-empty list

  /** What a request handler returns or raises. */
  datatype Outcome = Answer(answer: string) | Raised(error: PyError)

  const MissingToken: string := "HF_API_TOKEN environment variable is not set"
  // The fixed prompt lines, written in pieces so that the verifier can see they hold no newline.
  const VersesHeading: string := "Here are relevant " + "verses:"
  const AnswerRequest: string := "Based on these, " + "provide a helpful, " + "concise answer:"

  // ---------------------------------------------------------------------------
  // Start-up

  /** The loop over the corpus: one id, document and metadata record per verse, in corpus order. */
  method PrepareLists(raw: seq<RawVerse>) returns (ids: seq<string>, docs: seq<string>, metadatas: seq<Metadata>)
    ensures |ids| == |docs| == |metadatas| == |raw|
    ensures forall i :: 0 <= i < |raw| ==>
              ids[i] == PyId(raw[i]) && docs[i] == PyTranslation(raw[i]) && metadatas[i] == PyMetadata(raw[i])
  {
    ids, docs, metadatas := [], [], [];
    for n := 0 to |raw|
      invariant |ids| == |docs| == |metadatas| == n
      invariant forall i :: 0 <= i < n ==>
                  ids[i] == PyId(raw[i]) && docs[i] == PyTranslation(raw[i]) && metadatas[i] == PyMetadata(raw[i])
    {
      var v := raw[n];
      var chap := OrNumber(v.chapterNumber, v.chapterId);
      var verse := OrNumber(v.verseNumber, v.verseOrder);
      var uid := PyNumberText(chap) + "." + PyNumberText(verse);
      var translation := GetOr(v.translation, v.text);
      ServerFields(v);
      ids := ids + [uid];
      docs := docs + [translation];
      metadatas := metadatas + [Metadata(uid, chap, verse, v.text, translation,
                                         GetOr(v.transliteration, ""), GetOr(v.wordMeanings, ""))];
    }
  }

  /** The server's id, document and metadata of a verse, written out field by field as the loop computes them. */
  lemma ServerFields(v: RawVerse)
    ensures PyId(v) == PyNumberText(OrNumber(v.chapterNumber, v.chapterId)) + "." + PyNumberText(OrNumber(v.verseNumber, v.verseOrder))
    ensures PyTranslation(v) == GetOr(v.translation, v.text)
    ensures PyMetadata(v) == Metadata(PyId(v), Chapter(v), VerseNo(v), v.text, PyTranslation(v),
                                      GetOr(v.transliteration, ""), GetOr(v.wordMeanings, ""))
  {
  }

  /** The entries the server stores: verse `i` as id, document and metadata. */
  function ServerEntries(raw: seq<RawVerse>): (es: seq<Entry>)
    ensures |es| == |raw|
    ensures forall i :: 0 <= i < |raw| ==>
              es[i].id == es[i].metadata.id == PyId(raw[i])
              && es[i].document == es[i].metadata.translation
              && es[i].metadata.text == raw[i].text
              && (raw[i].translation.Some? ==> es[i].document == raw[i].translation.value)
              && (raw[i].translation.None? ==> es[i].document == raw[i].text)
  {
    seq(|raw|, i requires 0 <= i < |raw| => Entry(PyId(raw[i]), PyTranslation(raw[i]), PyMetadata(raw[i])))
  }

  /** The lists the loop builds, stored together, are the server's entries. */
  lemma PreparedListsZip(raw: seq<RawVerse>, ids: seq<string>, docs: seq<string>, metadatas: seq<Metadata>)
    requires |ids| == |docs| == |metadatas| == |raw|
    requires forall i :: 0 <= i < |raw| ==>
               ids[i] == PyId(raw[i]) && docs[i] == PyTranslation(raw[i]) && metadatas[i] == PyMetadata(raw[i])
    ensures Zip(ids, docs, metadatas) == ServerEntries(raw)
  {
  }

  /**
   * The server and the route store the same entries exactly when every verse
   * has both numbers and no present-but-empty translation next to a
   * non-empty text.
   */
  lemma ServerMatchesRouteSeed(raw: seq<RawVerse>)
    ensures ServerEntries(raw) ==
              Zip(QueryRoute.SeedIds(raw), QueryRoute.SeedDocs(raw), QueryRoute.SeedMetadatas(raw))
            <==>
            forall i :: 0 <= i < |raw| ==>
              Chapter(raw[i]).Some? && VerseNo(raw[i]).Some? && !(raw[i].translation == Some("") && raw[i].text != "")
  {
    var route := Zip(QueryRoute.SeedIds(raw), QueryRoute.SeedDocs(raw), QueryRoute.SeedMetadatas(raw));
    forall i | 0 <= i < |raw|
      ensures ServerEntries(raw)[i] == route[i] <==>
                Chapter(raw[i]).Some? && VerseNo(raw[i]).Some? && !(raw[i].translation == Some("") && raw[i].text != "")
    {
      MetadataAgree(raw[i]);
    }
    if forall i :: 0 <= i < |raw| ==>
         Chapter(raw[i]).Some? && VerseNo(raw[i]).Some? && !(raw[i].translation == Some("") && raw[i].text != "") {
      assert forall i :: 0 <= i < |raw| ==> ServerEntries(raw)[i] == route[i];
    }
  }

  /** Delete "gita" if it exists, then create it and add the prepared lists. */
  method ResetCollection(store: Store, ids: seq<string>, docs: seq<string>, metadatas: seq<Metadata>)
    requires |ids| == |docs| == |metadatas|
    modifies store
    ensures store.collections == old(store.collections)[CollectionName := Zip(ids, docs, metadatas)]
  {
    var found := store.GetCollection(CollectionName);
    if found {
      store.DeleteCollection(CollectionName);
    }
    store.CreateCollection(CollectionName);
    store.Add(CollectionName, ids, docs, metadatas);
    assert [] + Zip(ids, docs, metadatas) == Zip(ids, docs, metadatas);
  }

  /**
   * The module-level start-up. Printing the first raw verse fails on an
   * empty corpus before the store is touched; otherwise "gita" ends up
   * holding exactly this run's entries, whatever it held before.
   */
  method Startup(store: Store, raw: seq<RawVerse>) returns (err: Option<PyError>)
    modifies store
    ensures |raw| == 0 ==> err == Some(IndexError) && store.collections == old(store.collections)
    ensures |raw| > 0 ==> err.None? && store.collections == old(store.collections)[CollectionName := ServerEntries(raw)]
  {
    var ids, docs, metadatas := PrepareLists(raw);
    if |raw| == 0 {
      return Some(IndexError);
    }
    ResetCollection(store, ids, docs, metadatas);
    PreparedListsZip(raw, ids, docs, metadatas);
    return None;
  }

  // ---------------------------------------------------------------------------
  // Answering a query

  /**
   * The prompt lines for the question `q` and the retrieved metadata: the
   * question, a blank line, the heading, one line per verse in rank order, a
   * blank line and the request.
   */
  function PyPromptLines(q: string, mds: seq<Metadata>): (lines: seq<string>)
    ensures |lines| == 5 + |mds|
    ensures lines[0] == "User asked: " + q && lines[1] == "" && lines[2] == VersesHeading
    ensures forall k :: 0 <= k < |mds| ==> lines[3 + k] == VerseLine(mds[k])
    ensures lines[3 + |mds|] == "" && lines[4 + |mds|] == AnswerRequest
  {
    ["User asked: " + q, "", VersesHeading] + VerseLines(mds) + ["", AnswerRequest]
  }

  /**
   * The prompt: its lines joined by newlines. When neither the question nor
   * a quoted id or translation holds a newline, splitting the prompt at
   * newlines gives the lines back.
   */
  function PyPrompt(q: string, mds: seq<Metadata>): (r: string)
    ensures '\n' !in q && (forall k :: 0 <= k < |mds| ==> '\n' !in mds[k].id && '\n' !in mds[k].translation) ==>
              Split(r, '\n') == PyPromptLines(q, mds)
  {
    var lines := PyPromptLines(q, mds);
    assert '\n' !in q && (forall k :: 0 <= k < |mds| ==> '\n' !in mds[k].id && '\n' !in mds[k].translation) ==>
             Split(Join(lines, '\n'), '\n') == lines by {
      if '\n' !in q && forall k :: 0 <= k < |mds| ==> '\n' !in mds[k].id && '\n' !in mds[k].translation {
        PyLinesOneLine(q, mds);
        SplitJoin(lines, '\n');
      }
    }
    Join(lines, '\n')
  }

  /** No prompt line holds a newline when the question and the quoted fields hold none. */
  lemma PyLinesOneLine(q: string, mds: seq<Metadata>)
    requires '\n' !in q
    requires forall k :: 0 <= k < |mds| ==> '\n' !in mds[k].id && '\n' !in mds[k].translation
    ensures forall i :: 0 <= i < |PyPromptLines(q, mds)| ==> '\n' !in PyPromptLines(q, mds)[i]
  {
    var xs := PyPromptLines(q, mds);
    assert '\n' !in VersesHeading && '\n' !in AnswerRequest;
    forall i | 0 <= i < |xs| ensures '\n' !in xs[i] {
      if 3 <= i < 3 + |mds| {
        assert xs[i] == VerseLine(mds[i - 3]);
      }
    }
  }

  /** The metadata of result slots that are all filled. */
  function Unwrapped(slots: seq<Option<Metadata>>): (mds: seq<Metadata>)
    requires forall k :: 0 <= k < |slots| ==> slots[k].Some?
    ensures |mds| == |slots| && forall k :: 0 <= k < |slots| ==> slots[k] == Some(mds[k])
  {
    seq(|slots|, k requires 0 <= k < |slots| => slots[k].value)
  }

  /** The lines are built by appending, one per retrieved slot; a slot without metadata raises `TypeError`. */
  method AssemblePromptLines(q: string, retrieved: seq<Option<Metadata>>) returns (r: Option<seq<string>>)
    ensures r.Some? <==> forall k :: 0 <= k < |retrieved| ==> retrieved[k].Some?
    ensures r.Some? ==> r.value == PyPromptLines(q, Unwrapped(retrieved))
  {
    var head := ["User asked: " + q, "", VersesHeading];
    var lines := head;
    for k := 0 to |retrieved|
      invariant forall j :: 0 <= j < k ==> retrieved[j].Some?
      invariant lines == head + VerseLines(Unwrapped(retrieved[..k]))
    {
      match retrieved[k]
      case None =>
        return None;
      case Some(md) =>
        assert Unwrapped(retrieved[..k + 1]) == Unwrapped(retrieved[..k]) + [md];
        VerseLinesSnoc(Unwrapped(retrieved[..k]), md);
        lines := lines + [md.id + ": " + md.translation];
    }
    assert retrieved[..|retrieved|] == retrieved;
    r := Some(lines + ["", AnswerRequest]);
  }

  lemma VerseLinesSnoc(mds: seq<Metadata>, md: Metadata)
    ensures VerseLines(mds + [md]) == VerseLines(mds) + [VerseLine(md)]
  {
  }

  /** With every slot filled, the lines quote the retrieved verses as the route's filter would keep them. */
  lemma UnwrappedKeepsAll(slots: seq<Option<Metadata>>)
    requires forall k :: 0 <= k < |slots| ==> slots[k].Some?
    ensures Unwrapped(slots) == KeepPresent(slots)
  {
  }

  /** Whether the access token is configured: `if not hf_token` rejects a missing or empty one. */
  predicate HasToken(token: Option<string>) {
    token.Some? && token.value != ""
  }

  /** `raise_for_status`, decoding, the shape check and `generated_text` with its default. */
  function ParseGeneration(g: Generation): (r: Outcome)
    ensures r.Answer? <==> !(400 <= g.status <= 599) && g.body.List? && |g.body.items| > 0
    ensures r == Raised(HTTPError(g.status)) <==> 400 <= g.status <= 599
    ensures r == Raised(RuntimeError) <==>
              !(400 <= g.status <= 599) && (g.body.NotAList? || g.body == List([]))
    ensures r.Answer? ==> PyStrip(r.answer) == r.answer
    ensures r.Answer? && g.body.items[0].generatedText.None? ==> r.answer == ""
    ensures r.Answer? ==> r.answer == PyStrip(g.body.items[0].generatedText.GetOr(""))
    ensures r == Raised(JSONDecodeError) <==> !(400 <= g.status <= 599) && g.body.Unparsable?
  {
    if 400 <= g.status <= 599 then Raised(HTTPError(g.status))
    else
      match g.body
      case Unparsable => Raised(JSONDecodeError)
      case NotAList => Raised(RuntimeError)
      case List(items) =>
        if |items| == 0 then Raised(RuntimeError)
        else
          var text := items[0].generatedText.GetOr("");
          TrimIdempotent(text, IsPySpace);
          Answer(PyStrip(text))
  }

  /** The generation endpoint, called with the prompt and the access token. */
  type Endpoint = (string, string) -> Generation

  /**
   * `query_verses` on the retrieved slots. `sent` lists the prompts posted
   * to the endpoint: none when a slot has no metadata or the token is
   * missing, otherwise exactly the assembled prompt.
   */
  method QueryVerses(q: string, retrieved: seq<Option<Metadata>>, token: Option<string>, post: Endpoint)
    returns (r: Outcome, sent: seq<string>)
    ensures (exists k :: 0 <= k < |retrieved| && retrieved[k].None?) ==> r == Raised(TypeError) && sent == []
    ensures (forall k :: 0 <= k < |retrieved| ==> retrieved[k].Some?) && !HasToken(token) ==>
              r == Raised(ValueError(MissingToken)) && sent == []
    ensures (forall k :: 0 <= k < |retrieved| ==> retrieved[k].Some?) && HasToken(token) ==>
              sent == [PyPrompt(q, Unwrapped(retrieved))] && r == ParseGeneration(post(sent[0], token.value))
  {
    var lines := AssemblePromptLines(q, retrieved);
    if lines.None? {
      return Raised(TypeError), [];
    }
    var prompt := Join(lines.value, '\n');
    if !HasToken(token) {
      return Raised(ValueError(MissingToken)), [];
    }
    var g := post(prompt, token.value);
    sent := [prompt];
    r := ParseGeneration(g);
  }
}
