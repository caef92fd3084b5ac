/**
 * The offline script that prepares the corpus for embedding on the local
 * machine: one document per verse for the embedding model, and a reduced
 * metadata record per verse saved beside the embeddings. Loading the corpus,
 * running the model and writing the two files are not modelled.
 */
module OfflineMetadata {
  import opened Wrappers
  import opened Verses
  import Backend

  /** One record of the saved metadata file: the stored metadata without the word meanings. */
  datatype SavedMeta = SavedMeta(
    id: string,
    chapter: Option<int>,
    verse: Option<int>,
    translation: string,
    transliteration: string,
    text: string)

  /** The documents handed to the embedding model, one per verse in corpus order. */
  function Docs(raw: seq<RawVerse>): (docs: seq<string>)
    ensures |docs| == |raw|
    ensures forall i :: 0 <= i < |raw| ==>
              (raw[i].translation.Some? ==> docs[i] == raw[i].translation.value)
              && (raw[i].translation.None? ==> docs[i] == raw[i].text)
  {
    seq(|raw|, i requires 0 <= i < |raw| => PyTranslation(raw[i]))
  }

  /** The stored metadata record with its word meanings dropped. */
  function Reduced(md: Metadata): SavedMeta {
    SavedMeta(md.id, md.chapter, md.verse, md.translation, md.transliteration, md.text)
  }

  /**
   * The record saved for one verse: the metadata the server stores for the
   * same verse, without its word meanings.
   */
  function SavedRecord(v: RawVerse): (r: SavedMeta)
    ensures r == Reduced(PyMetadata(v))
  {
    SavedMeta(PyId(v), Chapter(v), VerseNo(v), PyTranslation(v), GetOr(v.transliteration, ""), v.text)
  }

  /**
   * The saved metadata: one record per verse, in the order of the documents.
   * The id is "<chapter>.<verse>" of the record's own chapter and verse
   * fields, which fall back from the number to the order field; the
   * translation is the verse's document; a missing transliteration is "".
   */
  function Meta(raw: seq<RawVerse>): (meta: seq<SavedMeta>)
    ensures |meta| == |raw|
    ensures forall i :: 0 <= i < |raw| ==>
              meta[i].id == PyNumberText(meta[i].chapter) + "." + PyNumberText(meta[i].verse)
              && meta[i].chapter == Chapter(raw[i]) && meta[i].verse == VerseNo(raw[i])
              && meta[i].translation == Docs(raw)[i] && meta[i].text == raw[i].text
              && (raw[i].transliteration.None? ==> meta[i].transliteration == "")
              && (raw[i].transliteration.Some? ==> meta[i].transliteration == raw[i].transliteration.value)
  {
    seq(|raw|, i requires 0 <= i < |raw| => SavedRecord(raw[i]))
  }

  /**
   * The offline files agree with what the server stores: the documents are
   * the stored documents and each saved record is the stored metadata
   * without its word meanings.
   */
  lemma OfflineMatchesServer(raw: seq<RawVerse>)
    ensures var es := Backend.ServerEntries(raw);
            (forall i :: 0 <= i < |raw| ==> Docs(raw)[i] == es[i].document)
            && forall i :: 0 <= i < |raw| ==> Meta(raw)[i] == Reduced(es[i].metadata)
  {
  }

  /** A saved id equals the one the route writes exactly when both numbers are present. */
  lemma SavedIdMatchesRoute(raw: seq<RawVerse>, i: nat)
    requires i < |raw|
    ensures Meta(raw)[i].id == TsId(raw[i]) <==> Chapter(raw[i]).Some? && VerseNo(raw[i]).Some?
  {
    IdsAgree(raw[i]);
  }
}
