/**
 * The two external services, reduced to what the core observes of them: the
 * vector store as a map from collection name to its entries, and the
 * text-generation endpoint as the HTTP status and decoded body it returns.
 */
module Services {
  import opened Wrappers
  import opened Verses

  /** The collection that the route and the server both read and fill. */
  const CollectionName: string := "gita"

  /** One stored document with its id and metadata (its embedding is not modelled). */
  datatype Entry = Entry(id: string, document: string, metadata: Metadata)

  /** The entries one `add` call stores: the i-th id, document and metadata together. */
  function Zip(ids: seq<string>, docs: seq<string>, metadatas: seq<Metadata>): (es: seq<Entry>)
    requires |ids| == |docs| == |metadatas|
    ensures |es| == |ids|
    ensures forall i :: 0 <= i < |ids| ==> es[i].id == ids[i] && es[i].document == docs[i] && es[i].metadata == metadatas[i]
  {
    seq(|ids|, i requires 0 <= i < |ids| => Entry(ids[i], docs[i], metadatas[i]))
  }

  /** A vector-store client: named collections of entries in insertion order. */
  class Store {
    var collections: map<string, seq<Entry>>

    constructor (initial: map<string, seq<Entry>>)
      ensures collections == initial
    {
      collections := initial;
    }

    /** Whether `getCollection` / `get_collection` succeeds (it fails for an unknown name). */
    method GetCollection(name: string) returns (found: bool)
      ensures found <==> name in collections
    {
      found := name in collections;
    }

    /** `createCollection` / `create_collection`: a new, empty collection. */
    method CreateCollection(name: string)
      requires name !in collections
      modifies this
      ensures collections == old(collections)[name := []]
    {
      collections := collections[name := []];
    }

    /** `delete_collection`. */
    method DeleteCollection(name: string)
      requires name in collections
      modifies this
      ensures collections == old(collections) - {name}
    {
      collections := collections - {name};
    }

    /** `add`: appends one entry per index of the three parallel lists. */
    method Add(name: string, ids: seq<string>, docs: seq<string>, metadatas: seq<Metadata>)
      requires name in collections
      requires |ids| == |docs| == |metadatas|
      modifies this
      ensures collections == old(collections)[name := old(collections)[name] + Zip(ids, docs, metadatas)]
    {
      collections := collections[name := collections[name] + Zip(ids, docs, metadatas)];
    }
  }

  /** One element of the generation endpoint's JSON list; `None` when it has no "generated_text" key. */
  datatype Completion = Completion(generatedText: Option<string>)

  /** The decoded response body. */
  datatype Body =
    | List(items: seq<Completion>)   // a JSON array of completion objects
    | NotAList                       // any other JSON value
    | Unparsable                     // not JSON at all

  /** What the generation endpoint answers to one prompt. */
  datatype Generation = Generation(status: int, body: Body)
}
