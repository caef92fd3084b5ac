# Dharma-Bot: a Dafny model of the question-answering core

Dharma-Bot answers questions about the Bhagavad Gita. It has three parts, and this project models each one.

- **The Next.js route `POST /api/query`.** A question that asks for "chapter N verse M" is answered straight from the verse corpus. Any other question is answered by retrieval-augmented generation: the route takes the three nearest verses from a vector-store collection named "gita", builds a grounding prompt from them, and sends it to a hosted text-generation endpoint. On first import the route seeds the "gita" collection when it does not exist yet.
- **The FastAPI server.** At start-up it normalises the corpus into three parallel lists, then deletes and rebuilds the "gita" collection from them. Its `/query` handler builds a line-based prompt and checks the endpoint's answer.
- **The offline embedding script.** It embeds one document per verse and saves the embeddings together with a metadata file holding a reduced record per verse.

Modules:

- `Wrappers` (`wrappers.dfy`): an `Option` type.
- `Text` (`text.dfy`):
  - JavaScript's `trim`, `\s` and `.`, and Python's `strip`;
  - ASCII case mapping;
  - decimal numerals and `parseInt`;
  - `join` and `split`.
- `Verses` (`verses.dfy`): the raw corpus entry and the numbering and translation fallbacks. JavaScript's `||` and Python's `or` skip a zero or an empty string. Python's `dict.get` falls back only on a missing key. Lemmas state exactly when the two runtimes' ids, translations and metadata agree.
- `Services` (`services.dfy`): the vector store as a class holding a map from collection name to entries, and the generation endpoint's reply as a status plus a decoded body.
- `ReferenceMatcher` (`matcher.dfy`): a model of the regular expression `/.*chapter\s+(\d+)\s+verse\s+(\d+).*/`.
  - Start positions are tried from left to right.
  - Each `\s+` and `\d+` takes its longest run.
  - The greedy leading `.*` stays within one line.
  - The model proves that matching is sound and complete with respect to a declarative fit of the tokens.
  - It proves that the reported phrase is the last one on the first line that has any.
  - It proves that writing "chapter C verse V" parses back to `(C, V)`.
- `QueryRoute` (`route.dfy`): the route's handler as a function of:
  - the question;
  - the corpus;
  - the store's search, a parameter;
  - the endpoint, a parameter.

  It also models the seeding block, as a method on the store.
- `Backend` (`backend.dfy`): the server's start-up as methods on the store, and the query handler as a method with a loop that builds the prompt lines. Python exceptions are modelled as results.
- `OfflineMetadata` (`offline.dfy`): the embedding script's documents and saved metadata.

Behaviour worth knowing in advance:

- **Numbering fallback.** Both runtimes use `||` and `or`, so a chapter or verse number of `0` also falls back to the alternate field. An entry with neither number is not rejected: its id contains `undefined` (route) or `None` (server).
- **Translation fallback.** The route uses `translation || text`, which also replaces an empty translation. The Python code uses `get("translation", text)`, which keeps it.
- **Apology text.** The route's apology is "Sorry, I couldn’t find that verse in the Gita." with the typographic apostrophe U+2019.
- **Malformed questions.** An empty question is not rejected by either handler. It goes to retrieval like any other question.
- **Question text in the prompt.** The server's prompt quotes the question untrimmed. The route trims it.
- **Unreachable endpoint.** A `fetch` that rejects (src/app/api/query/route.ts:110) is not caught, so the route then writes no JSON reply at all, not even the 500 generation error; only a response with a non-2xx status gets that.
- **Empty corpus.** Only the server fails on an empty corpus: an `IndexError` when it prints the first verse. The route seeds an empty collection.

## Model

| member | source | states |
|---|---|---|
| Text.TrimBounds | src/app/api/query/route.ts:65 | The bounds it returns form a trim window: everything outside is white space, and the kept text starts and ends with a non-space. |
| Text.TrimWindowUnique | src/app/api/query/route.ts:65 | Every trim window selects the same text, so `trim` is fully determined by that characterisation. |
| Text.TrimIgnoresPadding | src/app/api/query/route.ts:65 | Adding white space on either side does not change the trimmed question. |
| Text.TrimIdempotent | backend/main.py:130 | Trimming an already trimmed answer changes nothing. |
| Text.AsciiLower | src/app/api/query/route.ts:66 | Lower-casing keeps the length of the question. |
| Text.LowerTrimCommute | src/app/api/query/route.ts:65-66 | Lower-casing and trimming commute: lower-casing changes no character's white-space status. |
| Text.LowerOfUpper | src/app/api/query/route.ts:66 | Lower-casing an upper-cased question gives the same text as lower-casing the original. |
| Text.LowerOfLower | src/app/api/query/route.ts:66 | Text without upper-case ASCII letters is its own lower case. |
| Text.Decimal | src/app/api/query/route.ts:44 | A number is written as a non-empty string of digits. It starts with `0` exactly when it is 0, so it has no leading zero. |
| Text.DigitsValue | src/app/api/query/route.ts:71-72 | `parseInt` of a digit string reads 0 exactly when every digit is `0`. |
| Text.NumeralRoundTrip | src/app/api/query/route.ts:71-72 | A numeral without a leading zero is exactly how the number it reads is written back. |
| Text.DecimalRoundTrip | src/app/api/query/route.ts:71-72 | `parseInt` of a written numeral gives the number back. |
| Text.IntText | backend/main.py:27 | An interpolated integer is never empty, and it starts with `-` exactly when the integer is negative. |
| Text.IntTextDigits | src/app/api/query/route.ts:44 | After the sign, an interpolated integer is the numeral of its absolute value, with no leading zero. |
| Text.JsTrim | src/app/api/query/route.ts:65 | The trimmed question is the text of a trim window: JavaScript white space outside it, none at either end inside it. |
| Text.PyStrip | backend/main.py:130 | The stripped answer is the text of a trim window for Python's white space. |
| Text.Join | backend/main.py:101 | Joining no lines gives the empty string. Otherwise the join starts with the first line, followed by the separator when there are more lines. |
| Text.JoinAppend | backend/main.py:101 | Joining two non-empty lists puts exactly one separator between their joins. |
| Text.SplitJoin | backend/main.py:101 | Splitting a newline-join of lines that hold no newline gives the lines back. |
| Verses.OrNumber | src/app/api/query/route.ts:44 | `a || b` (and Python's `a or b`) on numbers gives one of the two operands. It gives the first exactly when the first is a non-zero number or both are equal. |
| Verses.OrString | src/app/api/query/route.ts:46 | `a || b` on strings: a non-empty first operand wins. The result is one of the operands, and it is empty only when both are missing or empty. |
| Verses.GetOr | backend/main.py:29 | `dict.get(key, default)` keeps a present value, even an empty one. Only a missing key gives the default. |
| Verses.TsId | src/app/api/query/route.ts:44 | The route's id is `<chapter>.<verse>` of the two fallbacks. A missing number is written `undefined`. |
| Verses.PyId | backend/main.py:25-27 | The server's id is `<chapter>.<verse>` of the two fallbacks. A missing number is written `None`. |
| Verses.TsTranslation | src/app/api/query/route.ts:46 | A non-empty translation is kept. The result is the text exactly when the translation is missing or empty, or equals the text. |
| Verses.PyTranslation | backend/main.py:29 | A present translation is kept, even an empty one. The result is the text exactly when the translation is missing or equals the text. |
| Verses.TsMetadata | src/app/api/query/route.ts:47-55 | The route's record has the id `<chapter>.<verse>` of its own chapter and verse fields, and the verse's text and route translation. Its transliteration and word meanings are `v.transliteration || ''` and `v.word_meanings || ''`: a present non-empty value is kept, and the field is empty exactly when missing or empty. |
| Verses.PyMetadata | backend/main.py:30-38 | The server's record has the id `<chapter>.<verse>` of its own chapter and verse fields, and the verse's text and server translation. A missing transliteration or word meanings is `""`; a present one is kept. |
| Verses.VerseLines | src/app/api/query/route.ts:105 | There is one `<id>: <translation>` line per retrieved verse, in rank order. |
| Verses.KeepPresent | src/app/api/query/route.ts:99-100 | Filtering out null slots keeps exactly the present metadata. It keeps all of them, in order, when every slot is filled. |
| Verses.KeepPresentAppend | src/app/api/query/route.ts:99-100 | The filter keeps relative order: it distributes over concatenation. |
| Verses.IdsAgree | src/app/api/query/route.ts:44 | The route's and the server's ids agree exactly when both numbering fallbacks give a number. |
| Verses.TranslationsAgree | src/app/api/query/route.ts:46 | The route's translation fallback (JavaScript `||`) and the server's `get("translation", text)` differ exactly on a present empty translation next to a non-empty text. |
| Verses.MetadataAgree | src/app/api/query/route.ts:47-55 | The route's and the server's metadata for a verse coincide exactly when both numbers are present and the translation is not a present empty string next to a non-empty text. |
| Services.Zip | backend/main.py:54 | One `add` call stores one entry per index of the three parallel lists. Entry i holds the i-th id, document and metadata. |
| Services.Store.constructor | backend/main.py:47 | A client starts from a given set of collections. |
| Services.Store.GetCollection | src/app/api/query/route.ts:34 | Getting a collection succeeds exactly when the name exists. |
| Services.Store.CreateCollection | src/app/api/query/route.ts:37-40 | Creating a collection adds an empty one under the name and changes nothing else. |
| Services.Store.DeleteCollection | backend/main.py:50 | Deleting removes exactly that collection. |
| Services.Store.Add | src/app/api/query/route.ts:58 | `add` appends the zipped entries to that collection only. |
| ReferenceMatcher.RunEnd | src/app/api/query/route.ts:69 | A `\s+` or `\d+` run from a position ends inside the text. |
| ReferenceMatcher.RunEndIsSpan | src/app/api/query/route.ts:69 | The matcher's run end is the same position as the longest-run scan used for trimming (`Text.SpanWhile`). |
| ReferenceMatcher.RunEndIsRun | src/app/api/query/route.ts:69 | Every character before the run's end belongs to the class, and the character at the end does not. |
| ReferenceMatcher.RunEndAt | src/app/api/query/route.ts:69 | A stretch of class characters followed by a non-class character or the end is exactly where the run ends. |
| ReferenceMatcher.MatchTokens | src/app/api/query/route.ts:69 | An anchored match returns one capture per `(\d+)` group. |
| ReferenceMatcher.MatchTokensComplete | src/app/api/query/route.ts:69 | Whenever the pattern's tokens fit the text (longest runs), the matcher finds that fit and captures its digit pieces. |
| ReferenceMatcher.MatchTokensSound | src/app/api/query/route.ts:69 | Whatever the matcher captures comes from a fit of the tokens. |
| ReferenceMatcher.CapturedDigits | src/app/api/query/route.ts:69 | Every capture of a fit is a non-empty run of digits. |
| ReferenceMatcher.PhraseAt | src/app/api/query/route.ts:69-72 | Both groups of an anchored match are non-empty digit strings, so `parseInt` always reads a number. |
| ReferenceMatcher.PhraseAtFinds | src/app/api/query/route.ts:69 | Take a text holding "chapter", white space, digits, white space, "verse", white space, digits, not followed by another digit. The pattern matches there and captures the two digit runs. |
| ReferenceMatcher.LastIn | src/app/api/query/route.ts:69 | The leading `.*` gives characters back until the pattern matches. The result is the highest position in the range that matches, or none. |
| ReferenceMatcher.ScanFrom | src/app/api/query/route.ts:69 | The scan over start positions returns a matching position, or none when no position from the start on matches. |
| ReferenceMatcher.MatchPosition | src/app/api/query/route.ts:69-70 | `match` succeeds exactly when the phrase occurs somewhere, and what it reports is an occurrence. |
| ReferenceMatcher.ScanChoosesLastOnLine | src/app/api/query/route.ts:69 | For any anchored test, the scan stops at the last position of the first line that has a passing one. |
| ReferenceMatcher.MatchIsLastOnFirstLine | src/app/api/query/route.ts:69 | Every earlier phrase is on the same line as the reported one, and no later phrase is. On a one-line question the reported phrase is the last. |
| ReferenceMatcher.VerseRequest | src/app/api/query/route.ts:69-72 | A chapter and verse are read exactly when the lower-cased question contains the phrase. The values read are those of the two digit groups of the phrase `MatchPosition` reports, which is the last phrase on the first line that has one. |
| QueryRoute.FindVerse | src/app/api/query/route.ts:73-77 | `find` returns the first verse whose fallback chapter and verse equal the request, or nothing when no verse has them. |
| QueryRoute.DirectAnswer | src/app/api/query/route.ts:78-87 | The answer is the first matching verse's translation, falling back to its text when the translation is absent or empty, or the apology when none matches. It is always a 200 reply with `used_verses: true`. |
| QueryRoute.RequestedVerse | src/app/api/query/route.ts:65-72 | The trimmed, lower-cased question has a request exactly when it contains the phrase. The request is the value of the two digit groups of the phrase `MatchPosition` reports in that normalised question. |
| QueryRoute.TsPrompt | src/app/api/query/route.ts:103-106 | The concatenated prompt is its line layout joined by newlines: the preamble, a blank line, the verse lines (one blank line when there are none), a blank line, the question and the instruction. |
| QueryRoute.FixedLinesOneLine | src/app/api/query/route.ts:104-106 | The preamble and the instruction hold no newline. |
| QueryRoute.TsPromptLinesOneLine | src/app/api/query/route.ts:103-106 | When the question, ids and translations hold no newline, no prompt line holds one. |
| QueryRoute.TsPromptShape | src/app/api/query/route.ts:103-106 | When the question, ids and translations hold no newline, the prompt's lines, in order, are: the preamble, a blank line, one line per verse (a single blank line when nothing was retrieved), a blank line, the question and the instruction. |
| QueryRoute.TsReply | src/app/api/query/route.ts:125-135 | A non-2xx status gives the 500 error reply, and only then. A 2xx status whose body has no first `generated_text` throws. Otherwise the reply is a 200 whose answer is that `generated_text`, trimmed. |
| QueryRoute.SemanticPrompt | src/app/api/query/route.ts:91-106 | The prompt sent is the line layout of the trimmed question and of the retrieved verses that carry metadata, in rank order. |
| QueryRoute.Post | src/app/api/query/route.ts:63-136 | A question with a reference gets `DirectAnswer` of the parsed chapter and verse, always a 200. Any other question gets `TsReply` of the endpoint's answer to the semantic prompt. Every JSON reply says `used_verses: true` and is a 200 or the 500 generation error. |
| QueryRoute.ReferenceBypassesServices | src/app/api/query/route.ts:69-88 | A question with a reference is answered with a 200 whatever the store and endpoint do: it never reaches them. |
| QueryRoute.SemanticPathReplies | src/app/api/query/route.ts:91-135 | Without a reference, the reply is the 500 error exactly when the endpoint's status is not 2xx. A reply to a 2xx status is a 200. |
| QueryRoute.PromptQuotesAtMostThree | src/app/api/query/route.ts:91-100 | The prompt quotes at most three verses when the store honours `nResults: 3`. |
| QueryRoute.PaddingIrrelevant | src/app/api/query/route.ts:65 | White space around the question changes neither the routing nor the reply. |
| QueryRoute.CaseIrrelevantToRouting | src/app/api/query/route.ts:65-70 | Questions equal up to ASCII case route alike and get the same direct answer. |
| QueryRoute.UpperCaseRoutesAlike | src/app/api/query/route.ts:66-70 | An upper-cased question is routed like the original. |
| QueryRoute.PhraseStartsWithChapter | src/app/api/query/route.ts:69 | A match starts with "chapter". |
| QueryRoute.ReferenceQuestionLetters | src/app/api/query/route.ts:69 | "chapter C verse V" starts with 'c', ends with a digit, and has no other 'c' and no upper-case letter. |
| QueryRoute.ReferenceQuestionNormal | src/app/api/query/route.ts:65-66 | "chapter C verse V" is unchanged by trimming and lower-casing. |
| QueryRoute.ReferenceQuestionPhrases | src/app/api/query/route.ts:69 | In "chapter C verse V" the pattern matches at the start, capturing C and V, and nowhere else. |
| QueryRoute.NoPhrasePastStart | src/app/api/query/route.ts:69 | A text with no 'c' after its first character has no match past the start. |
| QueryRoute.ReferenceQuestionParses | src/app/api/query/route.ts:69-72 | The question "chapter C verse V" is parsed back to `(C, V)` for every C and V. |
| QueryRoute.ReferenceQuestionAnswered | src/app/api/query/route.ts:69-87 | Asking "chapter C verse V" returns the first verse numbered (C, V), or the apology when there is none. The reply is always a 200. |
| QueryRoute.SeedIds | src/app/api/query/route.ts:43-45 | There is one id per verse, in corpus order, written with the JavaScript fallbacks. |
| QueryRoute.SeedDocs | src/app/api/query/route.ts:46 | There is one document per verse: the translation, or the text when the translation is absent or empty. |
| QueryRoute.SeedMetadatas | src/app/api/query/route.ts:47-55 | There is one metadata record per verse. |
| QueryRoute.SeedListsAligned | src/app/api/query/route.ts:43-55 | The three seeded lists have the corpus's length, and entry i of each describes verse i. The id and document equal the metadata's id and translation, and missing optional fields become "". |
| QueryRoute.Seeded | src/app/api/query/route.ts:32-60 | After seeding, "gita" exists and no other collection has changed. An existing "gita" is kept as it was. A new one holds one entry per verse, in corpus order. |
| QueryRoute.SeedingIdempotent | src/app/api/query/route.ts:32-60 | Seeding twice is seeding once. |
| QueryRoute.SeedIndex | src/app/api/query/route.ts:32-60 | The start-up block leaves the store as `Seeded` describes: untouched when "gita" exists, otherwise with a new "gita" holding every verse. |
| Backend.PrepareLists | backend/main.py:23-38 | The loop builds three lists of the corpus's length, whose i-th elements are verse i's id, document and metadata. |
| Backend.ServerEntries | backend/main.py:23-38 | Each stored id is the metadata's id, and each document is the metadata's translation. That translation is the raw translation when present, else the text. |
| Backend.PreparedListsZip | backend/main.py:54 | The lists the loop builds, zipped by `add`, are the server's entries. |
| Backend.ServerMatchesRouteSeed | backend/main.py:23-38 | The server and the route store the same entries exactly when every verse has both numbers and no present empty translation next to a non-empty text. |
| Backend.ResetCollection | backend/main.py:47-54 | Afterwards "gita" holds exactly the new entries, whatever it held before, and every other collection is unchanged. |
| Backend.Startup | backend/main.py:23-54 | An empty corpus raises `IndexError` before the store is touched. Otherwise "gita" ends up holding exactly the entries of this run. |
| Backend.Unwrapped | backend/main.py:95-96 | When every slot is filled, each retrieved metadata record is read in order. |
| Backend.AssemblePromptLines | backend/main.py:90-100 | The lines are built exactly when every slot holds metadata, and they are then the question, a blank line, the heading, one line per verse, a blank line and the request. A null slot raises `TypeError`. |
| Backend.VerseLinesSnoc | backend/main.py:96 | Appending a verse appends its line. |
| Backend.UnwrappedKeepsAll | backend/main.py:95-96 | With every slot filled, the server quotes the same verses the route's filter keeps. |
| Backend.PyPromptLines | backend/main.py:90-100 | There are 5 + n lines for n verses: the question, a blank line, the heading, one line per verse in rank order, a blank line and the request. |
| Backend.PyLinesOneLine | backend/main.py:90-100 | When the question, ids and translations hold no newline, no prompt line holds one. |
| Backend.PyPrompt | backend/main.py:101 | When the question, ids and translations hold no newline, splitting the prompt at newlines gives its lines back. |
| Backend.ParseGeneration | backend/main.py:120-130 | A 4xx/5xx status raises `HTTPError`, and only then. Otherwise a body that is not JSON raises `JSONDecodeError`, and a JSON body that is not a non-empty list raises `RuntimeError`. Any other body gives an answer: the first item's stripped `generated_text`, or "" when that is missing. |
| Backend.QueryVerses | backend/main.py:78-130 | A null slot raises `TypeError` and a missing token raises `ValueError`, each before anything is sent. Otherwise exactly one request is sent, with the assembled prompt, and the answer is parsed from its reply. |
| OfflineMetadata.Docs | backend/embeddings.py:12 | There is one document per verse: the translation when present, else the text. |
| OfflineMetadata.SavedRecord | backend/embeddings.py:24-31 | The record saved for a verse is the server's metadata for that verse without its word meanings. |
| OfflineMetadata.Meta | backend/embeddings.py:23-34 | There is one saved record per verse. Its id is `<chapter>.<verse>` of its own chapter and verse fields, which fall back like the server's. Its translation is the verse's document, its text is the raw text, and a missing transliteration is "". |
| OfflineMetadata.OfflineMatchesServer | backend/embeddings.py:12-34 | The offline documents are the server's documents, and each saved record is the server's metadata without its word meanings. |
| OfflineMetadata.SavedIdMatchesRoute | backend/embeddings.py:25-26 | A saved id equals the route's id for that verse exactly when both numbers are present. |

## Left out

- JSON `null` in the corpus is not modelled: an optional field is either present or absent. Corpus numbers are integers; fractional numbers and JavaScript's float precision in `parseInt` are left out.
- Non-ASCII case mapping in `toLowerCase` is not modelled: only ASCII letters change case.
- The embedding model, the vector store's similarity ranking and the returned distances are left out. The store's answer to a query is a parameter (`QueryRoute.Search`, and the retrieved slots of `Backend.QueryVerses`). The route's query result count is stated for a store that honours `nResults`, as a precondition of `QueryRoute.PromptQuotesAtMostThree`.
- The store's own validation is not modelled, for example its rejection of duplicate ids.
- HTTP is reduced to the endpoint's status and decoded body. Left out:
  - request headers, the URL and the generation parameters;
  - the token in the route's `Authorization` header;
  - the server's 30-second timeout.
- Reading the request body is left out. A `q` that is not a string is not modelled.
- A corpus entry without `text`, which raises `KeyError`, is not modelled. Neither are list elements that are not objects, or a `generated_text` that is not a string.
- The route seeds the collection in an asynchronous block that a request can overtake. That race is not modelled: `QueryRoute.Post` assumes the collection is ready.
- Loading `verse.json`, loading environment variables, the server's diagnostic prints and `/debug` endpoint, and the CORS middleware are left out.
- The offline script's embedding computation and its writes of `data/embeddings.npy` and `data/metadata.json` are left out. Only the lists it saves are modelled.
- QueryRoute.TsReply: a 2xx body is decoded as a list, as not a list, or as not JSON. A JSON object with a `"0"` member holding a `generated_text` string would be answered by JavaScript's `[0]` lookup; the model throws for every body that is not a list.
- ReferenceMatcher.MatchTokens: its own contract states only the capture count. What it matches is stated by `MatchTokensComplete` and `MatchTokensSound` together.
