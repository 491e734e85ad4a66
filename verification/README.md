# School handbook question answering — a Dafny model

This project models the answer path of a retrieval-augmented question-answering
service for a school handbook (`school-handbook-rag/app.py`). A student's
question is stripped of surrounding whitespace. An empty question is rejected.
Otherwise the service embeds the question, searches a vector index for the
3 nearest passages, and keeps the passages the index points at. Each kept
passage gets provenance information: its index, its distance and a 200-character
preview. The kept passages become the numbered context of a fixed prompt for a
generative model. The model's text is returned as the answer. Two fixed messages
cover the other cases: one when no passage was retrieved, and an apology when
generation fails.

The model has five modules, one file each:

- `Wrappers` (`wrappers.dfy`): `Option`.
- `PyText` (`pytext.dfy`): the Python string built-ins the path relies on. These
  are `str.strip()` (with Python's whitespace set), `str(n)` for the source
  numbers, and `sep.join(parts)`.
- `Retrieval` (`retrieval.dfy`): `retrieve_relevant_chunks`.
  - The embedding call and the index search together are one opaque service,
    `SearchService<D>`. It maps the question and `top_k` to `SearchFailed` (any
    exception) or to the `(idx, dist)` pairs in the index's order.
  - Distances have an opaque type parameter `D`. They are only carried through.
  - The loop that appends to the two result lists is the method
    `RetrieveRelevantChunks`. It is proved equal to the specification function
    `Retrieve`, and the lemmas describe `Retrieve`.
  - Python's list subscript is modelled by `PyIndex`, which is its definition.
    A negative index counts from the end. An index below `-len` raises
    `IndexError` (`None`); the source catches that and returns two empty lists.
    What this means for retrieval is stated by `CollectEntries`,
    `CollectSomeIff` and `PaddingHitGivesLastChunk`.
- `Generation` (`generation.dfy`): `generate_response`.
  - The generation model is an opaque `GenerationService` from a prompt to
    `Generated(text)` or `GenerationFailed`.
  - "Not called" is stated as "the answer is the same whatever the service
    does".
  - The prompt is the handbook's `PromptTemplate` filled with the context and
    the question. The layout lemmas are proved for every template, so they
    cover the handbook's one.
- `Pipeline` (`pipeline.dfy`): the validation and composition inside
  `ask_question`.
  - The JSON body is `NotAnObject`, or `Object` whose `question` member is
    `Absent`, `Str(text)` or `NotAString`.
  - The reply is `BadRequest` (the 400 path), `ServerError` (the catch-all 500
    path) or `Answered`. `Answered` carries the response, the sources info and
    the chat-history entry.

Three behaviours of the code are worth stating plainly, because a reader
might expect otherwise:

- Search hits are filtered only by `idx < len(chunks)` (app.py:65). Ids below
  that bound are not skipped:
  - A negative id of at least `-len(chunks)` wraps around. FAISS's `-1` padding,
    used when fewer vectors are stored than `top_k`, therefore yields the last
    passage again, with `index` -1 (`PaddingHitGivesLastChunk`,
    `TwoChunksTopThree`).
  - A more negative id raises `IndexError`, and the whole retrieval becomes
    empty (`CollectSomeIff`, `RetrieveFallbacks`).
- An unloaded index or an empty chunk list has no result of its own. It gives
  the same empty result as a search that finds nothing (`RetrieveFallbacks`,
  `AskWithoutPassages`).
- Results are neither sorted nor de-duplicated. They keep the order the index
  returned (`KeptPositions`, `CollectEntries`).

## Model

| member | source | states |
|---|---|---|
| `PyText.TrimStart` | school-handbook-rag/app.py:126 | the result is a suffix of the input; everything removed is Python whitespace; the result does not start with whitespace |
| `PyText.TrimEnd` | school-handbook-rag/app.py:126 | the result is a prefix of the input; everything removed is Python whitespace; the result does not end with whitespace |
| `PyText.Strip` | school-handbook-rag/app.py:126 | the stripped question is no longer than the input and neither starts nor ends with whitespace |
| `PyText.StripIsSlice` | school-handbook-rag/app.py:126 | the stripped question is the contiguous slice of the input that starts after the leading whitespace |
| `PyText.StripRemovesOnlySpace` | school-handbook-rag/app.py:126 | every character before and after that slice is whitespace |
| `PyText.StripEmptyIffBlank` | school-handbook-rag/app.py:126-128 | the stripped question is empty exactly when the input is all whitespace |
| `PyText.StripIdempotent` | school-handbook-rag/app.py:126 | stripping twice gives the same question as stripping once |
| `PyText.DecimalString` | school-handbook-rag/app.py:86 | `str(n)`: at least one character, decimal digits only, and a leading `0` exactly when n is 0 |
| `PyText.DecimalRoundTrip` | school-handbook-rag/app.py:86 | reading back the digits of `str(n)` gives n |
| `PyText.DecimalInjective` | school-handbook-rag/app.py:86 | different source numbers get different labels |
| `PyText.Join` | school-handbook-rag/app.py:86 | `sep.join(parts)`: empty for no parts, otherwise opening with the first part; its layout is stated by `JoinLength`, `JoinPiece` and `JoinSeparator` |
| `PyText.JoinLength` | school-handbook-rag/app.py:86 | the joined string has the parts' characters plus one separator between each two parts, and no other characters |
| `PyText.JoinPrefix` | school-handbook-rag/app.py:86 | joining a prefix of the parts gives a prefix of the joined string |
| `PyText.JoinStep` | school-handbook-rag/app.py:86 | joining one more part appends the separator and that part |
| `PyText.JoinPrefixLength` | school-handbook-rag/app.py:86 | the join of the parts up to `j` ends with part `j`, at `PieceStart` |
| `PyText.JoinPiece` | school-handbook-rag/app.py:86 | each part appears whole at its start offset in `sep.join(parts)`; the last part ends the string |
| `PyText.JoinSeparator` | school-handbook-rag/app.py:86 | exactly one separator lies between consecutive parts, and nothing else |
| `Retrieval.Preview` | school-handbook-rag/app.py:71 | a passage of at most 200 characters is its own preview; a longer one gives its first 200 characters followed by `...` (203 characters); a preview never exceeds 203 characters |
| `Retrieval.Collect` | school-handbook-rag/app.py:62-72 | what the loop builds, hit by hit, or `None` once a subscript raises; characterised by `KeptPositions`, `CollectEntries`, `CollectSomeIff` and `CollectRaises` |
| `Retrieval.FromOutcome` | school-handbook-rag/app.py:57-78 | the result on a ready store: empty on a failed search or a raising subscript, otherwise what `Collect` built; see `RetrieveFallbacks` and `RetrieveFollowsHits` |
| `Retrieval.Retrieve` | school-handbook-rag/app.py:41-78 | `retrieve_relevant_chunks` as a function; the method `RetrieveRelevantChunks` is proved equal to it, and `RetrieveAligned`, `RetrieveFallbacks` and `RetrieveFollowsHits` state its promises |
| `Retrieval.RetrieveRelevantChunks` | school-handbook-rag/app.py:41-78 | the loop's two lists equal `Retrieve`: empty when not ready or the search fails, otherwise the entries `Collect` builds from the hits |
| `Retrieval.CollectSomeIff` | school-handbook-rag/app.py:62-78 | the loop completes exactly when no hit has an index below `-len(chunks)`; otherwise the exception empties the result |
| `Retrieval.CollectRaises` | school-handbook-rag/app.py:65-78 | one hit below `-len(chunks)`, at any position, empties the whole result |
| `Retrieval.KeptPositions` | school-handbook-rag/app.py:62-65 | the kept hit positions are at most the number of hits, strictly increasing (search-result order), and a hit is kept exactly when `idx < len(chunks)` |
| `Retrieval.CollectEntries` | school-handbook-rag/app.py:62-72 | both lists have one entry per kept hit; entry j holds the passage at that hit's index (Python subscript), that index, that distance unchanged, and the passage's preview |
| `Retrieval.RetrieveAligned` | school-handbook-rag/app.py:59-74 | the two returned lists always have equal length, at most the number of search results |
| `Retrieval.RetrieveFallbacks` | school-handbook-rag/app.py:41-78 | an unloaded index or empty chunk list, a failed embedding or search, or a raising subscript each give `([], [])`; when not ready the search service is never consulted |
| `Retrieval.RetrieveFollowsHits` | school-handbook-rag/app.py:57-74 | when the search succeeds and no subscript raises, every hit passing the guard contributes its entry, in search-result order, and nothing else does |
| `Retrieval.PaddingHitGivesLastChunk` | school-handbook-rag/app.py:63-70 | a `-1` hit passes the guard and contributes the last passage with `index` -1 |
| `Retrieval.TwoChunksTopThree` | school-handbook-rag/app.py:57-74 | with two passages and hits 1, 0, -1, the result is passages 1, 0, 1 with indices 1, 0, -1 and the distances in hit order |
| `Generation.Context` | school-handbook-rag/app.py:86 | the context is empty exactly when no passage was retrieved, and otherwise opens with `Source 1:`, a newline and the first passage; the rest is stated by `ContextCitesSource` and `ContextBlocksTile` |
| `Generation.Fill` | school-handbook-rag/app.py:89-103 | the template filled with context and question; its layout is stated by `FillLayout` |
| `Generation.Prompt` | school-handbook-rag/app.py:86-103 | the prompt sent to the model: the handbook template filled with the context; `PromptCitesSourcesAndQuestion` states what it carries |
| `Generation.GenerateResponse` | school-handbook-rag/app.py:80-111 | `generate_response`; its policy is stated by `NoChunksSkipsGeneration`, `AnswerPolicy` and `AnswerIsNeverRawError` |
| `Generation.SourceBlocks` | school-handbook-rag/app.py:86 | one labelled block per retrieved passage |
| `Generation.ContextCitesSource` | school-handbook-rag/app.py:86 | passage j appears verbatim in the context, right after its label `Source j+1:` and a newline |
| `Generation.ContextBlocksTile` | school-handbook-rag/app.py:86 | consecutive source blocks are separated by exactly one blank line, and the last block ends the context |
| `Generation.SourceLabelNumber` | school-handbook-rag/app.py:86 | label k is `Source `, the decimal digits of k, then `:` and a newline; the number reads back as k (numbering from 1) |
| `Generation.FillLayout` | school-handbook-rag/app.py:89-103 | the prompt is the header, the context, the question label, the question verbatim and the instructions, in that order and nothing else |
| `Generation.FillCitesEverySource` | school-handbook-rag/app.py:86-103 | every passage sits verbatim inside the context section of a filled template |
| `Generation.PromptCitesSourcesAndQuestion` | school-handbook-rag/app.py:86-103 | the prompt sent to the model holds every retrieved passage after its label and the question verbatim after `STUDENT QUESTION: ` |
| `Generation.NoChunksSkipsGeneration` | school-handbook-rag/app.py:82-83 | with no passages the answer is the fixed "couldn't find relevant information" message, whatever the generation service would do |
| `Generation.AnswerPolicy` | school-handbook-rag/app.py:105-111 | with passages, generated text is returned verbatim; any generation failure gives the fixed apology; the service is consulted only on this prompt |
| `Generation.AnswerIsNeverRawError` | school-handbook-rag/app.py:80-111 | the answer is the no-information message, the apology, or text the service generated |
| `Pipeline.QuestionOf` | school-handbook-rag/app.py:125-126 | `data.get('question', '').strip()`, or `None` when that raises; `AskValidation` states its effect on the reply |
| `Pipeline.Ask` | school-handbook-rag/app.py:124-159 | `ask_question` as a function; the method `AskQuestion` is proved equal to it, and the `Ask…` lemmas state its promises |
| `Pipeline.AskQuestion` | school-handbook-rag/app.py:122-159 | the request's reply equals `Ask`: malformed body gives 500, blank question gives 400, otherwise retrieval with top_k 3 feeds generation and the history entry |
| `Pipeline.AskValidation` | school-handbook-rag/app.py:124-159 | a request is rejected as empty exactly when its question is missing or all whitespace; malformed bodies give the internal error; neither service is consulted in either case |
| `Pipeline.AskQueriesTopThree` | school-handbook-rag/app.py:126-132 | the search is asked for the stripped question with top_k 3 only: services agreeing there give the same reply |
| `Pipeline.AskRecordsSources` | school-handbook-rag/app.py:132-155 | an answered request returns the retrieved info as its sources; the history entry records the stripped question, the same response and `sources_used` equal to the number of sources |
| `Pipeline.AskAtMostThreeSources` | school-handbook-rag/app.py:132-145 | when the index returns at most top_k results, at most 3 sources are used |
| `Pipeline.AskWithoutPassages` | school-handbook-rag/app.py:131-146 | an unloaded store or a failed embedding/search gives the no-information answer with no sources and `sources_used` 0, whatever the generation service would do |

## Left out

- Flask routes, HTTP status codes and JSON encoding are left out. So are the
  `session` chat history, `/history`, `/clear_history`, `/health` and the page
  route (app.py:113-119, 161-183). The reply names the 400 and 500 paths and
  carries the history entry. Appending that entry to the session is not
  modelled.
- `create_templates` and the embedded HTML, CSS and JavaScript are left out.
  They are UI and file writing.
- `load_rag_data` is left out. It is file I/O through FAISS and `pickle`. The
  loaded state is the `Store` value: whether an index object is loaded, and the
  chunk texts. The source's module-level globals become a parameter, because
  the answer path never changes them.
- The Gemini embedding call and the FAISS search are one opaque search service.
  The model does not distinguish an embedding failure from a search failure,
  because the source handles both the same way.
- The Gemini generation call is an opaque generation service. The model name,
  API key and network behaviour are outside the model.
- Distances are an opaque type. The model makes no claim about their values or
  order, and `float(dist)` is treated as carrying the value through. The
  conversion `int(idx)` is the identity on the model's unbounded integers.
- Timestamps from `datetime.now()` and the `print` logging are left out.
- Strings are sequences of Dafny characters, which are Unicode scalar values.
  Slicing to 200 characters counts code points, as in Python. A Python `str`
  can also hold lone surrogate code points, for example from a JSON `"\ud800"`
  escape in the question. Such strings are outside the model.
- `Pipeline.AskAtMostThreeSources`: this lemma assumes that the index returns at
  most `top_k` results, which FAISS does. The code itself does not check the
  number of results.
