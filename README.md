# ClauseSync contract reviewer: chunker and report merger

ClauseSync reviews a contract with a language model. It splits the contract
text into word chunks, sends each chunk to a chat-completion endpoint, and
folds the JSON replies into one report. The report holds three risk lists,
three compliance fields and a list of key clauses. This project models the
three pieces of `app.py` that hold logic, and proves what they guarantee:

- `chunker.dfy` (module `Chunker`) models `split_text_into_chunks`. It covers
  `text.split()` over Python's whitespace characters, `" ".join`, and the
  chunking loop. The loop seals a chunk as soon as its space-joined length is
  over `max_tokens * 0.75`. That float test is written as the exact integer
  test `4 * len > 3 * max_tokens`. `ChunkFrom` is the functional mirror of the
  loop. `IsChunking` is an independent description of a correct chunking. The
  two are proved to coincide, so the chunking of a word sequence is unique.
- `merger.dfy` (module `Merger`) models `merge_json_responses`. The loop is a
  method, and its inner loops over the risk levels and compliance keys are
  methods too. `Merge` is the left fold that specifies them. The JSON parser is
  the parameter `parse`, where `None` stands for `json.JSONDecodeError`. Clause
  entries are the type parameter `C`, which the merge never inspects.
- `analyzer.dfy` (module `Analyzer`) models the collection loop of
  `analyze_contract`. The completion call is the parameter `complete`, and
  `complete(i, prompt)` is the result of the i-th call. A result is kept only
  when it is truthy: present and not `""`.
- `wrappers.dfy` (module `Wrappers`) holds `Option`.

The cap is not a hard bound on chunk length. The code seals a chunk only
after a word pushes it over the cap, so the model proves the bound the code
gives: a chunk is over the cap by at most its final word.

## Model

| member | source | states |
|---|---|---|
| `Chunker.SplitJoin` | app.py:17-25 | Splitting the space-joined words gives back exactly those words, so each chunk string re-splits into the words it was built from |
| `Chunker.JoinLength` | app.py:24 | The joined length of w1..wk is the sum of the word lengths plus k - 1 spaces |
| `Chunker.JoinPrefixShorter` | app.py:22-24 | Dropping words from the end of a chunk never makes its joined text longer |
| `Chunker.ChunkFromFlatten` | app.py:17-31 | Concatenating the emitted chunks gives the pending chunk followed by the remaining words: no word is lost, duplicated or reordered |
| `Chunker.ChunkFromNonEmpty` | app.py:21-29 | Every emitted chunk holds at least one word |
| `Chunker.ChunkFromSealedExceed` | app.py:24-26 | Every chunk except the last is over the cap, because a chunk is sealed only when it exceeds it |
| `Chunker.ChunkFromOvershoot` | app.py:21-29 | While the pending chunk is within the cap, every emitted chunk with its final word removed is within the cap |
| `Chunker.ChunksAreChunking` | app.py:12-31 | The chunker's output satisfies the independent chunking description, and it is empty exactly when there are no words |
| `Chunker.FirstChunkNotShorter` | app.py:21-26 | In any two correct chunkings of the same words, the first chunk of one is no shorter than the first chunk of the other (so, both ways, they are equally long) |
| `Chunker.ChunkingUnique` | app.py:21-31 | Two correct chunkings of the same words are equal |
| `Chunker.ChunksCharacterized` | app.py:12-31 | A sequence of chunks is a correct chunking of the words if and only if it is the chunker's output |
| `Chunker.SplitTextIntoChunks` | app.py:12-31 | The loop emits the joined chunks of the specification; they re-split into a correct chunking of `text.split()`; there are none exactly when the text has no words; every chunk string but the last is longer than the cap |
| `Merger.RiskAnalysis.Extend` | app.py:103 | Extending one risk list appends the entries to that list and leaves the other two lists unchanged |
| `Merger.Compliance.Set` | app.py:110 | Setting one compliance field gives it the new status and leaves the other two fields unchanged |
| `Merger.MergeRiskLists` | app.py:99-103 | The loop over the three risk levels extends each list present in the reply and leaves the others unchanged |
| `Merger.MergeCompliance` | app.py:105-110 | The loop over the three compliance keys sets a field to "Non-compliant" when the reply says exactly that, and leaves it unchanged otherwise |
| `Merger.MergeParsed` | app.py:99-114 | Merging one parsed reply extends the risk lists and key clauses and downgrades compliance, as one step of the fold |
| `Merger.MergeJsonResponses` | app.py:80-119 | The merge loop returns the left fold of the replies over the default report |
| `Merger.ContributionsConcat` | app.py:95-114 | The entries contributed by two runs of replies are those of the first run followed by those of the second |
| `Merger.MergeListExact` | app.py:99-103 | Each risk list and the key-clause list equal the in-order concatenation of the corresponding lists of the parsed replies; a reply lacking the field adds nothing |
| `Merger.MergeComplianceExact` | app.py:105-110 | A compliance field is "Non-compliant" if and only if some parsed reply sets it to exactly "Non-compliant", and "Compliant" otherwise |
| `Merger.SomeReplySaysPermuted` | app.py:105-110 | Whether some reply downgrades a field is the same for any reordering of the replies |
| `Merger.MergeComplianceOrderIndependent` | app.py:105-110 | The merged compliance fields do not depend on the order of the replies |
| `Merger.MergeNeverUpgrades` | app.py:108-110 | A field downgraded by earlier replies stays "Non-compliant" whatever replies follow |
| `Merger.MergeAppendOnly` | app.py:95-114 | Later replies only append to the lists: merging more replies keeps the earlier entries as a prefix, followed by the new replies' entries |
| `Merger.MergeSkipsUnparsable` | app.py:95-97 | A reply that fails to parse is skipped without effect: merging `xs + [bad] + ys` equals merging `xs + ys` |
| `Merger.MergeOfUnparsable` | app.py:81-93 | With no reply that parses, and in particular with no reply, the result is the default report: three empty risk lists, all compliance fields "Compliant", no key clauses |
| `Analyzer.UserPrompt` | app.py:164-166 | The prompt sent for a chunk is the chunk verbatim, between the fixed instruction line with its indentation and a trailing newline with indentation, so the chunk is recovered from its prompt at a fixed offset |
| `Analyzer.CollectReplies` | app.py:163-171 | The loop calls the endpoint once per chunk in chunk order and keeps exactly the truthy results, in order |
| `Analyzer.AnalyzeContract` | app.py:159-174 | The report is the merge of the kept replies to the chunks of the text at the default cap of 4000; text without words gives the default report |
| `Analyzer.KeptMembers` | app.py:170-171 | A result is kept if and only if some call returned it and it is not empty; no more results are kept than calls were made |
| `Analyzer.KeptConcat` | app.py:163-171 | Keeping distributes over concatenation of the call results |
| `Analyzer.KeptDropsFailed` | app.py:169-171 | A failed or empty call result is dropped and the other results keep their order |
| `Analyzer.FailedChunkContributesNothing` | app.py:169-174 | A chunk whose completion call fails leaves the report as if that chunk had not been sent |
| `Analyzer.AllCallsFailed` | app.py:169-174 | When every completion call fails with a caught error or an empty reply, the merged report is the default report |

## Left out

- `generate_chat_completion` (app.py:34-66): the HTTP request, its payload and its two kinds of error handling are not modelled. Each call is the parameter `complete`, where `None` stands for the two failures the client catches, an HTTP error or a transport error (app.py:62-65), or for a `null` reply content.
- A 2xx reply whose body lacks `choices`, has an empty `choices` list, or lacks `message.content` raises an uncaught exception at app.py:61. That aborts the whole review, and no report is returned. The model does not represent this outcome, so `AllCallsFailed` and `FailedChunkContributesNothing` cover only the failures the client catches.
- The warnings shown with `st.error` for failed calls and unparsable replies are not modelled. They are output only and change no state the model tracks.
- `extract_text_from_pdf` (app.py:69-77) wraps the pdfplumber library. The model starts from the extracted text.
- `json.loads` is the parameter `parse`. Python's behaviour on JSON that is not an object is not modelled. That includes membership tests on lists and strings, the `TypeError` raised for numbers, and `extend` over a string or an object. For replies whose fields decode to lists and objects, a parser that maps them to a `Reply` stands in for the values the code reads. For replies that raise, no `Reply` stands in, as the next line says.
- A reply that decodes to a JSON object can still abort the review. When `risk_analysis`, one of its three lists, `compliance` or `key_clauses` holds `null`, a number or a boolean, the membership test or `extend` at app.py:100-114 raises an uncaught `TypeError`. Only `json.JSONDecodeError` is caught (app.py:116), so no report is returned. The model does not represent this outcome. `MergeJsonResponses`, `MergeSkipsUnparsable` and `AnalyzeContract` describe only replies that fail to decode or whose fields decode to lists and records.
- A compliance value that is not a string is not modelled separately. It never equals "Non-compliant", so a parser can map it to any other string.
- `max_tokens * 0.75` in floating point is replaced by the exact test `4 * len > 3 * max_tokens`. The two agree on all integers whose products are exact in a double.
- Python's `len` counts code points, and so does `|s|` on Dafny strings. Surrogate-pair details of the host string type are not modelled.
- The asyncio and nest_asyncio event-loop plumbing, the API key lookup, the upload size check (app.py:233) and the Streamlit dashboard (app.py:177-275) are presentation and glue. They are not modelled.

