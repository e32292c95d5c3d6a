# Resource Management Copilot: retrieval, prompt, reply clean-up and Send handler in Dafny

This project models the algorithmic core of a small retrieval-augmented chat
assistant for resource managers. It has four parts.

- **Context selection** (`RAG_rm`, module `Retrieval`):
  - The search backend returns documents for the query.
  - Blank documents are dropped, and so are documents whose similarity to the query is below 0.7.
  - The rest are packed in retrieval order under a character budget. Packing stops at the first one that does not fit.
  - The kept parts are joined by a blank line.
  - When search fails, finds nothing, or nothing is kept, the fixed sentinel "No relevant documents found." is returned.
  - `RagRm` keeps the source's single loop with `continue`/`break`. It is proved equal to the specification `RagContext` = "filter, then the longest prefix that fits, then join".
- **Prompt assembly** (`_build_prompt`, `templateFR`, `execute_chain_json`, module `Prompt`):
  - The query entry (missing or None read as empty) is stripped.
  - Its context is computed with the defaults k = 10 and budget 4096.
  - Both are substituted into the fixed template, and the result is handed to the language model.
- **Reply clean-up** (`clean_response`, module `Sanitizer`):
  - The reply is cut before the first echoed prompt heading: `\nQuery:`, `\nContext:`, `\nQUERY:` and `\nCONTEXT:`, in that order.
  - It is then cut before the first unwanted advice phrase, and what remains is right-trimmed. The phrases are `I recommend`, `You could try` and `suggestions:`.
  - Finally the result is stripped.
  - `CleanResponse` keeps the two loops and is proved equal to the specification `Cleaned`.
- **Send handler** (`main`, app.py lines 94-120, module `Session`):
  - A click is rejected, in this order, when the trimmed text is blank, when RAG is switched off, or when the text equals the last accepted question.
  - Otherwise the question is recorded, the pipeline runs, and one turn with the cleaned reply is appended.
  - `Submit` is the pure transition. The class `ChatSession` holds the two session-state entries, and its `Send` method is proved to follow `Submit`.

Module `Text` models the Python string operations used:
- `str.isspace`, `strip`, `lstrip` and `rstrip`;
- the `in` test and `find`;
- `split(sep)[0]` and `sep.join`.

`Wrappers` holds `Option` for values that may be None.

The Send handler also rejects a click while RAG is switched off (app.py:109-110); this comes between the blank-input check and the duplicate check.
The front end cleans the reply (app.py:119); `execute_chain_json` returns the raw completion (CHAT.py:142).

## Model

| member | source | states |
|---|---|---|
| Retrieval.RagRm | CHAT.py:60-99 | The loop's result is exactly `RagContext`: the sentinel on search failure or an empty result; otherwise the join of the first-fit prefix of the relevant contents, or the sentinel when that join is empty. The loop invariant says the parts kept so far are exactly the relevant contents seen so far and that they fit the budget. |
| Retrieval.PassingIsFilter | CHAT.py:80-90 | A string is among the filtered contents exactly when it is the stripped content of a retrieved document, is non-empty and does not score below 0.7. |
| Retrieval.PassingKeepsOrder | CHAT.py:80-95 | The filtered contents are a subsequence of the documents' contents in retrieval order; nothing is re-ranked. |
| Retrieval.FitPrefixSpec | CHAT.py:92-96 | Packing keeps a prefix of its input whose total length is within the budget (nothing for a negative budget); when it stops early, the next part would overflow. |
| Retrieval.FitPrefixIsLongest | CHAT.py:92-96 | Any prefix whose total length fits the budget is no longer than what packing keeps, so packing keeps the longest fitting prefix. |
| Retrieval.PackingStops | CHAT.py:89-93 | If every relevant document before position i fits but the relevant document i overflows, the selection is exactly the relevant contents before i; later, smaller documents are not considered. |
| Retrieval.SelectedParts | CHAT.py:80-96 | Every kept part is a relevant stripped content of a retrieved document. The kept parts are a subsequence of the contents in retrieval order, fit the budget, and are a prefix of the relevant contents. When that prefix is shorter, the next relevant content would overflow. |
| Retrieval.NoDocumentsGiveSentinel | CHAT.py:65-72 | A failed or empty search gives exactly the sentinel. |
| Retrieval.NothingKeptGivesSentinel | CHAT.py:98-99 | When nothing is kept, in particular when the first relevant document alone exceeds the budget, the result is the sentinel. |
| Retrieval.KeptPartsJoined | CHAT.py:92-99 | When something is kept, the result is the parts joined by a blank line. Its length is their total length plus two per separator, so the joined text may exceed the budget, which only bounds the parts. |
| Retrieval.PassingAppend | CHAT.py:80-90 | Filtering a concatenation of document lists is the concatenation of the filtered lists. |
| Retrieval.FitPrefixAppend | CHAT.py:92-96 | Parts that fit together are all kept, and packing continues with the rest of the budget. |
| Retrieval.TotalLengthAppend | CHAT.py:96 | Appending a part adds its length to the running total. |
| RetrievalExamples.ExampleFilterKeepsOrder | CHAT.py:80-99 | Contents A (0.9), B (0.5), C (0.8) with the default budget give "A\n\nC". |
| RetrievalExamples.ExampleFirstFitStops | CHAT.py:92-93 | With budget 5, "aaa", "bbbbbbbbbb", "c" give "aaa": the later "c" that would fit is not used. |
| RetrievalExamples.ExampleIrrelevantDoesNotStop | CHAT.py:89-93 | With budget 5, "aaa", "B" (0.5), "c" give "aaa\n\nc": a document below the threshold never stops packing. |
| Prompt.FormatPrompt | CHAT.py:109-124 | The prompt's length is the template's fixed text plus the query and the context; the query and the context fill the two slots (FormatPromptSlots). |
| Prompt.PromptQuery | CHAT.py:133 | The query substituted into the prompt has no leading or trailing whitespace. |
| Prompt.FormatPromptSlots | CHAT.py:109-124 | The prompt is the text up to "Query:\n", then the query, then "\nContext:\n", then the context, then "\n\nAnswer:\n", each at its computed position. |
| Prompt.FormatPromptInjective | CHAT.py:132-135 | For queries of equal length, two prompts are equal exactly when their queries and contexts are equal. |
| Prompt.BuildPrompt | CHAT.py:132-135 | The prompt holds the stripped query (None or missing read as empty) in the query slot and, in the context slot, the context `RAG_rm` gives for that stripped query with k = 10 and budget 4096; the fixed template text surrounds them. BuildPromptIgnoresSurroundingWhitespace and BuildPromptWithoutDocuments state its whitespace and sentinel behaviour. |
| Prompt.BuildPromptIgnoresSurroundingWhitespace | CHAT.py:132-135 | Surrounding whitespace in the query does not change the prompt, and a blank query gives the same prompt as a missing one. |
| Prompt.BuildPromptWithoutDocuments | CHAT.py:132-135 | When search for the stripped query fails or finds nothing, the prompt's context slot holds the sentinel. |
| Sanitizer.CutMarker | app.py:34-35 | A marker cut keeps the text before the marker's first occurrence, which contains no occurrence of the marker, and leaves a text without the marker unchanged. |
| Sanitizer.CutPhrase | app.py:39-43 | A phrase cut keeps a prefix that has no occurrence of the phrase. Only whitespace lies between it and the phrase's first occurrence, and it does not end in whitespace. A text without the phrase is unchanged. |
| Sanitizer.CleanResponse | app.py:27-45 | The two loops and the final strip compute exactly `Cleaned`, and the empty reply gives the empty string. |
| Sanitizer.CutMarkersIsPrefix | app.py:33-35 | The marker loop only shortens: its result is a prefix of its input. |
| Sanitizer.CutPhrasesIsPrefix | app.py:38-43 | The phrase loop only shortens: its result is a prefix of its input. |
| Sanitizer.CutMarkersRemovesAll | app.py:32-35 | After the marker loop, none of the markers occurs. |
| Sanitizer.CutPhrasesRemovesAll | app.py:37-43 | After the phrase loop, none of the phrases occurs. |
| Sanitizer.CutIsPrefix | app.py:33-43 | The text passed to the final strip is a prefix of the reply. |
| Sanitizer.CleanedIsStrippedPrefix | app.py:29-30 | The result is the strip of a prefix of the reply: no leading or trailing whitespace, and the empty reply gives the empty string. |
| Sanitizer.StripKeepsAbsence | app.py:45 | The final strip cannot create an occurrence of a marker or phrase. |
| Sanitizer.CleanedHasNoMarkers | app.py:32-45 | No marker occurs in the cleaned reply. |
| Sanitizer.CleanedHasNoPhrases | app.py:37-45 | No unwanted phrase occurs in the cleaned reply. |
| Sanitizer.CleanedUntouched | app.py:33-45 | A reply with no marker and no phrase is only stripped. |
| Sanitizer.CleanedIdempotent | app.py:27-45 | Cleaning a cleaned reply changes nothing. |
| SanitizerExamples.ExampleLeakedContextIsCut | app.py:32-35 | "Here is data.\nContext:\nleaked stuff" cleans to "Here is data.". |
| Session.ChatSession.constructor | app.py:94-97 | A new session has no turns, the empty last question, and is valid. |
| Session.ChatSession.Send | app.py:106-120 | The new session state and the notice shown are those of `Submit` on the old state; a valid session stays valid. |
| Session.Submit | app.py:106-120 | The transition of one Send click. The state is unchanged exactly when the click is rejected. History is append-only: earlier turns are unchanged and at most one turn is added. Which rejection applies, and what an accepted click records, are stated by SubmitRejections and SubmitAccepted; SubmitPreservesValid states the invariant it keeps. |
| Session.SubmitRejections | app.py:107-114 | The blank-input warning is shown exactly for blank text. The RAG notice is shown exactly for non-blank text with RAG off. The duplicate notice is shown exactly for non-blank text with RAG on whose trimmed form is the last question. |
| Session.SubmitAccepted | app.py:116-120 | An accepted submission sets the last question to the trimmed text before the pipeline runs. It appends exactly one turn (trimmed text, cleaned reply) when the pipeline answers. When the pipeline fails, history is unchanged but the question still counts as asked. |
| Session.ImmediateDuplicateRejected | app.py:113-114 | Right after an accepted submission, text with the same trimmed form is rejected as already asked and changes nothing. |
| Session.AlternatingQuestionsAccepted | app.py:113-116 | Only the last accepted question blocks: A, B, A is answered three times, adding three turns. |
| Session.EmptyLastQuestionNeverBlocks | app.py:96-97 | The initial empty last question never triggers the duplicate notice, because blank text is rejected first. |
| Session.InitialStateValid | app.py:94-97 | The initial session state is valid. |
| Session.SubmitPreservesValid | app.py:107-120 | Every submission keeps the session valid: recorded questions are trimmed and non-blank, recorded replies are fixed points of cleaning, and once a turn exists the last question is non-blank. |
| Text.Strip | CHAT.py:81 | Python's `strip`: the result neither starts nor ends with whitespace and is no longer than the input. |
| Text.StripIsSlice | CHAT.py:81 | `strip` removes only whitespace, and only at the two ends. |
| Text.StripEmptyIffBlank | app.py:107 | A text strips to nothing exactly when it is all whitespace. |
| Text.StripIdempotent | CHAT.py:133 | Stripping twice is stripping once, so stripping the query again here changes nothing after the front end has already stripped it (app.py:118). |
| Text.Find | app.py:34 | Python's `find`: -1 exactly when the pattern does not occur; otherwise an occurrence with no earlier one. |
| Text.SplitHead | app.py:35 | Python's `split(m)[0]`: the prefix before the first occurrence, which contains no occurrence, or the whole text when the pattern does not occur. |
| Text.NotContainedInSlice | app.py:33-45 | A slice of a text that lacks a pattern lacks it too. |
| Text.Join | CHAT.py:98 | Python's `sep.join`: the length is the parts' total length plus one separator between neighbours. |
| Text.JoinEmptyIffNoParts | CHAT.py:98-99 | Non-empty parts join to the empty string exactly when there are none. |

## Left out

- Environment loading and the Azure client set-up (CHAT.py:1-58) are configuration and foreign SDK calls. The search index, model deployments and keys do not appear.
- Hybrid search (CHAT.py:66) is the parameter `search`, a function from (query, k) to a failure or a list of documents. Its exception is the `SearchFailed` case. The document metadata is not modelled.
- Embeddings and `cosine_similarity` (CHAT.py:78, 86-87) are the parameter `similarity`, a function from (query, stripped content) to a real number. Floating point is not modelled, so NaN scores (which pass Python's `< 0.7` test) are not represented. An exception raised by the embedding call, which Python lets escape from `RAG_rm`, is not represented either.
- Retrieval.RagRm: the similarity parameter is a pure function. The source recomputes the query embedding once and each content's embedding per document; its network cost and non-determinism are not captured.
- The language model call (CHAT.py:142) is the parameter `llm`, giving a completion or a failure. Its output is treated as a string.
- The `preproc1` tool wrapper (CHAT.py:102-106) is not part of this model: it is glue that nothing in the core calls. The `PromptTemplate` object (CHAT.py:126-129) is modelled by concatenating the template's literal pieces.
- Prompt.ExecuteChain has no contract of its own: it only applies the model to `BuildPrompt`, whose properties are the lemmas above.
- The front end imports `execute_chain_json` from a module `chat_public` that is not part of this model (app.py:7). The Send handler takes it as the parameter `pipeline`, called with the trimmed question, which may fail. On failure the model records the question as asked and shows `PipelineFailed`; in the source the exception escapes the handler after the same state update.
- Streamlit rendering, styles, images and base64 encoding (app.py:14-25, 47-93, 100-102) are UI and file I/O. So is clearing the text area after an answer (app.py:122).
- The RAG checkbox (app.py:79) is the boolean `useRag` passed to each click.
- `Text.IsSpace` covers the characters Python's `str.isspace` accepts. Strings are sequences of Unicode scalar values, with no encoding and no normalisation.
