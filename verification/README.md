# RAG Assistant — question handling, modelled in Dafny

The chat page of the RAG Assistant answers questions about uploaded
documents. It keeps the chat history (the "prompt") in the session as a list
of role-tagged turns. For each submitted question:

- with no document index, it shows the notice "No documents processed.
  Please upload documents." and stops; the stored history is left alone and
  no completion is requested;
- with an index, it joins the retrieved chunk texts with newlines into a
  context string and fills the `{context}` and `{question}` holes of a fixed
  template. The result overwrites the system turn in slot 0. It then
  appends the question as a user turn and sends the history to the
  completion service. The streamed deltas are folded into the answer: each
  present delta is appended, and the stripped concatenation is displayed.
  The final answer is appended as an assistant turn, and the history is
  stored back into the session.

The model is pure. The index is a boolean (present or absent). The retrieval
result is a `seq<string>` of chunk contents. The completion stream is a
`seq<Option<string>>` of optional text deltas.

Modules:

- `Wrappers`: the `Option` type used for a delta.
- `Text`: Python's `str.isspace`, `strip`, `lstrip`, `rstrip` and
  `sep.join`. It also has `split` on one character, which serves as the
  inverse of `join`. `IsStripOf` is an independent description of `strip`,
  and the lemmas show that `Strip` meets it and that it admits one result only.
- `Transcript`: `Role`, `Turn`, the initial history, and the shape
  `WellFormed`: one system turn in slot 0, user turns at odd slots and
  assistant turns at even slots from 2 on.
- `Prompt`: the context string, the two-hole `Template` and its fixed
  instance `Instruction`, and `Render`.
- `Streaming`: the delta fold (`Fragments`, `Response`), the displayed values
  (`Displayed`), and `Collect`, a method with the same loop as the page.
- `Session`: one page step (`Respond`, with `Ask` as the page's own step
  using `Instruction`), a run over many inputs (`Run`), and the history
  invariant.

`Respond` takes the template as a parameter. The proofs about it therefore
hold for any template, including the page's own `Instruction` used by `Ask`
and `Run`. This keeps the long template literal out of the proof
obligations.

## Model

| member | source | states |
|---|---|---|
| Session.Respond | app.py:62-125 | Empty question: nothing happens. No index: the notice is produced and the stored history is unchanged. With an index: the history grows by exactly two; slot 0 becomes the system turn rendered from context and question; turns 1..n-1 are kept in order; then come the user turn with the raw question and the assistant turn with the stripped answer. The request sent to the completion service is the history up to the user turn. |
| Session.RespondRequestGrounded | app.py:69-101 | The history sent to the completion service has the only system turn in slot 0. That turn contains the context string, every retrieved text and the question verbatim. The last turn of the request is the user's question. |
| Session.DisplayMatchesStored | app.py:117-122 | The stored assistant turn is the last value displayed during streaming, or "" when nothing was displayed. |
| Session.RespondKeepsCoherent | app.py:96-125 | A step that runs to completion keeps a well-formed stored history well-formed, whatever its input. |
| Session.Run | app.py:50 | Running the page over a list of inputs never leaves an empty stored history, so slot 0 can always be overwritten. |
| Session.RunGrowth | app.py:101-125 | Over any inputs whose steps all run to completion, the history grows by exactly two turns per answered question (question submitted with an index present), and its shape is kept. |
| Session.FreshSessionInvariant | app.py:50 | From a fresh session, after any inputs whose steps all run to completion, the history has exactly one system turn, in slot 0. It has length 1 + 2·answered, users at odd slots, assistants at even slots from 2 on, and as many user as assistant turns, one each per answered question. |
| Transcript.WellFormedCounts | app.py:50 | A well-formed history has one system turn and equal numbers of user and assistant turns, half its length rounded down each. |
| Prompt.ContextKeepsRetrieved | app.py:69-70 | The context is "" for no retrieved text. Otherwise its length is the sum of the texts' lengths plus one newline between neighbours, so nothing is truncated. Every text occurs in it verbatim. When no text holds a newline, splitting the context on newlines gives back exactly the retrieved list, in order and with duplicates kept. |
| Prompt.RenderLayout | app.py:90-98 | `format` fills each hole once: the context sits right after the head text, the question right after the middle text, and the tail closes the instruction. |
| Prompt.RenderContains | app.py:96-99 | The rendered system instruction contains both the context and the question verbatim. |
| Prompt.RenderGrounded | app.py:69-99 | The rendered instruction contains every retrieved text verbatim. |
| Streaming.Fragments | app.py:115-117 | The kept texts are at most as many as the deltas, and each one is the text of some delta. |
| Streaming.FragmentsAppend | app.py:112-117 | Filtering out absent deltas commutes with cutting the stream in two, so the kept texts stay in arrival order and none is lost. |
| Streaming.ResponseFacts | app.py:110-118 | The answer is the strip of the concatenated texts. It is "" when no delta had text, and an absent delta does not change it. |
| Streaming.DisplayedValues | app.py:117-119 | One value is displayed per present delta. Value k is the stripped concatenation of texts 0..k, and the last one is the final answer. |
| Streaming.Collect | app.py:110-119 | The loop of the page returns the stripped concatenation of the present deltas as its result. It displays one value per present delta, each the strip of the prefix concatenation, and the last displayed value equals the result. With no present delta, the result is "". |
| Text.StripMeetsDescription | app.py:118 | `strip` removes a whitespace-only prefix and suffix and leaves neither end of the result whitespace. |
| Text.StripUnique | app.py:118 | At most one string fits the description of `strip`, so the description fixes the result. |
| Text.StripIdempotent | app.py:118 | Stripping an already stripped answer changes nothing. |
| Text.StripTrimmed | app.py:118 | A string with no whitespace at either end is its own strip. |
| Text.StripLeftFacts | app.py:118 | `lstrip` drops exactly the leading whitespace: the result is a suffix, everything dropped is whitespace, and the result does not start with whitespace. |
| Text.StripRightFacts | app.py:118 | `rstrip` drops exactly the trailing whitespace: the result is a prefix, everything dropped is whitespace, and the result does not end with whitespace. |
| Text.Join | app.py:70 | `sep.join` of no part is "". Otherwise its length is the parts' total plus one separator per neighbouring pair. |
| Text.JoinContainsPart | app.py:70 | Every part occurs verbatim in the joined string. |
| Text.JoinSplit | app.py:70 | Joining the pieces of a split with the same separator rebuilds the string. |
| Text.SplitJoin | app.py:70 | Splitting a join of separator-free parts returns the parts themselves (the empty list excepted, since it joins to ""). |

## Left out

- Page rendering: the title, the uploader, the chat widgets, the replay of past messages and the empty assistant placeholder are display only (app.py:10, 16-18, 53-56, 59, 64-65, 102-107). The display call at app.py:119 is modelled as the `shown` output of `Streaming.Collect`.
- Configuration: loading `.env` and the API key (app.py:3, 7, 13) affects no modelled value.
- Index construction: `brain.get_index_for_text_files` and `process_uploaded_files` (app.py:28-47) are reduced to the `indexed` flag. Text extraction, chunking and embedding live in `brain.py`, which is not part of this model.
- Retrieval: `similarity_search(question, k=3)` (app.py:69) is a library call. Its result is an input list of chunk contents, with no ranking, tie-breaking or length bound assumed.
- Completion: the streaming chat-completion call (app.py:112-115) is a network client. Its deltas are an input `seq<Option<string>>`; a missing `delta` or `content` key is an absent delta.
- No index: the page does not record the question in the history; it shows the notice and stops (app.py:63-66). The model does the same.
- Failures: the page has no handling for a failed or interrupted stream, and the model has no error path for it. A failed stream appends no assistant turn (app.py:110-122), and the model has no outcome for it.
- Session.RespondKeepsCoherent, Session.RunGrowth and Session.FreshSessionInvariant hold only for steps that run through to app.py:125. Once the session already holds a history, `prompt` at app.py:50 is that same stored list, and app.py:96 and 101 change it in place before the stream is read. A completion call that raises, or a rerun that cuts the stream short, therefore leaves the history stored with the new system turn and user turn but no assistant turn. The next answered question then puts a user turn at an even slot. The model writes the store only at the end of a step, so it does not represent this state.
- Session.Respond: requires the loaded history to be non-empty. `prompt[0] = …` fails on an empty list, and the page only ever stores non-empty histories, as `Session.Run` states.
- Text.IsSpace: follows Python's `str.isspace` code-point list. Unicode data beyond that list is not consulted.
- The page's `Instruction` template is the literal text around the two holes. Python `str.format` is modelled only as filling each hole once with the value verbatim.
