/** The per-question step of the chat page: the session keeps the chat
    history under the key "prompt"; the document index is either present or
    absent; the retrieval result and the completion stream are inputs. */
module Session {
  import opened Wrappers
  import opened Text
  import opened Transcript
  import opened Prompt
  import opened Streaming

  /** The notice shown when a question arrives before any document was
      indexed. */
  const NoDocumentsNotice: string := "No documents processed. Please upload documents."

  /** The session store: the chat history, absent until the first answered
      question stores it. */
  datatype State = State(prompt: Option<seq<Turn>>)

  /** What the page produces for one submitted input. */
  datatype Reply =
    | Silent                                          // nothing was submitted
    | NoDocuments(notice: string)                     // no index: fixed notice, no completion call
    | Answered(request: seq<Turn>, response: string)  // history sent to the completion service, and the answer

  datatype Outcome = Outcome(state: State, reply: Reply)

  /** One input to the page: whether an index is present, the submitted
      question ("" when none), what retrieval returned for it, and the
      completion stream. */
  datatype Step = Step(indexed: bool, question: string, retrieved: seq<string>, stream: seq<Option<string>>)

  /** The history the page starts from: the stored one, or the single
      placeholder system turn. */
  function Load(s: State): seq<Turn> {
    s.prompt.GetOr(Initial)
  }

  /** A stored history is never empty, so slot 0 can be overwritten. */
  predicate Storable(s: State) {
    s.prompt.Some? ==> |s.prompt.value| > 0
  }

  /** The stored history, when there is one, has the shape the step keeps. */
  predicate Coherent(s: State) {
    s.prompt.Some? ==> WellFormed(s.prompt.value)
  }

  /** Handling one submitted input, for a page whose system instruction is
      rendered from `template`. With no question nothing happens. With no
      index the notice is produced and the store is left as it was. With an
      index, the system turn in slot 0 is replaced by the rendered instruction,
      the question is appended as a user turn, that history is the request to
      the completion service, the stripped streamed answer is appended as an
      assistant turn, and the result is stored. No other turn changes. */
  function Respond(s: State, template: Template, indexed: bool, question: string,
                   retrieved: seq<string>, stream: seq<Option<string>>): (o: Outcome)
    requires Storable(s)
    ensures Storable(o.state)
    ensures question == "" ==> o == Outcome(s, Silent)
    ensures question != "" && !indexed ==> o == Outcome(s, NoDocuments(NoDocumentsNotice))
    ensures question != "" && indexed ==>
      var t := Load(s);
      o.state.prompt.Some? &&
      var t' := o.state.prompt.value;
      |t'| == |t| + 2 &&
      t'[0] == Turn(System, Render(template, Context(retrieved), question)) &&
      t'[1..|t|] == t[1..] &&
      t'[|t|] == Turn(User, question) &&
      t'[|t| + 1] == Turn(Assistant, Response(stream)) &&
      o.reply == Answered(t'[..|t| + 1], Response(stream))
  {
    if question == "" then Outcome(s, Silent)
    else if !indexed then Outcome(s, NoDocuments(NoDocumentsNotice))
    else
      var t := Load(s);
      var system := Turn(System, Render(template, Context(retrieved), question));
      var request := t[0 := system] + [Turn(User, question)];
      var answer := Response(stream);
      var stored := request + [Turn(Assistant, answer)];
      assert stored[..|t| + 1] == request;
      Outcome(State(Some(stored)), Answered(request, answer))
  }

  /** The page's own step: its system instruction comes from the fixed
      template. */
  function Ask(s: State, indexed: bool, question: string, retrieved: seq<string>, stream: seq<Option<string>>): Outcome
    requires Storable(s)
  {
    Respond(s, Instruction, indexed, question, retrieved, stream)
  }

  /** The request sent to the completion service is grounded: its slot 0 is
      the only system turn, and carries the context string (hence every
      retrieved text) and the question verbatim; its last turn is the
      question. */
  lemma RespondRequestGrounded(s: State, template: Template, question: string,
                                retrieved: seq<string>, stream: seq<Option<string>>)
    requires Coherent(s) && Storable(s) && question != ""
    ensures var o := Respond(s, template, true, question, retrieved, stream);
      o.reply.Answered? &&
      var req := o.reply.request;
      |req| > 1 && req[0].role == System &&
      Contains(req[0].content, Context(retrieved)) &&
      Contains(req[0].content, question) &&
      (forall i :: 0 <= i < |retrieved| ==> Contains(req[0].content, retrieved[i])) &&
      (forall i :: 0 < i < |req| ==> req[i].role != System) &&
      req[|req| - 1] == Turn(User, question)
  {
    var o := Respond(s, template, true, question, retrieved, stream);
    var t := Load(s);
    var req := o.reply.request;
    RenderGrounded(template, retrieved, question);
    forall i | 0 < i < |req|
      ensures req[i].role != System
    {
      if i < |t| {
        assert req[i] == o.state.prompt.value[1..|t|][i - 1];
      }
    }
  }

  /** What the user last saw while the answer streamed in is what the
      history keeps as the assistant turn; with no streamed text, nothing was
      displayed and the stored answer is empty. */
  lemma DisplayMatchesStored(s: State, template: Template, question: string,
                             retrieved: seq<string>, stream: seq<Option<string>>)
    requires Storable(s) && question != ""
    ensures var t' := Respond(s, template, true, question, retrieved, stream).state.prompt.value;
      var shown := Displayed(Fragments(stream));
      t'[|t'| - 1] == Turn(Assistant, if |shown| == 0 then "" else shown[|shown| - 1])
  {
    var fs := Fragments(stream);
    DisplayedValues(fs);
    ResponseFacts(stream);
  }

  /** A step keeps the stored history in shape. */
  lemma RespondKeepsCoherent(s: State, template: Template, indexed: bool, question: string,
                             retrieved: seq<string>, stream: seq<Option<string>>)
    requires Coherent(s) && Storable(s)
    ensures Coherent(Respond(s, template, indexed, question, retrieved, stream).state)
  {
    if question != "" && indexed {
      var t := Load(s);
      assert WellFormed(t);
      var t' := Respond(s, template, indexed, question, retrieved, stream).state.prompt.value;
      forall i | 1 <= i < |t'|
        ensures t'[i].role == (if i % 2 == 1 then User else Assistant)
      {
        if i < |t| {
          assert t'[i] == t'[1..|t|][i - 1];
        }
      }
    }
  }

  /** The page after a sequence of inputs, handled in order. */
  function Run(s: State, steps: seq<Step>): (r: State)
    requires Storable(s)
    ensures Storable(r)
    decreases |steps|
  {
    if |steps| == 0 then s
    else
      var st := steps[0];
      Run(Ask(s, st.indexed, st.question, st.retrieved, st.stream).state, steps[1..])
  }

  /** How many inputs got an answer: a question submitted while an index was
      present. */
  function AnsweredCount(steps: seq<Step>): nat
    decreases |steps|
  {
    if |steps| == 0 then 0
    else (if steps[0].indexed && steps[0].question != "" then 1 else 0) + AnsweredCount(steps[1..])
  }

  /** Every answered question grows the history by two turns; other inputs
      leave it as it was. The shape is kept throughout. */
  lemma {:induction false} RunGrowth(s: State, steps: seq<Step>)
    requires Coherent(s) && Storable(s)
    ensures Coherent(Run(s, steps))
    ensures |Load(Run(s, steps))| == |Load(s)| + 2 * AnsweredCount(steps)
    decreases |steps|
  {
    if |steps| > 0 {
      var st := steps[0];
      var next := Ask(s, st.indexed, st.question, st.retrieved, st.stream).state;
      RespondKeepsCoherent(s, Instruction, st.indexed, st.question, st.retrieved, st.stream);
      RunGrowth(next, steps[1..]);
    }
  }

  /** From a fresh session, after any inputs: exactly one system turn, in
      slot 0; a user turn at every odd slot and an assistant turn at every
      even slot from 2 on; one user and one assistant turn per answered
      question. */
  lemma FreshSessionInvariant(steps: seq<Step>)
    ensures var t := Load(Run(State(None), steps));
      WellFormed(t) &&
      |t| == 1 + 2 * AnsweredCount(steps) &&
      CountRole(t, System) == 1 &&
      CountRole(t, User) == AnsweredCount(steps) &&
      CountRole(t, Assistant) == AnsweredCount(steps) &&
      (forall i :: 0 <= i < |t| ==> (t[i].role == System <==> i == 0))
  {
    var s := State(None);
    RunGrowth(s, steps);
    var t := Load(Run(s, steps));
    InitialWellFormed();
    assert WellFormed(t);
    WellFormedCounts(t);
    forall i | 0 <= i < |t|
      ensures t[i].role == System <==> i == 0
    {
      WellFormedSystemOnlyAtZero(t, i);
    }
  }
}
