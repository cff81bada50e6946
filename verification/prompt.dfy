/** The system instruction built for each question: the retrieved chunk
    texts joined into one context string and substituted, together with the
    question, into a fixed template. */
module Prompt {
  import opened Text

  /** A template with two holes, `{context}` then `{question}`, given as the
      literal text around them. */
  datatype Template = Template(head: string, middle: string, tail: string)

  /** The system-instruction template of the question handler. */
  const Instruction: Template := Template(
    "\n    Welcome to the Assistant!\n\n" +
    "    I am here to assist you with answering questions based on the content of the provided documents. \n" +
    "    Here are some ways you can interact with me:\n\n" +
    "    1. Document-Based Question Answering (QA):\n" +
    "       - Ask me any question related to the document content, and I will provide responses based on the information within.\n\n" +
    "    2. Section-Specific Queries:\n" +
    "       - Reference key phrases or topics from the document for specific details.\n\n" +
    "    3. Clarifications:\n" +
    "       - Ask for explanations or clarifications on terms or any part of the document.\n\n" +
    "    Important: All my responses will be based on the document content provided.\n\n" +
    "    Context: ",
    "\n\n    User Question: ",
    "\n    ")

  /** The context string: the retrieved contents, in the order retrieval
      returned them, joined by newlines. */
  function Context(retrieved: seq<string>): string {
    Join(retrieved, "\n")
  }

  /** The context keeps every retrieved text: its length is the sum of theirs
      plus one newline between neighbours, each one occurs in it verbatim, and
      when no text holds a newline, splitting it on newlines gives back the
      retrieved list itself (same order, duplicates kept). */
  lemma ContextKeepsRetrieved(retrieved: seq<string>)
    ensures |retrieved| == 0 ==> Context(retrieved) == ""
    ensures |retrieved| > 0 ==> |Context(retrieved)| == TotalLength(retrieved) + |retrieved| - 1
    ensures forall i :: 0 <= i < |retrieved| ==> Contains(Context(retrieved), retrieved[i])
    ensures |retrieved| > 0 && (forall i :: 0 <= i < |retrieved| ==> '\n' !in retrieved[i]) ==>
              Split(Context(retrieved), '\n') == retrieved
  {
    forall i | 0 <= i < |retrieved|
      ensures Contains(Context(retrieved), retrieved[i])
    {
      JoinContainsPart(retrieved, "\n", i);
    }
    if |retrieved| > 0 && (forall i :: 0 <= i < |retrieved| ==> '\n' !in retrieved[i]) {
      SplitJoin(retrieved, '\n');
    }
  }

  /** The template with its two holes filled once each. */
  function Render(t: Template, context: string, question: string): string {
    t.head + context + t.middle + question + t.tail
  }

  /** Where each value lands: the context right after the head, the question
      right after the middle, and the tail closes the text. Values are
      inserted verbatim; braces inside them are not read as further holes. */
  lemma RenderLayout(t: Template, context: string, question: string)
    ensures var r := Render(t, context, question);
      |r| == |t.head| + |context| + |t.middle| + |question| + |t.tail| &&
      r[..|t.head|] == t.head &&
      r[|t.head|..|t.head| + |context|] == context &&
      r[|t.head| + |context|..|t.head| + |context| + |t.middle|] == t.middle &&
      r[|t.head| + |context| + |t.middle|..|r| - |t.tail|] == question &&
      r[|r| - |t.tail|..] == t.tail
  {
    var r := Render(t, context, question);
    assert r == t.head + (context + (t.middle + (question + t.tail)));
  }

  /** A rendered template carries both the context and the question
      verbatim. */
  lemma RenderContains(t: Template, context: string, question: string)
    ensures Contains(Render(t, context, question), context)
    ensures Contains(Render(t, context, question), question)
  {
    var r := Render(t, context, question);
    RenderLayout(t, context, question);
    assert OccursAt(r, |t.head|, context);
    assert OccursAt(r, |t.head| + |context| + |t.middle|, question);
  }

  /** Rendering any template with the context of a retrieval keeps the
      question and every retrieved text verbatim. */
  lemma RenderGrounded(t: Template, retrieved: seq<string>, question: string)
    ensures var r := Render(t, Context(retrieved), question);
      Contains(r, Context(retrieved)) && Contains(r, question) &&
      forall i :: 0 <= i < |retrieved| ==> Contains(r, retrieved[i])
  {
    var r := Render(t, Context(retrieved), question);
    RenderContains(t, Context(retrieved), question);
    ContextKeepsRetrieved(retrieved);
    forall i | 0 <= i < |retrieved|
      ensures Contains(r, retrieved[i])
    {
      ContainsTransitive(r, Context(retrieved), retrieved[i]);
    }
  }
}
