/** Folding the streamed completion into the assistant's answer. Each
    streamed fragment carries an optional text delta; deltas that are absent
    are skipped, and after each present one the answer so far is the stripped
    concatenation of the texts received. */
module Streaming {
  import opened Wrappers
  import opened Text

  /** The texts of the present deltas, in arrival order. */
  function Fragments(stream: seq<Option<string>>): (fs: seq<string>)
    ensures |fs| <= |stream|
    ensures forall j :: 0 <= j < |fs| ==> Some(fs[j]) in stream
    decreases |stream|
  {
    if |stream| == 0 then []
    else
      var rest := Fragments(stream[1..]);
      match stream[0]
      case None => rest
      case Some(text) => [text] + rest
  }

  /** Fragments distribute over a stream cut in two: nothing is reordered,
      merged or lost at the cut. */
  lemma {:induction false} FragmentsAppend(a: seq<Option<string>>, b: seq<Option<string>>)
    ensures Fragments(a + b) == Fragments(a) + Fragments(b)
    decreases |a|
  {
    if |a| > 0 {
      assert (a + b)[1..] == a[1..] + b;
      FragmentsAppend(a[1..], b);
    } else {
      assert a + b == b;
    }
  }

  /** `"".join(fs).strip()`: the texts concatenated in order, stripped. */
  function Answer(fs: seq<string>): string {
    Strip(Join(fs, ""))
  }

  /** The final answer: the concatenation of the present deltas, stripped. */
  function Response(stream: seq<Option<string>>): string {
    Answer(Fragments(stream))
  }

  /** The answer is the stripped concatenation, is empty when no delta had
      text, and is unaffected by absent deltas. */
  lemma ResponseFacts(stream: seq<Option<string>>)
    ensures IsStripOf(Join(Fragments(stream), ""), Response(stream))
    ensures Fragments(stream) == [] ==> Response(stream) == ""
    ensures Response(stream + [None]) == Response(stream)
  {
    StripMeetsDescription(Join(Fragments(stream), ""));
    FragmentsAppend(stream, [None]);
    assert Fragments([None]) == [];
    assert Fragments(stream) + [] == Fragments(stream);
  }

  /** What the display holds once text number `k` (from 0) has been
      received: the concatenation of texts 0 to `k`, stripped. */
  function Shown(fs: seq<string>, k: nat): string
    requires k < |fs|
  {
    Answer(fs[..k + 1])
  }

  /** Receiving a further text leaves the earlier displayed values as they
      were. */
  lemma ShownExtend(fs: seq<string>, text: string, k: nat)
    requires k < |fs|
    ensures Shown(fs + [text], k) == Shown(fs, k)
  {
    assert (fs + [text])[..k + 1] == fs[..k + 1];
  }

  /** The last displayed value is the stripped concatenation of all texts
      received. */
  lemma ShownLast(fs: seq<string>)
    requires |fs| > 0
    ensures Shown(fs, |fs| - 1) == Answer(fs)
  {
    assert fs[..|fs|] == fs;
  }

  /** Once the received list grows by one text, the displayed values so far
      are still the right ones, and the new one is the stripped concatenation
      of the grown list. */
  lemma ShownAppend(response: seq<string>, shown: seq<string>, text: string)
    requires |shown| == |response|
    requires forall k :: 0 <= k < |shown| ==> shown[k] == Shown(response, k)
    ensures forall k :: 0 <= k < |shown| ==> Shown(response + [text], k) == shown[k]
    ensures Shown(response + [text], |shown|) == Answer(response + [text])
  {
    forall k | 0 <= k < |shown|
      ensures Shown(response + [text], k) == shown[k]
    {
      ShownExtend(response, text, k);
    }
    ShownLast(response + [text]);
  }

  /** The displayed values after the texts `fs` have been received, in
      display order. */
  function Displayed(fs: seq<string>): seq<string>
    decreases |fs|
  {
    if |fs| == 0 then [] else Displayed(fs[..|fs| - 1]) + [Answer(fs)]
  }

  /** One displayed value per received text, value number `k` being the
      stripped concatenation of texts 0 to `k`; the last one is the final
      answer. */
  lemma {:induction false} DisplayedValues(fs: seq<string>)
    ensures |Displayed(fs)| == |fs|
    ensures forall k :: 0 <= k < |fs| ==> Displayed(fs)[k] == Shown(fs, k)
    ensures |fs| > 0 ==> Displayed(fs)[|fs| - 1] == Answer(fs)
    decreases |fs|
  {
    if |fs| > 0 {
      var before := fs[..|fs| - 1];
      DisplayedValues(before);
      assert fs == before + [fs[|fs| - 1]];
      ShownAppend(before, Displayed(before), fs[|fs| - 1]);
    }
  }

  /** The loop of the question handler: walks the stream, appends each present
      delta to the received list, recomputes the stripped concatenation and
      hands it to the display. Returns the final answer and the sequence of
      texts displayed, one per present delta. */
  method Collect(stream: seq<Option<string>>) returns (result: string, shown: seq<string>)
    ensures result == Response(stream)
    ensures |shown| == |Fragments(stream)|
    ensures forall k :: 0 <= k < |shown| ==> shown[k] == Shown(Fragments(stream), k)
    ensures |shown| > 0 ==> shown[|shown| - 1] == result
    ensures |shown| == 0 ==> result == ""
  {
    var response: seq<string> := [];
    result := "";
    shown := [];
    for i := 0 to |stream|
      invariant response == Fragments(stream[..i])
      invariant result == Answer(response)
      invariant shown == Displayed(response)
    {
      assert stream[..i + 1] == stream[..i] + [stream[i]];
      FragmentsAppend(stream[..i], [stream[i]]);
      var delta := stream[i];
      if delta.Some? {
        assert Fragments([stream[i]]) == [delta.value];
        response := response + [delta.value];
        assert response[..|response| - 1] == Fragments(stream[..i]);
        result := Answer(response);
        shown := shown + [result];
      } else {
        assert Fragments([stream[i]]) == [];
        assert response + [] == response;
      }
    }
    assert stream[..|stream|] == stream;
    DisplayedValues(response);
  }
}
