/** The model-fallback streaming dispatcher `stream_response` (app.py:443-480).

    The completion provider is abstracted as a total function from a model
    and a message list to an Outcome: the deltas its stream delivers, then
    either a clean end or an exception whose text is `str(e)`. A failure of
    the request itself, before any chunk, is an Outcome with no deltas.

    Where the source yields plain strings, the model yields tagged Fragments;
    Render gives the exact string each one stands for.

    The loop is stated for any error classifier `retryable`; StreamResponse
    runs it with IsRetryable, the marker test of app.py:475. */
module Dispatcher {
  import opened Wrappers
  import opened Strings
  import opened Catalog
  import opened Conversation

  /** `chunk.choices[0].delta` of one streamed chunk: absent, or present with
      optional text content. */
  datatype Delta = NoDelta | Delta(content: Option<string>)

  /** How a provider stream ends: cleanly, or by raising an exception whose
      message is `str(e)`. */
  datatype End = Done | Fail(message: string)

  datatype Outcome = Outcome(deltas: seq<Delta>, end: End)

  /** The completion provider: what the stream opened for a model with a
      message list delivers. */
  type Provider = (ModelId, seq<Message>) -> Outcome

  /** A unit of output: model text, the notice for a non-retryable error,
      or the final notice that every model was tried. */
  datatype Fragment = Content(text: string) | ErrorNotice(message: string) | CapacityNotice

  /** Both notices open with a blank line and the warning sign. */
  const NoticeLead: string := "\n\n\U{26A0}\U{FE0F} "
  const ErrorPrefix: string := NoticeLead + "**Error:** "
  const CapacityText: string := NoticeLead + "All models are at capacity." + " Please try again shortly."

  /** The string the source yields for a fragment (app.py:470, 477, 480):
      model text verbatim, the error text behind a fixed prefix, or the
      capacity sentence. Both notices open with a blank line and the warning
      sign, and they never coincide. */
  function Render(f: Fragment): (r: string)
    ensures f.Content? ==> r == f.text
    ensures f.ErrorNotice? ==>
      |r| == |ErrorPrefix| + |f.message| && r[..|ErrorPrefix|] == ErrorPrefix && r[|ErrorPrefix|..] == f.message
    ensures f.CapacityNotice? ==> r == CapacityText
    ensures !f.Content? ==> |r| >= |NoticeLead| && r[..|NoticeLead|] == NoticeLead
    ensures f.ErrorNotice? ==> r != CapacityText
  {
    match f
    case Content(t) => t
    case ErrorNotice(m) =>
      assert (ErrorPrefix + m)[|NoticeLead|] == '*';
      assert CapacityText[|NoticeLead|] == "All models are at capacity."[0] == 'A';
      assert (ErrorPrefix + m)[..|NoticeLead|] == NoticeLead;
      ErrorPrefix + m
    case CapacityNotice =>
      assert CapacityText[..|NoticeLead|] == NoticeLead;
      CapacityText
  }

  function RenderAll(fs: seq<Fragment>): seq<string>
  {
    seq(|fs|, i requires 0 <= i < |fs| => Render(fs[i]))
  }

  /** The reply text a caller accumulates with `full_reply += chunk`
      (app.py:661, 668); a single fragment contributes its string. */
  function Reply(fs: seq<Fragment>): (r: string)
    ensures fs == [] ==> r == ""
    ensures |fs| == 1 ==> r == Render(fs[0])
  {
    assert |fs| == 1 ==> Concat(RenderAll(fs)) == Render(fs[0]) by {
      if |fs| == 1 {
        assert RenderAll(fs) == [Render(fs[0])];
        assert RenderAll(fs)[1..] == [];
      }
    }
    Concat(RenderAll(fs))
  }

  /** Accumulating one more fragment appends its string (app.py:668). */
  lemma ReplyAccumulates(fs: seq<Fragment>, f: Fragment)
    ensures Reply(fs + [f]) == Reply(fs) + Render(f)
  {
    assert RenderAll(fs + [f]) == RenderAll(fs) + RenderAll([f]);
    ConcatAppend(RenderAll(fs), RenderAll([f]));
    assert Reply([f]) == Render(f);
  }

  /** The error-text markers that send the dispatcher on to the next model
      (app.py:475). */
  const RetryMarkers: seq<string> := ["429", "404", "rate", "quota", "not found", "endpoint", "temporarily"]

  /** Some marker of `markers` occurs in `err`. */
  function AnyOccurs(markers: seq<string>, err: string): bool
  {
    if markers == [] then false
    else Contains(markers[0], err) || AnyOccurs(markers[1..], err)
  }

  lemma {:induction false} AnyOccursMeansSome(markers: seq<string>, err: string)
    ensures AnyOccurs(markers, err) <==> exists k :: k in markers && Occurs(k, err)
    decreases |markers|
  {
    if markers != [] {
      AnyOccursMeansSome(markers[1..], err);
      assert forall k :: k in markers <==> k == markers[0] || k in markers[1..];
    }
  }

  /** One of the markers occurs in the error text. */
  ghost predicate MentionsMarker(err: string)
  {
    exists k :: k in RetryMarkers && Occurs(k, err)
  }

  /** `any(k in err for k in [...])` (app.py:475): a case-sensitive
      substring test against each marker. */
  function IsRetryable(err: string): (r: bool)
    ensures r <==> MentionsMarker(err)
  {
    AnyOccursMeansSome(RetryMarkers, err);
    AnyOccurs(RetryMarkers, err)
  }

  /** The text a delta carries; an absent delta or absent content carries none. */
  function DeltaText(d: Delta): string
  {
    match d
    case NoDelta => ""
    case Delta(c) => if c.Some? then c.value else ""
  }

  /** The fragments yielded while consuming a stream (app.py:467-470): each
      delta with non-empty text, verbatim and in stream order. */
  function Emit(ds: seq<Delta>): (r: seq<Fragment>)
    ensures |r| <= |ds|
    ensures forall i :: 0 <= i < |r| ==> r[i].Content? && r[i].text != ""
  {
    if ds == [] then []
    else
      var t := DeltaText(ds[0]);
      (if t != "" then [Content(t)] else []) + Emit(ds[1..])
  }

  /** Filtering drops no text: the reply built from a stream is all of its
      deltas' text in order. */
  lemma {:induction false} EmitKeepsText(ds: seq<Delta>)
    ensures Reply(Emit(ds)) == Concat(seq(|ds|, i requires 0 <= i < |ds| => DeltaText(ds[i])))
    decreases |ds|
  {
    var texts := seq(|ds|, i requires 0 <= i < |ds| => DeltaText(ds[i]));
    if ds != [] {
      EmitKeepsText(ds[1..]);
      var t := DeltaText(ds[0]);
      var head: seq<Fragment> := if t != "" then [Content(t)] else [];
      assert texts[1..] == seq(|ds[1..]|, i requires 0 <= i < |ds[1..]| => DeltaText(ds[1..][i]));
      assert RenderAll(head + Emit(ds[1..])) == RenderAll(head) + RenderAll(Emit(ds[1..]));
      ConcatAppend(RenderAll(head), RenderAll(Emit(ds[1..])));
      if t != "" {
        assert Concat(RenderAll(head)) == t;
      } else {
        assert RenderAll(head) == [];
      }
    }
  }

  /** Consuming a stream in two parts yields the two parts' fragments. */
  lemma {:induction false} EmitAppend(a: seq<Delta>, b: seq<Delta>)
    ensures Emit(a + b) == Emit(a) + Emit(b)
    decreases |a|
  {
    if a == [] {
      assert a + b == b;
    } else {
      assert (a + b)[1..] == a[1..] + b;
      EmitAppend(a[1..], b);
    }
  }

  /** A stream that only ever carries non-empty text is shown in full. */
  lemma {:induction false} EmitAllText(ds: seq<Delta>)
    requires forall i :: 0 <= i < |ds| ==> DeltaText(ds[i]) != ""
    ensures |Emit(ds)| == |ds|
    ensures forall i :: 0 <= i < |ds| ==> Emit(ds)[i] == Content(DeltaText(ds[i]))
    decreases |ds|
  {
    if ds != [] {
      EmitAllText(ds[1..]);
    }
  }

  /** `idx` lists, in increasing order, exactly the positions of the deltas
      that carry text. */
  ghost predicate TextPositions(ds: seq<Delta>, idx: seq<int>)
  {
    && (forall j :: 0 <= j < |idx| ==> 0 <= idx[j] < |ds| && DeltaText(ds[idx[j]]) != "")
    && (forall j, k :: 0 <= j < k < |idx| ==> idx[j] < idx[k])
    && (forall i :: 0 <= i < |ds| && DeltaText(ds[i]) != "" ==> i in idx)
  }

  /** The positions of the deltas that carry text, in stream order. */
  ghost function TextIndices(ds: seq<Delta>): seq<int>
    decreases |ds|
  {
    if ds == [] then []
    else
      var tail := TextIndices(ds[1..]);
      var shifted := seq(|tail|, j requires 0 <= j < |tail| => tail[j] + 1);
      if DeltaText(ds[0]) != "" then [0] + shifted else shifted
  }

  lemma {:induction false} TextIndicesInRange(ds: seq<Delta>)
    ensures forall j :: 0 <= j < |TextIndices(ds)| ==>
      0 <= TextIndices(ds)[j] < |ds| && DeltaText(ds[TextIndices(ds)[j]]) != ""
    decreases |ds|
  {
    if ds != [] {
      TextIndicesInRange(ds[1..]);
      var tail := TextIndices(ds[1..]);
      assert forall j :: 0 <= j < |tail| ==> ds[tail[j] + 1] == ds[1..][tail[j]];
    }
  }

  lemma {:induction false} TextIndicesIncrease(ds: seq<Delta>)
    ensures forall j :: 0 <= j < |TextIndices(ds)| ==> TextIndices(ds)[j] >= 0
    ensures forall j, k :: 0 <= j < k < |TextIndices(ds)| ==> TextIndices(ds)[j] < TextIndices(ds)[k]
    decreases |ds|
  {
    if ds != [] {
      TextIndicesIncrease(ds[1..]);
    }
  }

  lemma {:induction false} TextIndicesCover(ds: seq<Delta>)
    ensures forall i :: 0 <= i < |ds| && DeltaText(ds[i]) != "" ==> i in TextIndices(ds)
    decreases |ds|
  {
    if ds != [] {
      TextIndicesCover(ds[1..]);
      var tail := TextIndices(ds[1..]);
      var shifted := seq(|tail|, j requires 0 <= j < |tail| => tail[j] + 1);
      forall i | 1 <= i < |ds| && DeltaText(ds[i]) != ""
        ensures i in shifted
      {
        assert ds[1..][i - 1] == ds[i];
        var j :| 0 <= j < |tail| && tail[j] == i - 1;
        assert shifted[j] == i;
      }
    }
  }

  lemma TextIndicesArePositions(ds: seq<Delta>)
    ensures TextPositions(ds, TextIndices(ds))
  {
    TextIndicesInRange(ds);
    TextIndicesIncrease(ds);
    TextIndicesCover(ds);
  }

  lemma {:induction false} EmitAtTextIndices(ds: seq<Delta>)
    ensures |Emit(ds)| == |TextIndices(ds)|
    ensures forall j :: 0 <= j < |TextIndices(ds)| ==>
      0 <= TextIndices(ds)[j] < |ds| && Emit(ds)[j] == Content(DeltaText(ds[TextIndices(ds)[j]]))
    decreases |ds|
  {
    if ds != [] {
      EmitAtTextIndices(ds[1..]);
      var t := DeltaText(ds[0]);
      var rest := Emit(ds[1..]);
      var tail := TextIndices(ds[1..]);
      var shifted := seq(|tail|, j requires 0 <= j < |tail| => tail[j] + 1);
      var n := if t != "" then 1 else 0;
      var head: seq<Fragment> := if t != "" then [Content(t)] else [];
      var first: seq<int> := if t != "" then [0] else [];
      assert Emit(ds) == head + rest;
      assert TextIndices(ds) == first + shifted;
      forall j | n <= j < |TextIndices(ds)|
        ensures 0 <= TextIndices(ds)[j] < |ds| && Emit(ds)[j] == Content(DeltaText(ds[TextIndices(ds)[j]]))
      {
        assert TextIndices(ds)[j] == tail[j - n] + 1;
        assert Emit(ds)[j] == rest[j - n];
        assert ds[tail[j - n] + 1] == ds[1..][tail[j - n]];
      }
    }
  }

  /** The stream's yield is the stream filtered to the deltas that carry
      text: the j-th fragment is the text of the j-th such delta. */
  lemma EmitIsFilter(ds: seq<Delta>)
    ensures exists idx ::
      && TextPositions(ds, idx)
      && |Emit(ds)| == |idx|
      && forall j :: 0 <= j < |idx| ==> Emit(ds)[j] == Content(DeltaText(ds[idx[j]]))
  {
    TextIndicesArePositions(ds);
    EmitAtTextIndices(ds);
    var idx := TextIndices(ds);
    assert forall j :: 0 <= j < |idx| ==> Emit(ds)[j] == Content(DeltaText(ds[idx[j]]));
  }

  /** How the dispatch ended: a stream completed, a non-retryable error
      stopped it, or every candidate failed retryably. */
  datatype Ending = Finished | Aborted(error: string) | Exhausted

  /** What one call of the dispatcher produced: the fragments, the models it
      opened a stream for, in order, and how it ended. */
  datatype Run = Run(fragments: seq<Fragment>, tried: seq<ModelId>, ending: Ending)

  predicate RetryableFailure(o: Outcome, retryable: string -> bool)
  {
    o.end.Fail? && retryable(o.end.message)
  }

  /** The outcome of the last model tried is what ended the run. */
  predicate Settles(o: Outcome, ending: Ending, retryable: string -> bool)
  {
    || (ending.Finished? && o.end.Done?)
    || (ending.Aborted? && o.end == Fail(ending.error) && !retryable(ending.error))
  }

  /** Everything the streams of the tried models showed, in order. */
  function Streamed(models: seq<ModelId>, request: seq<Message>, provider: Provider): seq<Fragment>
  {
    if models == [] then [] else Emit(provider(models[0], request).deltas) + Streamed(models[1..], request, provider)
  }

  /** The notice a run closes with. */
  function Closing(ending: Ending): seq<Fragment>
  {
    match ending
    case Finished => []
    case Aborted(e) => [ErrorNotice(e)]
    case Exhausted => [CapacityNotice]
  }

  /** The loop over candidates (app.py:458-480), one candidate per step: the
      models tried are a prefix of the candidates, all of them when the run
      is exhausted. */
  function Attempts(candidates: seq<ModelId>, request: seq<Message>, provider: Provider, retryable: string -> bool): (r: Run)
    ensures |r.tried| <= |candidates| && r.tried == candidates[..|r.tried|]
    ensures r.ending.Exhausted? ==> r.tried == candidates
    ensures |candidates| > 0 ==> |r.tried| > 0
    decreases |candidates|
  {
    if candidates == [] then Run([CapacityNotice], [], Exhausted)
    else
      var model := candidates[0];
      var outcome := provider(model, request);
      var shown := Emit(outcome.deltas);
      match outcome.end
      case Done => Run(shown, [model], Finished)
      case Fail(err) =>
        if retryable(err) then
          var rest := Attempts(candidates[1..], request, provider, retryable);
          assert ([model] + rest.tried)[1..] == rest.tried;
          Run(shown + rest.fragments, [model] + rest.tried, rest.ending)
        else
          Run(shown + [ErrorNotice(err)], [model], Aborted(err))
  }

  /** `stream_response(messages, model_key)`: the candidate list for the
      selection, then the attempts, each sending the system prompt followed
      by the conversation. An unknown selection raises `KeyError` before
      any model is tried; it is returned as the error. */
  function StreamResponse(catalog: Catalog, modelKey: string, systemPrompt: string,
                          conversation: seq<Message>, provider: Provider): (r: Result<Run, string>)
    ensures r.Err? <==> Lookup(catalog, modelKey).None?
    ensures r.Err? ==> r.error == modelKey
    ensures r.Ok? ==> |r.value.tried| >= 1 && Lookup(catalog, modelKey) == Some(r.value.tried[0])
    ensures r.Ok? && r.value.ending.Exhausted? ==>
      |r.value.tried| == |Candidates(catalog, modelKey).value|
  {
    match Candidates(catalog, modelKey)
    case Err(k) => Err(k)
    case Ok(candidates) => Ok(Attempts(candidates, ApiMessages(systemPrompt, conversation), provider, IsRetryable))
  }
}
