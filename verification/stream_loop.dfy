/** The fallback loop written the way app.py:458-480 runs it: a loop over the
    candidates with an inner loop over each stream's chunks, appending
    fragments as they are yielded. It produces exactly the run that the
    recursive definition Dispatcher.Attempts describes. */
module StreamLoop {
  import opened Catalog
  import opened Conversation
  import opened Dispatcher
  import opened DispatchProperties

  /** Consume one stream (app.py:467-470), appending each delta with
      non-empty text to what was already yielded. */
  method ConsumeStream(yielded: seq<Fragment>, deltas: seq<Delta>) returns (out: seq<Fragment>)
    ensures out == yielded + Emit(deltas)
  {
    out := yielded;
    var j := 0;
    while j < |deltas|
      invariant 0 <= j <= |deltas|
      invariant out == yielded + Emit(deltas[..j])
    {
      var text := DeltaText(deltas[j]);
      if text != "" {
        out := out + [Content(text)];
      }
      EmitAppend(deltas[..j], [deltas[j]]);
      assert deltas[..j + 1] == deltas[..j] + [deltas[j]];
      j := j + 1;
    }
    assert deltas[..j] == deltas;
  }

  /** One pass of the `try` block and its handler (app.py:459-478): stream
      the candidate's deltas, then say whether the loop stops here and how. */
  method TryCandidate(yielded: seq<Fragment>, outcome: Outcome, retryable: string -> bool)
    returns (out: seq<Fragment>, stop: bool, ending: Ending)
    ensures stop <==> !RetryableFailure(outcome, retryable)
    ensures stop ==> ending == (if outcome.end.Done? then Finished else Aborted(outcome.end.message))
    ensures out == yielded + Emit(outcome.deltas) + (if stop then Closing(ending) else [])
  {
    out := ConsumeStream(yielded, outcome.deltas);
    match outcome.end {
      case Done =>
        stop, ending := true, Finished;
      case Fail(err) =>
        if retryable(err) {
          stop, ending := false, Exhausted;
        } else {
          out := out + [ErrorNotice(err)];
          stop, ending := true, Aborted(err);
        }
    }
  }

  method StreamResponseLoop(candidates: seq<ModelId>, request: seq<Message>, provider: Provider, retryable: string -> bool)
    returns (fragments: seq<Fragment>, tried: seq<ModelId>, ending: Ending)
    ensures Run(fragments, tried, ending) == Attempts(candidates, request, provider, retryable)
  {
    fragments := [];
    tried := [];
    var i := 0;
    while i < |candidates|
      invariant 0 <= i <= |candidates|
      invariant tried == candidates[..i]
      invariant forall j :: 0 <= j < i ==> RetryableFailure(provider(candidates[j], request), retryable)
      invariant fragments == Streamed(tried, request, provider)
    {
      var model := candidates[i];
      var out, stop, how := TryCandidate(fragments, provider(model, request), retryable);
      StreamedAppend(tried, model, request, provider);
      assert candidates[..i + 1] == tried + [model];
      tried := tried + [model];
      if stop {
        StopsAtFirstSettled(candidates, request, provider, i, retryable);
        fragments, ending := out, how;
        return;
      }
      fragments := out;
      i := i + 1;
    }
    assert tried == candidates;
    AllRetryableExhausts(candidates, request, provider, retryable);
    fragments := fragments + [CapacityNotice];
    ending := Exhausted;
  }
}
