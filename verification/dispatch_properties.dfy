/** What the fallback loop of `stream_response` promises its caller, stated
    over all candidate lists and all provider behaviours. */
module DispatchProperties {
  import opened Wrappers
  import opened Strings
  import opened Catalog
  import opened Conversation
  import opened Dispatcher

  /** Streams only ever show model text, never a notice. */
  lemma {:induction false} StreamedIsContent(models: seq<ModelId>, request: seq<Message>, provider: Provider)
    ensures forall i :: 0 <= i < |Streamed(models, request, provider)| ==> Streamed(models, request, provider)[i].Content?
    decreases |models|
  {
    if models != [] {
      StreamedIsContent(models[1..], request, provider);
    }
  }

  /** The output of a run is what the tried models' streams showed, in
      order, followed by the closing notice. */
  lemma {:induction false} OutputOfRun(candidates: seq<ModelId>, request: seq<Message>, provider: Provider, retryable: string -> bool)
    ensures var r := Attempts(candidates, request, provider, retryable);
      r.fragments == Streamed(r.tried, request, provider) + Closing(r.ending)
    decreases |candidates|
  {
    if candidates != [] {
      var model := candidates[0];
      var outcome := provider(model, request);
      if RetryableFailure(outcome, retryable) {
        var rest := Attempts(candidates[1..], request, provider, retryable);
        OutputOfRun(candidates[1..], request, provider, retryable);
        RetryMovesOn(candidates, request, provider, retryable);
        assert ([model] + rest.tried)[1..] == rest.tried;
      } else {
        assert Streamed([model], request, provider) == Emit(outcome.deltas) + Streamed([], request, provider);
      }
    }
  }

  /** Every tried model but the last failed retryably. */
  lemma {:induction false} RetriedBeforeLast(candidates: seq<ModelId>, request: seq<Message>, provider: Provider, retryable: string -> bool)
    ensures var r := Attempts(candidates, request, provider, retryable);
      forall j :: 0 <= j < |r.tried| - 1 ==> RetryableFailure(provider(r.tried[j], request), retryable)
    decreases |candidates|
  {
    if candidates != [] && RetryableFailure(provider(candidates[0], request), retryable) {
      var rest := Attempts(candidates[1..], request, provider, retryable);
      RetriedBeforeLast(candidates[1..], request, provider, retryable);
      RetryMovesOn(candidates, request, provider, retryable);
      var r := Attempts(candidates, request, provider, retryable);
      assert forall j :: 1 <= j < |r.tried| ==> r.tried[j] == rest.tried[j - 1];
    }
  }

  /** An exhausted run saw every candidate fail retryably. */
  lemma {:induction false} ExhaustedAllRetried(candidates: seq<ModelId>, request: seq<Message>, provider: Provider, retryable: string -> bool)
    requires Attempts(candidates, request, provider, retryable).ending.Exhausted?
    ensures forall j :: 0 <= j < |candidates| ==> RetryableFailure(provider(candidates[j], request), retryable)
    decreases |candidates|
  {
    if candidates != [] {
      assert RetryableFailure(provider(candidates[0], request), retryable);
      RetryMovesOn(candidates, request, provider, retryable);
      ExhaustedAllRetried(candidates[1..], request, provider, retryable);
      assert forall j :: 1 <= j < |candidates| ==> candidates[j] == candidates[1..][j - 1];
    }
  }

  /** Unless the run was exhausted, the last model's own outcome ended it. */
  lemma {:induction false} LastSettles(candidates: seq<ModelId>, request: seq<Message>, provider: Provider, retryable: string -> bool)
    requires !Attempts(candidates, request, provider, retryable).ending.Exhausted?
    ensures var r := Attempts(candidates, request, provider, retryable);
      Settles(provider(r.tried[|r.tried| - 1], request), r.ending, retryable)
    decreases |candidates|
  {
    if RetryableFailure(provider(candidates[0], request), retryable) {
      var rest := Attempts(candidates[1..], request, provider, retryable);
      RetryMovesOn(candidates, request, provider, retryable);
      LastSettles(candidates[1..], request, provider, retryable);
      var r := Attempts(candidates, request, provider, retryable);
      assert r.tried[|r.tried| - 1] == rest.tried[|rest.tried| - 1];
    }
  }

  /** Trying one more model appends what its stream shows. */
  lemma {:induction false} StreamedAppend(models: seq<ModelId>, model: ModelId, request: seq<Message>, provider: Provider)
    ensures Streamed(models + [model], request, provider) ==
      Streamed(models, request, provider) + Emit(provider(model, request).deltas)
    decreases |models|
  {
    if models == [] {
      assert Streamed([model][1..], request, provider) == [];
      assert [] + [model] == [model];
    } else {
      assert (models + [model])[1..] == models[1..] + [model];
      StreamedAppend(models[1..], model, request, provider);
    }
  }

  /** The run stops at the first candidate that does not fail retryably
      (app.py:471, 476, 478): every candidate up to it is tried, none after
      it, and how it ended decides the closing fragment. */
  lemma {:induction false} StopsAtFirstSettled(candidates: seq<ModelId>, request: seq<Message>, provider: Provider, k: int, retryable: string -> bool)
    requires 0 <= k < |candidates|
    requires forall j :: 0 <= j < k ==> RetryableFailure(provider(candidates[j], request), retryable)
    requires !RetryableFailure(provider(candidates[k], request), retryable)
    ensures Attempts(candidates, request, provider, retryable).tried == candidates[..k + 1]
    ensures Attempts(candidates, request, provider, retryable).ending ==
      (if provider(candidates[k], request).end.Done? then Finished
       else Aborted(provider(candidates[k], request).end.message))
    ensures Attempts(candidates, request, provider, retryable).fragments ==
      Streamed(candidates[..k + 1], request, provider) + Closing(Attempts(candidates, request, provider, retryable).ending)
    decreases k
  {
    if k > 0 {
      var rest := candidates[1..];
      assert forall j :: 0 <= j < k - 1 ==> rest[j] == candidates[j + 1];
      StopsAtFirstSettled(rest, request, provider, k - 1, retryable);
      assert RetryableFailure(provider(candidates[0], request), retryable);
      assert candidates[..k + 1] == [candidates[0]] + rest[..k];
    }
    OutputOfRun(candidates, request, provider, retryable);
  }

  /** When the preferred model's stream completes, its text is the whole
      output and no other model is tried (app.py:467-471). */
  lemma CleanSuccessStops(candidates: seq<ModelId>, request: seq<Message>, provider: Provider, retryable: string -> bool)
    requires |candidates| > 0 && provider(candidates[0], request).end.Done?
    ensures Attempts(candidates, request, provider, retryable) ==
      Run(Emit(provider(candidates[0], request).deltas), [candidates[0]], Finished)
  {
    StopsAtFirstSettled(candidates, request, provider, 0, retryable);
    var ds := provider(candidates[0], request).deltas;
    assert Streamed([candidates[0]], request, provider) == Emit(ds) + Streamed([], request, provider);
  }

  /** A retryable failure adds nothing for itself, keeps what the failing
      model already showed, and hands over to the next candidate
      (app.py:473-476). */
  lemma RetryMovesOn(candidates: seq<ModelId>, request: seq<Message>, provider: Provider, retryable: string -> bool)
    requires |candidates| > 0 && RetryableFailure(provider(candidates[0], request), retryable)
    ensures var r := Attempts(candidates, request, provider, retryable);
      var rest := Attempts(candidates[1..], request, provider, retryable);
      && r.fragments == Emit(provider(candidates[0], request).deltas) + rest.fragments
      && r.tried == [candidates[0]] + rest.tried
      && r.ending == rest.ending
    ensures |candidates| > 1 ==> Attempts(candidates, request, provider, retryable).tried[..2] == candidates[..2]
  {
    if |candidates| > 1 {
      FirstCandidateIsTried(candidates[1..], request, provider, retryable);
    }
  }

  /** The first candidate is always tried. */
  lemma FirstCandidateIsTried(candidates: seq<ModelId>, request: seq<Message>, provider: Provider, retryable: string -> bool)
    requires |candidates| > 0
    ensures |Attempts(candidates, request, provider, retryable).tried| > 0
    ensures Attempts(candidates, request, provider, retryable).tried[0] == candidates[0]
  {
  }

  /** A non-retryable failure adds exactly one error notice carrying the
      error text and ends the run there (app.py:477-478). */
  lemma NonRetryableStops(candidates: seq<ModelId>, request: seq<Message>, provider: Provider, retryable: string -> bool)
    requires |candidates| > 0
    requires provider(candidates[0], request).end.Fail?
    requires !retryable(provider(candidates[0], request).end.message)
    ensures var o := provider(candidates[0], request);
      Attempts(candidates, request, provider, retryable) ==
        Run(Emit(o.deltas) + [ErrorNotice(o.end.message)], [candidates[0]], Aborted(o.end.message))
  {
    StopsAtFirstSettled(candidates, request, provider, 0, retryable);
    var o := provider(candidates[0], request);
    assert Streamed([candidates[0]], request, provider) == Emit(o.deltas) + Streamed([], request, provider);
  }

  /** When every candidate fails retryably, each one is tried once and the
      output ends with the capacity notice (app.py:458, 480). */
  lemma {:induction false} AllRetryableExhausts(candidates: seq<ModelId>, request: seq<Message>, provider: Provider, retryable: string -> bool)
    requires forall j :: 0 <= j < |candidates| ==> RetryableFailure(provider(candidates[j], request), retryable)
    ensures Attempts(candidates, request, provider, retryable).ending == Exhausted
    ensures Attempts(candidates, request, provider, retryable).tried == candidates
    ensures Attempts(candidates, request, provider, retryable).fragments ==
      Streamed(candidates, request, provider) + [CapacityNotice]
    decreases |candidates|
  {
    if candidates != [] {
      var rest := candidates[1..];
      assert forall j :: 0 <= j < |rest| ==> rest[j] == candidates[j + 1];
      AllRetryableExhausts(rest, request, provider, retryable);
      RetryMovesOn(candidates, request, provider, retryable);
      assert candidates == [candidates[0]] + rest;
    }
  }

  /** The capacity notice appears exactly when every candidate failed
      retryably, and then once and last. */
  lemma CapacityNoticeMarksExhaustion(candidates: seq<ModelId>, request: seq<Message>, provider: Provider, retryable: string -> bool)
    ensures var r := Attempts(candidates, request, provider, retryable);
      && (CapacityNotice in r.fragments <==> r.ending.Exhausted?)
      && multiset(r.fragments)[CapacityNotice] == (if r.ending.Exhausted? then 1 else 0)
      && (r.ending.Exhausted? ==> |r.fragments| > 0 && r.fragments[|r.fragments| - 1] == CapacityNotice)
  {
    var r := Attempts(candidates, request, provider, retryable);
    var shown := Streamed(r.tried, request, provider);
    OutputOfRun(candidates, request, provider, retryable);
    StreamedIsContent(r.tried, request, provider);
    assert CapacityNotice !in shown;
    assert multiset(r.fragments) == multiset(shown) + multiset(Closing(r.ending));
  }

  /** An error notice appears exactly when a non-retryable error ended the
      run, and then once, last, and carrying that error's text. */
  lemma ErrorNoticeMarksAbort(candidates: seq<ModelId>, request: seq<Message>, provider: Provider, e: string, retryable: string -> bool)
    ensures var r := Attempts(candidates, request, provider, retryable);
      && (ErrorNotice(e) in r.fragments <==> r.ending == Aborted(e))
      && multiset(r.fragments)[ErrorNotice(e)] == (if r.ending == Aborted(e) then 1 else 0)
      && (r.ending.Aborted? ==> |r.fragments| > 0 && r.fragments[|r.fragments| - 1] == ErrorNotice(r.ending.error))
  {
    var r := Attempts(candidates, request, provider, retryable);
    var shown := Streamed(r.tried, request, provider);
    OutputOfRun(candidates, request, provider, retryable);
    StreamedIsContent(r.tried, request, provider);
    assert ErrorNotice(e) !in shown;
    assert multiset(r.fragments) == multiset(shown) + multiset(Closing(r.ending));
  }

  /** So the capacity notice is never emitted while a candidate remains
      untried. */
  lemma CapacityOnlyAfterEveryCandidate(candidates: seq<ModelId>, request: seq<Message>, provider: Provider, retryable: string -> bool)
    requires CapacityNotice in Attempts(candidates, request, provider, retryable).fragments
    ensures Attempts(candidates, request, provider, retryable).tried == candidates
  {
    CapacityNoticeMarksExhaustion(candidates, request, provider, retryable);
  }

  /** The dispatcher for a catalog selection: the preferred model is tried
      first, and an exhausted run tried every candidate, that is every
      catalog model, each once. */
  lemma StreamResponseTriesCatalog(catalog: Catalog, modelKey: string, systemPrompt: string,
                                   conversation: seq<Message>, provider: Provider)
    requires Lookup(catalog, modelKey).Some?
    ensures var r := StreamResponse(catalog, modelKey, systemPrompt, conversation, provider);
      && r.Ok?
      && r.value.tried[0] == Lookup(catalog, modelKey).value
      && (r.value.ending.Exhausted? ==>
            (forall x :: x in Values(catalog) ==> x in r.value.tried)
            && multiset(r.value.tried)[r.value.tried[0]] == 1)
  {
    var r := StreamResponse(catalog, modelKey, systemPrompt, conversation, provider);
    if r.value.ending.Exhausted? {
      assert r.value.tried == Candidates(catalog, modelKey).value;
      CandidatesCounts(catalog, modelKey);
    }
  }

  /** An error text lacking, for each marker, one of that marker's
      characters is not retryable. */
  lemma NoMarkerCharacters(err: string, i429: int, i404: int, iRate: int, iQuota: int,
                           iNotFound: int, iEndpoint: int, iTemporarily: int)
    requires 0 <= i429 < 3 && "429"[i429] !in err
    requires 0 <= i404 < 3 && "404"[i404] !in err
    requires 0 <= iRate < 4 && "rate"[iRate] !in err
    requires 0 <= iQuota < 5 && "quota"[iQuota] !in err
    requires 0 <= iNotFound < 9 && "not found"[iNotFound] !in err
    requires 0 <= iEndpoint < 8 && "endpoint"[iEndpoint] !in err
    requires 0 <= iTemporarily < 11 && "temporarily"[iTemporarily] !in err
    ensures !IsRetryable(err)
  {
    AbsentCharExcludes("429", err, i429);
    AbsentCharExcludes("404", err, i404);
    AbsentCharExcludes("rate", err, iRate);
    AbsentCharExcludes("quota", err, iQuota);
    AbsentCharExcludes("not found", err, iNotFound);
    AbsentCharExcludes("endpoint", err, iEndpoint);
    AbsentCharExcludes("temporarily", err, iTemporarily);
  }

  /** The classification is a case-sensitive substring test. An HTTP 429
      message moves on to the next model ... */
  lemma Http429IsRetryable()
    ensures IsRetryable("Error code: 429")
  {
    assert OccursAt("429", "Error code: 429", 12);
    assert "429" in RetryMarkers;
  }

  /** ... while a capitalised "Rate" matches no marker ... */
  lemma CapitalisedRateIsNotRetryable()
    ensures !IsRetryable("Rate limit exceeded")
  {
    NoMarkerCharacters("Rate limit exceeded", 0, 0, 0, 0, 0, 3, 3);
  }

  /** ... and neither a timeout nor a lost connection has a branch of its
      own: both match no marker, so they end the run with an error notice
      instead of trying the next model. */
  lemma TimeoutIsNotRetryable()
    ensures !IsRetryable("Request timed out.")
  {
    NoMarkerCharacters("Request timed out.", 0, 0, 1, 4, 4, 3, 3);
  }

  lemma ConnectionErrorIsNotRetryable()
    ensures !IsRetryable("Connection error.")
  {
    NoMarkerCharacters("Connection error.", 0, 0, 1, 0, 4, 3, 3);
  }

  /** The rendered reply cannot tell a model's text from a notice: a model
      that streams the capacity sentence and completes reads exactly like a
      run in which the only model was busy. */
  lemma RenderedNoticesAreAmbiguous(model: ModelId, request: seq<Message>, busy: Provider, echo: Provider)
    requires busy(model, request) == Outcome([], Fail("Error code: 429"))
    requires echo(model, request) == Outcome([Delta(Some(CapacityText))], Done)
    ensures Attempts([model], request, busy, IsRetryable).ending == Exhausted
    ensures Attempts([model], request, echo, IsRetryable).ending == Finished
    ensures Reply(Attempts([model], request, busy, IsRetryable).fragments) == Reply(Attempts([model], request, echo, IsRetryable).fragments)
  {
    Http429IsRetryable();
    AllRetryableExhausts([model], request, busy, IsRetryable);
    CleanSuccessStops([model], request, echo, IsRetryable);
    var exhausted := Attempts([model], request, busy, IsRetryable);
    var finished := Attempts([model], request, echo, IsRetryable);
    assert Streamed([model], request, busy) == Emit([]) + Streamed([], request, busy);
    assert exhausted.fragments == [CapacityNotice];
    assert Emit([Delta(Some(CapacityText))]) == [Content(CapacityText)] + Emit([]);
    assert finished.fragments == [Content(CapacityText)];
  }

  /** With the middle entry of a three-entry catalog selected, when that
      model streams "Hel" and "lo" and completes, those two fragments are the
      whole output and the other two models are never opened. */
  lemma MiddleSelectionCompletes(systemPrompt: string, conversation: seq<Message>, provider: Provider)
    requires provider("b", ApiMessages(systemPrompt, conversation)) ==
      Outcome([Delta(Some("Hel")), Delta(Some("lo"))], Done)
    ensures StreamResponse([Entry("A", "a"), Entry("B", "b"), Entry("C", "c")], "B",
                           systemPrompt, conversation, provider) ==
      Ok(Run([Content("Hel"), Content("lo")], ["b"], Finished))
  {
    var catalog := [Entry("A", "a"), Entry("B", "b"), Entry("C", "c")];
    MiddleSelectionOrder();
    var request := ApiMessages(systemPrompt, conversation);
    assert StreamResponse(catalog, "B", systemPrompt, conversation, provider) ==
      Ok(Attempts(["b", "a", "c"], request, provider, IsRetryable));
    CleanSuccessStops(["b", "a", "c"], request, provider, IsRetryable);
    EmitTwoChunks("Hel", "lo");
  }

  lemma EmitTwoChunks(x: string, y: string)
    requires x != "" && y != ""
    ensures Emit([Delta(Some(x)), Delta(Some(y))]) == [Content(x), Content(y)]
  {
    EmitAllText([Delta(Some(x)), Delta(Some(y))]);
  }

  /** With the classifier of app.py:475, every model given up on failed
      with an error text holding one of the markers, and a run that did not
      exhaust the candidates ended on a completed stream or on an error
      holding none. */
  lemma MarkersDecideRetries(candidates: seq<ModelId>, request: seq<Message>, provider: Provider)
    ensures var r := Attempts(candidates, request, provider, IsRetryable);
      forall j :: 0 <= j < |r.tried| - 1 ==>
        provider(r.tried[j], request).end.Fail? && MentionsMarker(provider(r.tried[j], request).end.message)
    ensures var r := Attempts(candidates, request, provider, IsRetryable);
      !r.ending.Exhausted? ==>
        && |r.tried| > 0
        && var last := provider(r.tried[|r.tried| - 1], request);
           || (r.ending == Finished && last.end.Done?)
           || (last.end.Fail? && r.ending == Aborted(last.end.message) && !MentionsMarker(last.end.message))
  {
    var r := Attempts(candidates, request, provider, IsRetryable);
    RetriedBeforeLast(candidates, request, provider, IsRetryable);
    if !r.ending.Exhausted? {
      LastSettles(candidates, request, provider, IsRetryable);
    }
  }
}
