# NeuraChat streaming dispatcher

A Dafny model of the model-fallback streaming dispatcher of the NeuraChat
Streamlit app. It covers `stream_response` in `app.py` together with the
`MODELS` catalog, the `STYLES` fallback used by the system prompt, and the
theme selector's label round trip.

- `stream_response` builds a candidate list: the selected model first, then
  every other catalog model in catalog order.
- It sends each candidate one system message followed by the conversation.
- It yields the non-empty text of each streamed delta.
- On an exception it looks for seven case-sensitive markers in the error
  text. A match moves on to the next model. Any other error yields one error
  notice and stops. When every model fails retryably it yields a capacity
  notice.

Modules:

- `Wrappers`: `Option` and `Result`.
- `Strings`: substring search (`Contains`), `IndexOf`, a one-split `SplitOnce`, and `Concat`.
- `Catalog`: the `MODELS` dict as an ordered entry list, `Lookup`, the filter `Without`, and the candidate list `Candidates`.
- `Conversation`: roles and messages, the request's message list, and the style table.
- `Dispatcher`: deltas, provider outcomes and fragments. It holds the recursive reference definition `Attempts` of the fallback loop and `StreamResponse`.
- `DispatchProperties`: what the loop promises for every candidate list and every provider behaviour.
- `StreamLoop`: the loop written imperatively, in the shape the source runs it, proved equal to `Attempts`.
- `Themes`: theme labels and their decoding.

The completion provider is a parameter. It is a total function from a model
id and a message list to an `Outcome`: the deltas its stream delivers, then
`Done` or `Fail(str(e))`. A request that fails before any chunk is an
outcome with no deltas. `Attempts` takes the error classifier as a parameter
too; `StreamResponse` supplies `IsRetryable`, the marker test of app.py:475.
The source yields strings; the model yields tagged fragments, and `Render`
gives each fragment's exact string.

## Model

| member | source | states |
|---|---|---|
| Catalog.Lookup | app.py:448 | `MODELS[model_key]` finds an entry with that key, and finds nothing exactly when no entry has the key |
| Catalog.LookupFindsEntry | app.py:21-27 | in a dict without repeated keys, looking up an entry's key yields that entry's model |
| Catalog.Without | app.py:449 | the comprehension leaves no copy of the preferred id and keeps exactly the other values |
| Catalog.WithoutCounts | app.py:449 | every other value keeps its number of occurrences, and the list shrinks by the number of copies of the preferred id |
| Catalog.WithoutKeepsOrder | app.py:449 | the kept values appear in their original dict order |
| Catalog.WithoutAbsent | app.py:449 | filtering an id that does not occur leaves the list unchanged |
| Catalog.WithoutAppend | app.py:449 | filtering distributes over concatenation |
| Catalog.Candidates | app.py:448-450 | an unknown key is an error naming that key. Otherwise the looked-up id is first and does not recur, every catalog value is present, and nothing else is |
| Catalog.CandidatesCounts | app.py:448-450 | the preferred id occurs once, every other value as often as in the catalog, and the length is 1 plus the number of catalog values that differ from the preferred id |
| Catalog.CandidatesKeepCatalogOrder | app.py:449-450 | the fallbacks after the preferred id follow catalog order |
| Catalog.DefaultCandidates | app.py:21-27 | selecting the first entry, the session default of app.py:133, gives the catalog values in catalog order |
| Catalog.ModelsDistinct | app.py:21-27 | the five entries have distinct display names and distinct model ids |
| Catalog.DistinctCandidates | app.py:448-450 | in a catalog without repeated names or ids, every selection yields as many candidates as there are entries |
| Catalog.ModelsCandidates | app.py:21-27 | every selection of the real five-entry catalog yields exactly five candidates |
| Catalog.DistinctCount | app.py:449-450 | in a list without repeats each element occurs once |
| Catalog.MiddleSelectionOrder | app.py:448-450 | selecting "B" in the catalog A→a, B→b, C→c gives ["b", "a", "c"] |
| Conversation.ApiMessages | app.py:452-456 | the request is one system message carrying the prompt, followed by the conversation element by element |
| Conversation.ApiMessagesKeepConversation | app.py:452-456 | the conversation is recovered unchanged from the request, and for a chat history the first message is the only system message |
| Conversation.StyleText | app.py:105-115 | a known style gets its own instruction. An unknown style gets the "Balanced" one, and only "Balanced" or an unknown style gets it |
| Conversation.StyleTextIdentifiesStyle | app.py:105-111 | two known styles get the same instruction only when they are the same style |
| Strings.Contains | app.py:475 | `k in err` holds exactly when `k` occurs at some position of `err` |
| Strings.AbsentCharExcludes | app.py:475 | a text lacking one of a marker's characters does not contain the marker |
| Strings.IndexOf | app.py:515 | the first position of a character, or none when it is absent |
| Strings.SplitOnce | app.py:515 | `split(" ", 1)` gives one part exactly when there is no separator. Otherwise it gives two parts, rejoined by the separator, and the first part holds no separator |
| Strings.ConcatAppend | app.py:668 | accumulating with `+=` distributes over concatenated chunk lists |
| Dispatcher.IsRetryable | app.py:475 | `any(k in err for k in [...])` with the seven markers: true exactly when one of them occurs in the error text |
| Dispatcher.AnyOccursMeansSome | app.py:475 | `any(k in err for k in markers)` holds exactly when some marker occurs |
| Dispatcher.Render | app.py:470-480 | model text is yielded verbatim. An error notice is "\n\n⚠️ **Error:** " followed by the error text, which can be read back from it. The capacity notice is "\n\n⚠️ All models are at capacity. Please try again shortly.". Both notices open with "\n\n⚠️ ", and no error notice equals the capacity notice |
| Dispatcher.Reply | app.py:661-668 | the reply starts empty, and a single fragment contributes exactly its string |
| Dispatcher.ReplyAccumulates | app.py:668 | `full_reply += chunk`: accumulating one more fragment appends its string |
| Dispatcher.Emit | app.py:467-470 | a stream yields at most one fragment per delta, each non-empty model text |
| Dispatcher.EmitKeepsText | app.py:467-470 | the concatenated yield of a stream is all of its deltas' text, in order, so skipping empty or absent deltas loses nothing |
| Dispatcher.EmitAppend | app.py:467-470 | consuming a stream in two parts yields the two parts' fragments in order |
| Dispatcher.EmitIsFilter | app.py:467-470 | the yield is the stream filtered to the deltas with non-empty text: there is an increasing list of exactly those positions, and the j-th fragment is the text of the j-th of them |
| Dispatcher.TextIndicesInRange | app.py:467-470 | the computed positions point at deltas with non-empty text |
| Dispatcher.TextIndicesIncrease | app.py:467-470 | the computed positions are in stream order |
| Dispatcher.TextIndicesCover | app.py:467-470 | every delta with non-empty text is among the computed positions |
| Dispatcher.EmitAtTextIndices | app.py:467-470 | the j-th fragment yielded is the text of the delta at the j-th computed position |
| Dispatcher.EmitAllText | app.py:467-470 | when every delta carries text, each one is yielded verbatim in stream order |
| Dispatcher.Attempts | app.py:458-480 | the models tried are a prefix of the candidates. The first candidate is always tried, and an exhausted run tried all of them |
| Dispatcher.StreamResponse | app.py:443-480 | an unknown selection is a `KeyError` for that key. Otherwise the selected model is tried first, and an exhausted run tried as many models as there are candidates |
| DispatchProperties.StreamedIsContent | app.py:467-470 | what streams show is model text, never a notice |
| DispatchProperties.OutputOfRun | app.py:458-480 | the output is what the tried models streamed, in order, followed by the closing notice of how the run ended |
| DispatchProperties.RetriedBeforeLast | app.py:473-476 | every model tried before the last one failed retryably |
| DispatchProperties.ExhaustedAllRetried | app.py:458-480 | an exhausted run means every candidate failed retryably |
| DispatchProperties.LastSettles | app.py:471-478 | a run that was not exhausted ended on the last model tried, by a completed stream or a non-retryable error |
| DispatchProperties.StreamedAppend | app.py:458-470 | trying one more model appends what its stream shows |
| DispatchProperties.StopsAtFirstSettled | app.py:458-478 | the run stops at the first candidate that does not fail retryably: everything up to it is tried, nothing after it, and its outcome decides the ending |
| DispatchProperties.CleanSuccessStops | app.py:467-471 | when the first candidate's stream completes, its text is the whole output and no other model is tried |
| DispatchProperties.RetryMovesOn | app.py:473-476 | a retryable failure yields nothing for itself and keeps what the model already streamed. The next candidate is tried, and the rest of the run is the run over the remaining candidates |
| DispatchProperties.FirstCandidateIsTried | app.py:458 | the first candidate is always tried |
| DispatchProperties.NonRetryableStops | app.py:473-478 | a non-retryable failure of the first candidate yields its stream, then exactly one error notice carrying the error text, and nothing else is tried |
| DispatchProperties.AllRetryableExhausts | app.py:458-480 | when every candidate fails retryably, each is tried once, in order, and the output ends with the capacity notice |
| DispatchProperties.CapacityNoticeMarksExhaustion | app.py:458-480 | the capacity notice appears exactly when the run was exhausted, and then once and last |
| DispatchProperties.ErrorNoticeMarksAbort | app.py:473-478 | an error notice for a text appears exactly when a non-retryable error with that text ended the run, and then once and last |
| DispatchProperties.CapacityOnlyAfterEveryCandidate | app.py:458-480 | a capacity notice implies that every candidate was tried |
| DispatchProperties.StreamResponseTriesCatalog | app.py:448-458 | for a known selection the selected model is tried first. An exhausted run tried every catalog model, and the selected one only once |
| DispatchProperties.NoMarkerCharacters | app.py:475 | an error text missing a character of every marker is not retryable |
| DispatchProperties.Http429IsRetryable | app.py:475 | "Error code: 429" moves on to the next model |
| DispatchProperties.CapitalisedRateIsNotRetryable | app.py:475 | "Rate limit exceeded" is not retryable, because the test is case-sensitive |
| DispatchProperties.TimeoutIsNotRetryable | app.py:473-478 | "Request timed out." is not retryable, since there is no timeout branch |
| DispatchProperties.ConnectionErrorIsNotRetryable | app.py:473-478 | "Connection error." is not retryable, since there is no connection branch |
| DispatchProperties.RenderedNoticesAreAmbiguous | app.py:477-480 | a model that streams the capacity sentence and completes renders exactly like a run whose only model was busy |
| DispatchProperties.MiddleSelectionCompletes | app.py:443-471 | selecting "B" when "b" streams "Hel" and "lo" and completes outputs exactly those two fragments, and only "b" is tried |
| DispatchProperties.EmitTwoChunks | app.py:467-470 | two text deltas are yielded as two fragments |
| DispatchProperties.MarkersDecideRetries | app.py:473-478 | with the real classifier, each model given up on failed with an error containing a marker. A run that was not exhausted ended on a completed stream or on an error with no marker |
| StreamLoop.ConsumeStream | app.py:467-470 | the inner loop appends exactly the stream's non-empty texts to what was yielded |
| StreamLoop.TryCandidate | app.py:459-478 | one `try` block: the loop stops unless the failure is retryable. A stop yields the closing notice; a retry yields nothing more |
| StreamLoop.StreamResponseLoop | app.py:458-480 | the imperative loop produces exactly the run `Attempts` defines |
| Themes.Label | app.py:512 | `f"{emoji} {name}"`: the emoji, then one space at position |emoji|, then the name |
| Themes.DecodeLabel | app.py:515 | a label without a space has no name. Otherwise the name is the text after the first space |
| Themes.FirstSpaceAfter | app.py:515 | the first space of `emoji + " " + name` is the one after the emoji when the emoji has none |
| Themes.LabelRoundTrip | app.py:512-515 | decoding `f"{emoji} {name}"` returns the name exactly when the emoji holds no space |
| Themes.TableLabelsRoundTrip | app.py:511-516 | every theme of the table decodes to its own name, so re-selecting the current theme changes nothing |

## Left out

- The Streamlit page: CSS, layout, theme colours and fonts, chips, the sidebar widgets, session state and `st.rerun`. They are presentation and framework state, not dispatch logic.
- The OpenAI client and the network. The provider is a parameter, so any stream and any exception text a model id can produce is covered.
- Provider: the outcome is a function of the model id and the message list, so a model id that occurs twice among the candidates behaves the same on both attempts. app.py:449 removes only copies of the preferred id, so a catalog with a repeated non-preferred id tries that id twice, and the second request may succeed where the first failed. The model does not express that difference. The real catalog has distinct ids (`Catalog.ModelsDistinct`), so its runs are not affected.
- `max_tokens=4096` and the temperature. They are passed to the provider unchanged and do not affect the dispatcher's control flow.
- The system-prompt prose of `make_system_prompt`. Only the style lookup of app.py:115 is modelled; the prompt itself is an opaque string parameter.
- Generator laziness and stream cleanup. A run is modelled as its complete fragment list; a caller that stops reading early sees a prefix of it.
- `chunk.choices[0]` on a chunk with no choices raises `IndexError` inside the `try`. It is modelled as the stream ending in `Fail(message)`.
- The `tlist.index(...)` `ValueError` for an unknown current theme (app.py:513). The selector's index is not part of the round trip.

Behaviour of the code that a reader might not expect:

- There is no separate timeout or connection-error branch, and no "trying next model" notice. A timeout or connection error ends the run with an error notice unless its text happens to contain a marker. A retryable error moves on silently.
- An unknown selection raises `KeyError` before any model is tried. It does not fall back.
- The markers are exactly `429`, `404`, `rate`, `quota`, `not found`, `endpoint`, `temporarily`, all case-sensitive. "overloaded" and "unavailable" are not markers.
- A retryable failure on the last candidate leads to the capacity notice.
- Text a model streamed before failing is never taken back.
