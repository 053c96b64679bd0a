# Sampling, matching and blocking in the APO collector, verified

This project models the tick-driven machinery of the APO OpenTelemetry collector in Dafny and proves what it
promises over all runs. Objects that the collector updates in place are classes here, each method tied to a
function or relation on its state; what the system promises is proved about those functions as lemmas over runs
and interleavings. A clock is an integer parameter that never goes back; a locked section or a single operation on
a concurrent map is one step.

`dafny verify dfyconfig.toml` checks everything.

## What is modelled

* **Tail-based back-sampling.** `retry_queue.dfy` is the queue of ids to report with its retry ring;
  `time_wheel.dfy` and `wheel_windows.dfy` are the two-stage cache whose read side is a time wheel, and the plain
  timed map it refines; `tailbase_sampler.dfy` decides spans and holds sampled ids; `tail_handshake.dfy` lets
  decisions, cache writes, marks and the steps of a tick interleave, and `back_sampling.dfy` runs a whole tick on
  the objects; `tail_race.dfy` says for which hold times a race between them is lost; `tailbase_marks.dfy` which
  marks a decision makes and what follows from one. `otel_trace_sampler.dfy` is the second user of the wheel,
  `otel_marks.dfy` how long its marks are seen. `silent.dfy` is the limit per URL, `silent_answers.dfy` which
  questions it allows, `sample_cache.dfy` the answer for one span that asks it; `draining.dfy` counts what successive
  drains carry. `runs.dfy` carries an invariant along a run.
* **RED metrics.** `entry_url_mapping.dfy`, `entry_url_runs.dfy` and `entry_url_cache.dfy` match exit spans to their
  nearest entry span: the meaning of a batch, the runs, and the objects with their aliasing;
  `entry_url_answers.dfy` says which URL a span is returned with and which spans wait, `entry_url_order.dfy` in which
  order. `dimension_cache.dfy`, `dimension_keys.dfy`, `metric_families.dfy`, `red_metrics.dfy` and `red_connector.dfy`
  are the LRU with revival, the joined keys, one family of series, all four families over runs, and the objects;
  `red_spans.dfy` is one span as steps of the runs, `served_keys.dfy` which value lists a connector builds,
  `red_failures.dfy` when exports fail, `series_values.dfy` what a point's values are, and `red_heard.dfy` what an
  exported point says about the spans the connector heard of.
  `vm_histogram.dfy` and `vm_histogram_object.dfy` are the VictoriaMetrics histogram.
* **SkyWalking translation.** `span_ids.dfy` folds ids, `span_id_digits.dfy` says what the text of a segment id
  becomes, `span_id_values.dfy` which ids a segment gives;
  `undertow.dfy` and `undertow_runs.dfy` join the two halves of a request, `undertow_segments.dfy` says
  from their spans which segments these are, `undertow_race.dfy` lets
  their two handlers overlap. `wrappers.dfy` is the option type.
* **Trace blocker.** `trace_block.dfy`, and `trace_lives.dfy` for how long a trace is known to it.

## Where the code differs from what it says

* The retry ring both overwrites the entry at `fromIndex` and shifts. It is meant to drop the oldest record; it does
  so on every run only for a window of 1. Its slices stay in range exactly for odd windows, for 2 and for no window:
  an even window from 4 on panics on some run.
* Pruning asks the DB cache which external histograms to keep. A NUL-free external key is never in it, so every export
  deletes all external histograms, and what is exported as cumulative starts at zero each time. A NUL in the container
  id, the name, the address or the system makes a key that a DB call of the same node can have; then an export can keep
  the histogram and drop its dimensions, and the exports after it return "value not found" (`FailingRun`) until an
  external span with the key comes (`FailureLasts`). A NUL in the service name need not (`DirtyServiceName`).
* The look-up of the nearest entry span recurses along parents. An inner span that names itself as its parent makes a
  look-up from it recurse without end (`SelfParentNeverAnswers`).
* With a hold time of 1 an id is returned once only, and a span written during that tick can be lost.
* A second I/O half under a key overwrites the first. A dispatch span with id 0 and no reference makes the scan panic.
  Two handlers that both look before either stores leave both halves waiting.
* Joining values by NUL does not tell them apart once a value has a NUL in it (`KeyTellsExactly`).
* In wait mode with a count of 1 the entry is created already used up, without its time, so a URL is let through once
  and never again.
* The comment above the histogram's edge shift promises the `le` rule for bounds. It holds for all but the lowest and
  the highest bound of the whole scale.
* A segment id of 32 digits followed by a single dot makes the slice between the dots panic.
* The id of a span folds its segment id to eight bytes. It can be the empty id, whose span's children then look like
  roots (`ZerosHideRoots`), and two segments can share all their ids (`FirstDigitsDoNotTell`).

## Hypotheses

* `OrderDoesNotMatter`, `GivenIsFinal`, `WaitingIsHeld` and `PairIsJoined` are about runs in which no two I/O halves and
  no two task-thread halves meet under one key and no segment panics; conservation is about all runs without a panic.
* The results on matching are about calls that return, that is, whose look-ups end; `AnswersAreStable` takes the span
  ids that later spans bring as new ones.
* That a point's attributes are those of all spans behind it needs NUL-free values; nothing else about series does,
  unless its name says `Clean`.
* The wheel is drained, picked and cleaned by one thread, as in the collector.
* `ExternalSoundExactly` is about the value lists of one node: its name and address, which as environment values have no
  NUL, a positive process id, a service name that is not empty, a container id of at most twelve characters, and an
  entry URL that is empty unless these are matched. What the parsers find is free.

## Model

| member | source | states |
|---|---|---|
| RetryQueue.RetryList.GetToRemoveSize | pkg/processor/backsamplingprocessor/internal/sampler/tailbase_sampler.go:169-193 | records a failed report in the ring, or evicts one entry while overwriting and shifting; result and new ring are those of the ring function |
| RetryQueue.RetryList.Reset | pkg/processor/backsamplingprocessor/internal/sampler/tailbase_sampler.go:195-198 | forgets size and lastNum, keeps counts and fromIndex |
| RetryQueue.UnSendIds.CacheIds | pkg/processor/backsamplingprocessor/internal/sampler/tailbase_sampler.go:108-113 | appends an id to the queue |
| RetryQueue.UnSendIds.MarkUnSent | pkg/processor/backsamplingprocessor/internal/sampler/tailbase_sampler.go:115-130 | a failed report drops the prefix the ring names; not ok exactly where the slice is out of range |
| RetryQueue.UnSendIds.MarkSent | pkg/processor/backsamplingprocessor/internal/sampler/tailbase_sampler.go:132-142 | drops the ids sent and resets the ring; not ok exactly where the slice is out of range |
| RetryQueue.SentTakesItsIds | pkg/processor/backsamplingprocessor/internal/sampler/tailbase_sampler.go:132-142 | a report that succeeded takes its ids off the queue and leaves those queued meanwhile; the next failed report drops nothing and is the only one remembered |
| RetryQueue.NoWindowDropsAll | pkg/processor/backsamplingprocessor/internal/sampler/tailbase_sampler.go:115-130 | without a window a failed report drops the ids it carried and no others |
| RetryQueue.NeverOutOfRange | pkg/processor/backsamplingprocessor/internal/sampler/tailbase_sampler.go:115-142 | for a window that is odd or at most 2 no run from any fromIndex slices out of range, and the queue is always a suffix of all ids ever queued |
| RetryQueue.EvenWindowGoesOutOfRange | pkg/processor/backsamplingprocessor/internal/sampler/tailbase_sampler.go:180-192 | for every even window from 4 on, failed reports that bring certain numbers of ids, whatever the ids, slice out of range |
| RetryQueue.SafeExactlyForOddOrSmallWindows | pkg/processor/backsamplingprocessor/internal/sampler/tailbase_sampler.go:115-142 | no run slices out of range if and only if the window is odd or at most 2 |
| RetryQueue.FillingDropsNothing | pkg/processor/backsamplingprocessor/internal/sampler/tailbase_sampler.go:169-179 | after a reset the first retryNum failed non-empty reports drop nothing; the ring then sums to lastNum |
| RetryQueue.FirstEvictionIsExact | pkg/processor/backsamplingprocessor/internal/sampler/tailbase_sampler.go:180-192 | the next failed report drops exactly the ids queued at the first of them, for any fromIndex |
| RetryQueue.SecondEvictionIsNotTheOldest | pkg/processor/backsamplingprocessor/internal/sampler/tailbase_sampler.go:183-190 | for any window of two or more, failed reports that bring certain numbers of ids, whatever the ids, drop a batch that is not the oldest |
| RetryQueue.OldestFirstOnlyForWindowOne | pkg/processor/backsamplingprocessor/internal/sampler/tailbase_sampler.go:183-190 | the ring agrees with "drop the oldest failed batch" on every run if and only if the window is 1 |
| TimeWheel.WriteableCache.Write | pkg/processor/backsamplingprocessor/internal/cache/cache.go:20-31 | appends a fragment to its key |
| TimeWheel.WriteableCache.GetAndReset | pkg/processor/backsamplingprocessor/internal/cache/cache.go:33-40 | returns everything written and leaves the cache empty |
| TimeWheel.WritesAreKept | pkg/processor/backsamplingprocessor/internal/cache/cache.go:20-40 | a drain gets, key by key, everything written since the last one, in the order it was written |
| TimeWheel.ReadableCache.Copy | pkg/processor/backsamplingprocessor/internal/cache/cache.go:72-90 | merges the drained map, refreshes the bucket index of its keys, records them in the write bucket, advances |
| TimeWheel.ReadableCache.PickMatchData | pkg/processor/backsamplingprocessor/internal/cache/cache.go:92-98 | takes one key out with its fragments |
| TimeWheel.ReadableCache.PickMatchDatas | pkg/processor/backsamplingprocessor/internal/cache/cache.go:100-109 | takes the keys out one after the other, a repeated key only once |
| TimeWheel.ReadableCache.CleanExpireDatas | pkg/processor/backsamplingprocessor/internal/cache/cache.go:111-132 | removes the keys of the read bucket whose index still is that bucket, advances |
| TimeWheel.TickKeepsRefines | pkg/processor/backsamplingprocessor/internal/cache/cache.go:72-132 | one tick (copy, picks, clean) keeps the wheel equal, key by key, to the map of what was last copied fewer than W ticks ago and not picked since |
| TimeWheel.WheelRefinesTimedMap | pkg/processor/backsamplingprocessor/internal/cache/cache.go:55-132 | the same over every run of ticks from an empty wheel |
| WheelWindows.HeldIffFedRecently | pkg/processor/backsamplingprocessor/internal/cache/cache.go:72-132 | a key is held if and only if its last copy was fewer than W ticks ago (as of its tick) and no pick came since |
| WheelWindows.HoldsAllFragmentsSince | pkg/processor/backsamplingprocessor/internal/cache/cache.go:146-149 | what is held is the concatenation, in order, of the fragments copied since the last pick or expiry |
| WheelWindows.FragmentsConserved | pkg/processor/backsamplingprocessor/internal/cache/cache.go:72-132 | every fragment copied is picked once, expired once or still held |
| WheelWindows.HeldIffSurvives | pkg/processor/backsamplingprocessor/internal/cache/cache.go:111-121 | a fragment is held exactly while its key is never picked and never goes W ticks without being copied: no stale bucket evicts it |
| WheelWindows.PickedExactlyWhen | pkg/processor/backsamplingprocessor/internal/cache/cache.go:100-109 | a tick picks a fragment exactly if it looks the key up while the fragment is there |
| WheelWindows.PickedOnceIff | pkg/processor/backsamplingprocessor/internal/cache/cache.go:100-109 | a fragment is picked exactly once if such a tick exists, else never |
| WheelWindows.PickedWithinWait | pkg/processor/backsamplingprocessor/internal/cache/cache.go:92-121 | a look-up at most W ticks after the copy finds the fragment |
| WheelWindows.WheelPicksWhatTheMapPicks | pkg/processor/backsamplingprocessor/internal/cache/cache.go:100-109 | what the wheel gives out over a run is, fragment by fragment, what the timed map gives out |
| TailbaseSampling.TailbaseSampler.NotifyTailbase | pkg/processor/backsamplingprocessor/internal/sampler/tailbase_sampler.go:37-47 | profiles the trace; a new id is held with count 0 and queued for sending |
| TailbaseSampling.TailbaseSampler.CleanSampledIds | pkg/processor/backsamplingprocessor/internal/sampler/tailbase_sampler.go:49-65 | drops the ids held long enough, counts the others up and returns those counted at most twice, each once |
| TailbaseSampling.TailbaseSampler.UpdateSampledTraceIds | pkg/processor/backsamplingprocessor/internal/sampler/tailbase_sampler.go:67-74 | marks the sent prefix and, unless that panics, refreshes ids sampled elsewhere to count 0 |
| TailbaseSampling.TailbaseSampler.UpdateUnSentCount | pkg/processor/backsamplingprocessor/internal/sampler/tailbase_sampler.go:76-80 | hands a failed report to the retry queue if it was not empty; not ok exactly where that panics |
| TailbaseSampling.TailbaseSamplers.Sample | pkg/processor/backsamplingprocessor/internal/sampler/sampler.go:35-70 | result, report type and the ids held after every combination of slow, error, sampled and already marked; each sampler that begins to hold the id queues it once, and no other id is queued |
| TailbaseMarks.MarksExactly | pkg/processor/backsamplingprocessor/internal/sampler/sampler.go:36-56 | a sampled span is marked as slow, as failed, as both, or else as normal, where its trace is not marked so already; no other decision marks anything |
| TailbaseMarks.AnswersExactly | pkg/processor/backsamplingprocessor/internal/sampler/sampler.go:36-69 | which answer is given: parked exactly if not sampled and the trace is unmarked, with profile exactly if sampled and slow, as normal exactly if sampled and neither, with log exactly if failed and either sampled as not slow or its trace marked as failed |
| TailbaseMarks.LabelsExactly | pkg/processor/backsamplingprocessor/internal/sampler/sampler.go:36-56 | a sampled span is profiled and carries report type 1, 2, 3 or 4 for slow, normal, failed or both; any other keeps its labels |
| TailbaseMarks.HeldExactly | pkg/processor/backsamplingprocessor/internal/sampler/tailbase_sampler.go:49-65 | a mark not heard of again is held for exactly the hold time and returned by the first two clean-ups, or by the first alone if the hold time is 1 |
| TailbaseMarks.OthersAreNotReturned | pkg/processor/backsamplingprocessor/internal/sampler/tailbase_sampler.go:49-65 | an id neither held nor heard of is never returned |
| TailbaseMarks.ReportRefreshes | pkg/processor/backsamplingprocessor/internal/sampler/tailbase_sampler.go:67-74 | the ids of a report are held with count 0 and the others as they were |
| TailbaseMarks.SampledIsReturned | pkg/processor/backsamplingprocessor/internal/sampler/tailbase_sampler.go:37-65 | over every interleaving, from a sampled decision on the next clean-up of that sampler returns the id, with a hold time of 2 or more the one after it too, and the id is held for the hold time |
| TailbaseMarks.SampledTraceIsStored | pkg/processor/backsamplingprocessor/processor.go:409-446 | so a parked span of that trace whose drain lies in the window of these clean-ups is stored exactly once |
| TailbaseMarks.SampledTraceIsNotParked | pkg/processor/backsamplingprocessor/internal/sampler/sampler.go:57-69 | and until the id is dropped a later span of the trace is stored at once and never parked |
| BackSampling.BackSampler.HandleSpan | pkg/processor/backsamplingprocessor/processor.go:326-351 | a span answered Cache is parked in the write cache, any other answer stores it; a sampled slow span is signalled as such, a sampled normal one as such; the sampler that begins to hold the id queues it once; a profiled span marks its trace |
| BackSampling.BackSampler.CleanCacheOnTick | pkg/processor/backsamplingprocessor/processor.go:409-449 | one tick drains the write cache, cleans the three samplers, stores what the wheel tick picks and signals the traces picked by the slow ids |
| BackSampling.TickIsFiveSteps | pkg/processor/backsamplingprocessor/processor.go:409-446 | what CleanCacheOnTick promises is a run of the five tick steps of the handshake system |
| BackSampling.SpanIsOneOrTwoSteps | pkg/processor/backsamplingprocessor/processor.go:326-339 | what HandleSpan promises is a decide step of that system, followed by a write step for a parked span |
| BackSampling.ReportIsRefreshSteps | pkg/processor/backsamplingprocessor/internal/sampler/sample_cache.go:94-98 | the ids a report brings back for the three samplers are a run of refresh steps |
| TailHandshake.NextKeepsInv | pkg/processor/backsamplingprocessor/processor.go:409-449 | every decide, write, refresh and tick step keeps the invariant of the handshake |
| TailHandshake.ReachableInv | pkg/processor/backsamplingprocessor/processor.go:409-449 | so it holds in every reachable state, over every interleaving |
| TailHandshake.NeverStoredTwice | pkg/processor/backsamplingprocessor/processor.go:326-339 | in no run is one span stored at two places of the output |
| TailHandshake.StoredIff | pkg/processor/backsamplingprocessor/processor.go:412-446 | a parked span drained at tick t is stored, and then once, if and only if some finished tick looks its id up while it is still on the wheel |
| TailHandshake.LookedUpTwice | pkg/processor/backsamplingprocessor/internal/sampler/tailbase_sampler.go:82-93 | an id a sampler starts returning at tick u is looked up at tick u and at tick u+1 (wait of at least 2) |
| TailHandshake.LookUpStores | pkg/processor/backsamplingprocessor/processor.go:414-446 | a look-up at most W ticks after the drain stores the span exactly once |
| TailHandshake.HandshakeStoresOnce | pkg/processor/backsamplingprocessor/processor.go:409-449 | drained at tick t, first returned at tick u, t at most u+1 and u at most t+W: stored exactly once |
| TailHandshake.PromptWriteIsNeverMissed | pkg/processor/backsamplingprocessor/internal/sampler/sample_cache.go:142-149 | wait of at least 2: a span answered Cache and written before the next drain is stored exactly once whichever tick within W returns its id, also a tick under way at the decision: the race the count of two is for |
| TailRace.GoneForGood | pkg/processor/backsamplingprocessor/processor.go:412-446 | a drained span that is neither stored nor on the wheel is stored in no later state |
| TailRace.RaceLost | pkg/processor/backsamplingprocessor/internal/sampler/tailbase_sampler.go:49-65 | with a wait of 1 an id is returned once; any span written during that tick can expire and is then stored in no later state |
| TailRace.NeverLostExactly | pkg/processor/backsamplingprocessor/internal/sampler/tailbase_sampler.go:82-93 | the race is never lost if and only if the wait is not 1; a wait of 0 returns no ids at all |
| OtelTraceSampling.OtelTraceSampler.SetSampledTraceId | pkg/processor/backsamplingprocessor/internal/cache/trace_cache.go:33-35 | marks an id with age 0 |
| OtelTraceSampling.OtelTraceSampler.Cache | pkg/processor/backsamplingprocessor/internal/cache/trace_cache.go:37-39 | writes a fragment under its id |
| OtelTraceSampling.OtelTraceSampler.PickSampledTraces | pkg/processor/backsamplingprocessor/internal/cache/trace_cache.go:41-60 | drain, copy, pick the marked ids in some order, age the marks, clean |
| OtelTraceSampling.EveryFragmentIsSomewhere | pkg/processor/backsamplingprocessor/internal/cache/trace_cache.go:41-60 | over every interleaving each cached fragment is emitted once, waiting, held or expired, and nothing else |
| OtelTraceSampling.SeenWhileHeld | pkg/processor/backsamplingprocessor/internal/cache/trace_cache.go:51-54 | a mark first seen at tick u is seen at every one of the ticks it is held for |
| OtelTraceSampling.EmittedIff | pkg/processor/backsamplingprocessor/internal/cache/trace_cache.go:41-60 | a fragment drained at tick t is emitted, and then once, if and only if a finished tick sees its mark while it is still on the wheel |
| OtelTraceSampling.EmittedWithinWindow | pkg/processor/backsamplingprocessor/internal/cache/trace_cache.go:41-60 | a fragment drained at tick t whose mark is first seen at tick u is emitted when t is at most u+E-1 and u at most t+W |
| OtelMarks.MarkIsSeenExactly | pkg/processor/backsamplingprocessor/internal/cache/trace_cache.go:33-60 | over every interleaving a mark is seen by the next tick and by all ticks within the expiry time, and by no other, however long its trace was marked before |
| OtelMarks.EmittedExactly | pkg/processor/backsamplingprocessor/internal/cache/trace_cache.go:41-62 | a fragment of a trace marked once is emitted if and only if the mark is made before its drain and still seen then, or made later while the trace was fed in time |
| EntryUrlMatching.EveryLookUpEndsExactly | pkg/connector/redmetricsconnector/internal/cache/entry_url_mapping.go:180-188 | every look-up in a mapping ends if and only if some rank falls along the parents of its inner spans |
| EntryUrlMatching.LookUpLoopsExactly | pkg/connector/redmetricsconnector/internal/cache/entry_url_mapping.go:180-188 | a look-up does not end if and only if the parents of its id come by some id twice |
| EntryUrlMatching.SomeLookUpLoopsExactly | pkg/connector/redmetricsconnector/internal/cache/entry_url_mapping.go:180-188 | some look-up does not end if and only if some chain of parents through spans that are no entry spans ends where it began |
| EntryUrlMatching.SelfParentNeverAnswers | pkg/connector/redmetricsconnector/internal/cache/entry_url_mapping.go:169-188 | after an inner span that names itself as parent, a look-up from it ends with no number of calls |
| EntryUrlMatching.AcyclicCallsEnd | pkg/connector/redmetricsconnector/internal/cache/entry_url_mapping.go:69-111 | without parent cycles all look-ups of a call end |
| EntryUrlMatching.NearestEntryAncestor | pkg/connector/redmetricsconnector/internal/cache/entry_url_mapping.go:180-188 | where the look-up ends, the answer is the name of the first entry span on the parent chain, or "" if the chain leaves the mapping first |
| EntryUrlAnswers.MappingKnows | pkg/connector/redmetricsconnector/internal/cache/entry_url_mapping.go:169-178 | a mapping has the names of the entry spans added to it and the parents of the inner ones, the last of an id counting, and nothing else |
| EntryUrlAnswers.AnswerIsTheName | pkg/connector/redmetricsconnector/internal/cache/entry_url_mapping.go:180-188 | a look-up answers a name if and only if the parents lead, through spans that are no entry spans, to an entry span of that name |
| EntryUrlMatching.EntryNameStep | pkg/connector/redmetricsconnector/internal/cache/entry_url_mapping.go:184-186 | the recursion equation of the look-up wherever it ends |
| EntryUrlMatching.AnswersAreStable | pkg/connector/redmetricsconnector/internal/cache/entry_url_mapping.go:169-188 | with unique span ids a non-empty answer survives every later AddMapping |
| EntryUrlMatching.IncrementalIsFull | pkg/connector/redmetricsconnector/internal/cache/entry_url_mapping.go:70-79 | re-checking only the traces of the batch resolves the same pending spans as re-checking all of them |
| EntryUrlRuns.UnresolvedIsSubsequence | pkg/connector/redmetricsconnector/internal/cache/entry_url_mapping.go:70-79 | the in-place removal keeps the survivors in order |
| EntryUrlRuns.MatchConserves | pkg/connector/redmetricsconnector/internal/cache/entry_url_mapping.go:69-115 | pending spans plus relevant spans of the batch are, as a multiset, the result plus the new pending list |
| EntryUrlAnswers.VerdictIsRight | pkg/connector/redmetricsconnector/internal/cache/entry_url_mapping.go:82-111 | what becomes of one span: an entry span and a root exit span are returned under their own names, any other exit span under the name its parents lead to, or it waits; each with its expiry time and the process, service and container of its resource |
| EntryUrlAnswers.ReturnedIsRight | pkg/connector/redmetricsconnector/internal/cache/entry_url_mapping.go:69-111 | every returned span carries its own name, or as an exit span below another the non-empty name its parents lead to under the current mapping |
| EntryUrlAnswers.WaitingIsRight | pkg/connector/redmetricsconnector/internal/cache/entry_url_mapping.go:99-103 | every newly waiting span is an exit span below another, without a URL, whose parents lead to no name |
| EntryUrlAnswers.BatchIsReturnedOrWaits | pkg/connector/redmetricsconnector/internal/cache/entry_url_mapping.go:82-111 | every span of the batch that has a URL is returned with it; an exit span that has none waits and is not returned |
| EntryUrlOrder.CallKeepsOrder | pkg/connector/redmetricsconnector/internal/cache/entry_url_mapping.go:68-111 | what a call returns and what it leaves waiting are each in the order of the spans that waited, followed by those of the batch |
| EntryUrlRuns.NextKeepsInv | pkg/connector/redmetricsconnector/internal/cache/entry_url_mapping.go:47-155 | every matching, expiry and clean-up step keeps the invariants of the cache |
| EntryUrlRuns.NoPendingSpanIsResolvable | pkg/connector/redmetricsconnector/internal/cache/entry_url_mapping.go:51-79 | in no reachable state, also across mapping expiry, does a pending span have an answer |
| EntryUrlRuns.NextCallIsFullMatching | pkg/connector/redmetricsconnector/internal/cache/entry_url_mapping.go:69-79 | each call returns what re-checking every pending span would return |
| EntryUrlAnswers.ReachableWait | pkg/connector/redmetricsconnector/internal/cache/entry_url_mapping.go:99-103 | in every reachable state only exit spans below another wait |
| EntryUrlAnswers.ReturnedWhenKnown | pkg/connector/redmetricsconnector/internal/cache/entry_url_mapping.go:69-80 | from every reachable state a waiting span is returned by the first call after which its parents lead to a name, with that name, and by no earlier one |
| EntryUrlRuns.SpansConserved | pkg/connector/redmetricsconnector/internal/cache/entry_url_mapping.go:69-116 | over every run each relevant span is in exactly one result, the pending list or an expiry batch; entry spans are never pending |
| EntryUrlRuns.ScanTakesExactlyTheExpired | pkg/connector/redmetricsconnector/internal/cache/entry_url_mapping.go:134-143 | the prefix scan with early break takes exactly the expired spans, the list being sorted |
| EntryUrlRuns.DelayLine | pkg/connector/redmetricsconnector/internal/cache/bucket.go:55-66 | the k-th batch to come out is the batch of call k-s, empty before that |
| EntryUrlRuns.MappingLifetime | pkg/connector/redmetricsconnector/internal/cache/entry_url_mapping.go:118-127 | a trace has a mapping exactly while its id is in the open batch, the delay line or the batch being deleted, and is there once |
| EntryUrlCaching.WriteableBatch.AddToBatch | pkg/connector/redmetricsconnector/internal/cache/bucket.go:23-28 | appends a trace id |
| EntryUrlCaching.WriteableBatch.PickBatch | pkg/connector/redmetricsconnector/internal/cache/bucket.go:30-37 | returns the batch and starts a new one |
| EntryUrlCaching.Buckets.CopyAndGetBatch | pkg/connector/redmetricsconnector/internal/cache/bucket.go:55-66 | the ring of slots is a queue: what comes out followed by what waits is what waited followed by the new batch |
| EntryUrlCaching.Buckets.Advance | pkg/connector/redmetricsconnector/internal/cache/bucket.go:55-66 | the ring step behind it, on the slots |
| EntryUrlCaching.EntryUrlMapping.AddMapping | pkg/connector/redmetricsconnector/internal/cache/entry_url_mapping.go:169-178 | adds names of entry spans and parents of spans that are neither entry nor exit spans |
| EntryUrlCaching.EntryUrlMapping.GetEntrySpanName | pkg/connector/redmetricsconnector/internal/cache/entry_url_mapping.go:180-188 | returns the answer of the walk, called exactly where the recursion ends |
| EntryUrlCaching.GroupSpansByTraceId | pkg/connector/redmetricsconnector/internal/cache/entry_url_mapping.go:215-229 | groups the spans by trace, in order |
| EntryUrlCaching.EntryUrlCache.MapBatch | pkg/connector/redmetricsconnector/internal/cache/entry_url_mapping.go:51-67 | after the first loop every mapping object is the old one extended by its spans; the traces looked at alias the cache's own objects; each new trace is recorded once |
| EntryUrlCaching.EntryUrlCache.RecheckPending | pkg/connector/redmetricsconnector/internal/cache/entry_url_mapping.go:69-79 | the loop that removes in place leaves the unresolved and returns the resolved spans |
| EntryUrlCaching.EntryUrlCache.JudgeSpan | pkg/connector/redmetricsconnector/internal/cache/entry_url_mapping.go:93-111 | one span of the batch is emitted, parked or skipped; the missing-mapping branch is unreachable |
| EntryUrlCaching.EntryUrlCache.GetMatchedResourceSpans | pkg/connector/redmetricsconnector/internal/cache/entry_url_mapping.go:47-116 | one call is a matching step of the run system, on objects updated in place, called exactly where its look-ups end |
| EntryUrlCaching.EntryUrlCache.PickBatchToClean | pkg/connector/redmetricsconnector/internal/cache/entry_url_mapping.go:118-119 | one clean-up tick moves the delay line |
| EntryUrlCaching.EntryUrlCache.DeleteCleaned | pkg/connector/redmetricsconnector/internal/cache/entry_url_mapping.go:120-126 | deletes the mappings of the batch that came out |
| EntryUrlCaching.EntryUrlCache.CleanUnMatchedSpans | pkg/connector/redmetricsconnector/internal/cache/entry_url_mapping.go:129-155 | splits the pending list at the first span not expired |
| DimensionCaching.Cache.Add | pkg/connector/redmetricsconnector/internal/cache/cache.go:57-60 | the LRU step: move to the front, or insert and evict the oldest item into the evicted map |
| DimensionCaching.Cache.Get | pkg/connector/redmetricsconnector/internal/cache/cache.go:62-76 | finds exactly what is held, in the list or evicted, and revives an evicted item |
| DimensionCaching.Cache.RemoveEvictedItems | pkg/connector/redmetricsconnector/internal/cache/cache.go:49-55 | empties the evicted map in place |
| DimensionCaching.AddKeepsHeld | pkg/connector/redmetricsconnector/internal/cache/cache.go:34-60 | adding loses nothing held, bounds the list and keeps list and evicted map disjoint |
| DimensionCaching.FetchKeepsHeld | pkg/connector/redmetricsconnector/internal/cache/cache.go:62-76 | a look-up loses nothing, also when reviving evicts another item, and brings what it finds into the list |
| DimensionCaching.UseKeepsRecent | pkg/connector/redmetricsconnector/internal/cache/cache.go:57-76 | after any use the list is the last `size` distinct keys used, most recent first |
| DimensionCaching.AddIsOneUse | pkg/connector/redmetricsconnector/internal/cache/cache.go:57-60 | an Add counts as one use of its key |
| DimensionCaching.FetchIsOneUse | pkg/connector/redmetricsconnector/internal/cache/cache.go:62-76 | a Get that finds its key counts as one use of it |
| DimensionKeys.ReusedKeyValue.Add | pkg/connector/redmetricsconnector/internal/cache/model.go:34-43 | appends a name and a value, or nothing past the maximum |
| DimensionKeys.ReusedKeyValue.GetValue | pkg/connector/redmetricsconnector/internal/cache/model.go:45-54 | the values joined by NUL |
| DimensionKeys.ReusedKeyValue.GetMap | pkg/connector/redmetricsconnector/internal/cache/model.go:56-62 | the attribute map, a later value of a name replacing an earlier one |
| DimensionKeys.PartsOfJoined | pkg/connector/redmetricsconnector/internal/cache/model.go:45-54 | cutting a key at its NULs gives back the NUL-free values it was joined from |
| DimensionKeys.KeyTellsExactly | pkg/connector/redmetricsconnector/internal/cache/model.go:45-54 | among lists of as many values a key of two or more tells its values if and only if they are NUL-free |
| DimensionKeys.ClashesExactly | pkg/connector/redmetricsconnector/internal/cache/model.go:45-54 | some list with one value more has the same key if and only if a value has a NUL in it |
| DimensionKeys.AttributesComplete | pkg/connector/redmetricsconnector/internal/cache/model.go:56-62 | with distinct names every value is in the map under its name and nothing else is |
| DimensionKeys.LaterValueWins | pkg/connector/redmetricsconnector/internal/cache/model.go:56-62 | with a name added twice the later value is in the map |
| DimensionKeys.BuildServerKey | pkg/connector/redmetricsconnector/internal/parser/parser.go:57-69 | eight attributes, and the key joined from them |
| DimensionKeys.BuildExternalKey | pkg/connector/redmetricsconnector/internal/parser/parser.go:72-86 | ten attributes, and the key joined from them |
| DimensionKeys.BuildDbKey | pkg/connector/redmetricsconnector/internal/parser/parser.go:89-104 | eleven attributes, and the key joined from them |
| DimensionKeys.BuildMqKey | pkg/connector/redmetricsconnector/internal/parser/parser.go:107-122 | eleven attributes, and the key joined from them |
| MetricFamilies.AggregateKeepsInv | pkg/connector/redmetricsconnector/connector.go:459-463 | a span update, whatever its values, keeps: dimensions are attributes of spans with the key, no observation is lost, and every histogram key has dimensions if that was so |
| MetricFamilies.ExportKeepsInv | pkg/connector/redmetricsconnector/connector.go:363-391 | an export keeps the same but for the last, whatever histograms survive |
| MetricFamilies.ExportKeepsKeysExactly | pkg/connector/redmetricsconnector/connector.go:318-342 | after an export every histogram key has dimensions if and only if every key that survives is in the family's own LRU list |
| MetricFamilies.PointsAreFaithful | pkg/connector/redmetricsconnector/connector.go:414-441 | a point carries all spans of its key since the histogram was created, in order, and attributes that are those of every NUL-free span among them |
| MetricFamilies.EverythingIsExported | pkg/connector/redmetricsconnector/connector.go:300-344 | after an export every span received so far has been exported |
| SeriesValues.UpdateIsOneMore | pkg/connector/redmetricsconnector/connector.go:543-550 | the histogram of a series, updated with a latency, is the histogram of its spans and that one |
| SeriesValues.PointIsHistogramOfItsSpans | pkg/connector/redmetricsconnector/connector.go:414-441 | the values of a point are those of the spans behind it: the count is their number, the sum their latencies added up, each counter the latencies in its range |
| MetricFamilies.ExportBoundsSeries | pkg/connector/redmetricsconnector/connector.go:318-342 | an export leaves at most as many series as the cache holds |
| MetricFamilies.ExportKeepsLastVisited | pkg/connector/redmetricsconnector/connector.go:323-327 | the series that survive are exactly the last ones the collect loop visited, all of them if they fit |
| RedMetrics.ReachableInv | pkg/connector/redmetricsconnector/connector.go:300-344 | the invariants of all four families hold over every run of span updates, exports and failed exports, whatever the values |
| RedMetrics.OwnSeriesNeverFail | pkg/connector/redmetricsconnector/connector.go:305-316 | in no run, whatever the values, does buildMetrics return "value not found" for a server, DB or MQ series |
| RedMetrics.CleanExportsNeverFail | pkg/connector/redmetricsconnector/connector.go:305-316 | in no run whose external values are NUL-free does it return that at all |
| ServedKeys.ClashesExactly | pkg/connector/redmetricsconnector/internal/parser/parser.go:57-104 | some DB list of the same node has the key of an external list if and only if the parts of the key can be read as a DB list, a matter of two numbers |
| ServedKeys.LaterNulClashes | pkg/connector/redmetricsconnector/internal/parser/parser.go:72-86 | a NUL in the container id, name, address or system always makes such a clash |
| ServedKeys.EarlyNulIsSound | pkg/connector/redmetricsconnector/internal/parser/parser.go:72-86 | a NUL in the service name or the entry URL makes none as long as no part of these is the name of the node |
| ServedKeys.DirtyServiceName | pkg/connector/redmetricsconnector/internal/parser/parser.go:72-86 | so a NUL put into the service name of a clean list is no clash, for any two parts that are not the name of the node |
| RedMetrics.ApartExportsNeverFail | pkg/connector/redmetricsconnector/connector.go:305-316 | in no run whose external keys are no DB keys does buildMetrics return "value not found" |
| RedFailures.FailingRun | pkg/connector/redmetricsconnector/connector.go:333-337 | for every cache size, node and external list that clashes, a run of lists this connector builds after which it does |
| RedFailures.FailureLasts | pkg/connector/redmetricsconnector/connector.go:305-316 | after a failed export, whatever happens, the key stays without dimensions and no export succeeds until an external span comes with that key |
| RedFailures.SpanEndsFailure | pkg/connector/redmetricsconnector/connector.go:459-463 | such a span gives the key its dimensions again |
| RedFailures.ExternalSoundExactly | pkg/connector/redmetricsconnector/connector.go:305-337 | over every run of one node whose external lists are NUL-free or among some others: exports never fail, and no external histogram survives one, if and only if none of the others has the key of a DB list of that node |
| RedMetrics.ExternalKeysAreNotDbKeys | pkg/connector/redmetricsconnector/connector.go:333-337 | the DB cache never knows a key of NUL-free external values, whatever the DB values are |
| RedMetrics.CleanExternalSeriesNeverSurvive | pkg/connector/redmetricsconnector/connector.go:333-337 | with NUL-free external values every export deletes all external histograms, as line 334 asks the DB cache |
| RedMetrics.OtherSeriesSurvive | pkg/connector/redmetricsconnector/connector.go:323-342 | server, DB and MQ series survive an export as long as they fit their cache, whatever the values |
| RedMetrics.BuildExportsEverything | pkg/connector/redmetricsconnector/connector.go:300-344 | after a successful export every span received so far, of any family, has been exported |
| RedMetrics.ExportSaysItsValues | pkg/connector/redmetricsconnector/connector.go:375-441 | in every export a point of each family has exactly the names of that family as attributes, and for every NUL-free span behind it each is the value of that span |
| RedConnector.Series.Aggregate | pkg/connector/redmetricsconnector/connector.go:459-463 | one update of a family, on the objects |
| RedConnector.Series.UpdateHistogram | pkg/connector/redmetricsconnector/connector.go:543-550 | the histogram of the key, created if missing, gets one more observation |
| RedConnector.Series.Collect | pkg/connector/redmetricsconnector/connector.go:363-391 | the collect loop in arbitrary order: points and the cache after reviving, or the error at a key without dimensions, exactly when there is one |
| RedConnector.Series.Prune | pkg/connector/redmetricsconnector/connector.go:323-327 | the delete loop over a map |
| RedConnector.ConnectorImp.AggregateMetricsForSpan | pkg/connector/redmetricsconnector/connector.go:446-516 | the four families after one span, the values recorded being its end less its start |
| RedHeard.CountsExactly | pkg/connector/redmetricsconnector/connector.go:446-516 | in which families a span counts, from its kind, its times, its SkyWalking span id, what the parsers find and what is enabled |
| RedHeard.RecordsTheDuration | pkg/connector/redmetricsconnector/connector.go:448-453 | the value recorded is positive, and the start of the span plus it is its end |
| RedHeard.ServerAttributes | pkg/connector/redmetricsconnector/internal/parser/parser.go:57-70 | the attributes of a served span by name |
| RedHeard.DbAttributes | pkg/connector/redmetricsconnector/internal/parser/parser.go:89-104 | the attributes of a DB call by name |
| RedHeard.ExternalAttributes | pkg/connector/redmetricsconnector/internal/parser/parser.go:72-86 | the attributes of an external call by name |
| RedHeard.MqAttributes | pkg/connector/redmetricsconnector/internal/parser/parser.go:107-122 | the attributes of a message by name |
| RedHeard.RunIsToldRight | pkg/connector/redmetricsconnector/connector.go:446-516 | over every run of spans and exports the updates of each family are, one by one, the durations of the spans that count there |
| RedHeard.PointAddsUpItsSpans | pkg/connector/redmetricsconnector/connector.go:414-441 | the sum of an exported point is the ends less the starts of spans that counted in its family, one for each of its observations |
| RedSpans.SpanIsSteps | pkg/connector/redmetricsconnector/connector.go:446-516 | what AggregateMetricsForSpan promises of the objects is a run of at most four span steps of the runs above |
| RedSpans.FieldsAreServed | pkg/connector/redmetricsconnector/connector.go:446-516 | the value lists it brings are lists of the node |
| RedSpans.ServedIsExternal | pkg/connector/redmetricsconnector/internal/parser/parser.go:72-86 | every list of ten of the node is the list of some external call |
| RedSpans.ServedIsDb | pkg/connector/redmetricsconnector/internal/parser/parser.go:89-104 | every list of eleven of the node is the list of some DB call |
| RedConnector.ConnectorImp.BuildMetrics | pkg/connector/redmetricsconnector/connector.go:300-344 | the export of all four families on the objects, the external one pruned by the DB cache, or the error return before anything is removed |
| RedConnector.BuildIsStep | pkg/connector/redmetricsconnector/connector.go:300-344 | what BuildMetrics promises of the objects is the export step of the runs above |
| RedConnector.FailureIsStep | pkg/connector/redmetricsconnector/connector.go:305-316 | or their failed export |
| VmHistograms.RangeRule | pkg/connector/redmetricsconnector/internal/cache/vm_histogram.go:92-105 | a value is in the labelled range of its place (lower bound excluded, upper included) if and only if its scaled logarithm is neither 0 nor 486 |
| VmHistograms.OuterBoundsAreMisplaced | pkg/connector/redmetricsconnector/internal/cache/vm_histogram.go:92-105 | every value whose decimal logarithm is -9 or 18 is counted one place above its labelled range |
| VmHistograms.CountedExactly | pkg/connector/redmetricsconnector/internal/cache/vm_histogram.go:87-105 | NaN, minus infinity and negative numbers are not counted; zero counts below all buckets, infinity above |
| VmHistograms.HistSumIsOfValues | pkg/connector/redmetricsconnector/internal/cache/vm_histogram.go:87-118 | the sum is that of the counted numbers, and infinite exactly if an infinite value came |
| VmHistograms.VisitedExactly | pkg/connector/redmetricsconnector/internal/cache/vm_histogram.go:153-184 | the visit has exactly the places that hold anything, with their counts, each once, the lowest first |
| VmHistograms.RangesAreDisjoint | pkg/connector/redmetricsconnector/internal/cache/vm_histogram.go:196-210 | no value is in two labelled ranges |
| VmHistograms.RangesCover | pkg/connector/redmetricsconnector/internal/cache/vm_histogram.go:196-210 | every value is in one |
| VmHistograms.MergeIsHomomorphism | pkg/connector/redmetricsconnector/internal/cache/vm_histogram.go:120-145 | merging the histograms of two runs of observations gives the histogram of both, in every counter and the sum |
| VmHistograms.CountersSumToAccepted | pkg/connector/redmetricsconnector/internal/cache/vm_histogram.go:84-117 | the counters add up to the number of observations that are neither NaN nor negative |
| VmHistogramObjects.VmHistogram.Update | pkg/connector/redmetricsconnector/internal/cache/vm_histogram.go:87-117 | adds the histogram of the one observation, allocating its range if needed |
| VmHistogramObjects.VmHistogram.FindPlace | pkg/connector/redmetricsconnector/internal/cache/vm_histogram.go:92-105 | the place of an accepted value, with the edge shift |
| VmHistogramObjects.VmHistogram.Allocated | pkg/connector/redmetricsconnector/internal/cache/vm_histogram.go:108-113 | lazy allocation changes no counter and aliases none |
| VmHistogramObjects.VmHistogram.Merge | pkg/connector/redmetricsconnector/internal/cache/vm_histogram.go:120-145 | adds the source's histogram and leaves the source as it is |
| VmHistogramObjects.VmHistogram.Reset | pkg/connector/redmetricsconnector/internal/cache/vm_histogram.go:68-82 | zeroes the counters, keeping the arrays |
| VmHistogramObjects.VmHistogram.VisitNonZeroBuckets | pkg/connector/redmetricsconnector/internal/cache/vm_histogram.go:153-174 | visits the non-zero places in order, skipping unallocated ranges |
| VmHistogramObjects.VmHistogram.Read | pkg/connector/redmetricsconnector/internal/cache/vm_histogram.go:227-238 | a map of exactly the non-zero places; the count is the sum of all counters; the sum only if that is positive |
| Silencing.RateBound | pkg/processor/backsamplingprocessor/internal/sampler/silent.go:36-84 | window mode: within a time span T one URL is allowed at most count * (T / period + 2) times |
| Silencing.AllowedPerWindow | pkg/processor/backsamplingprocessor/internal/sampler/silent.go:44-51 | window mode: at most count answers per window begun, less what remains |
| Silencing.WindowsAreApart | pkg/processor/backsamplingprocessor/internal/sampler/silent.go:54-72 | windows begin at least a period apart |
| Silencing.PauseIsKept | pkg/processor/backsamplingprocessor/internal/sampler/silent.go:92-113 | wait mode, count of at least 2: a used-up URL is not allowed again until strictly more than a period later |
| Silencing.CountOneNeverReopens | pkg/processor/backsamplingprocessor/internal/sampler/silent.go:47-51 | wait mode, count of 1: a URL is allowed once in a run and never again |
| Silencing.ReopensExactly | pkg/processor/backsamplingprocessor/internal/sampler/silent.go:90-93 | wait mode: some check from the last event on lets a used-up URL in again if and only if the count is at least 2 |
| SilentAnswers.OffExactly | pkg/processor/backsamplingprocessor/internal/sampler/silent.go:36-52 | a count that is not positive allows nothing; with one, a period that is not positive allows everything |
| SilentAnswers.NoPeriodForgets | pkg/processor/backsamplingprocessor/internal/sampler/silent.go:86-89 | without a period a check forgets every URL |
| SilentAnswers.CheckClears | pkg/processor/backsamplingprocessor/internal/sampler/silent.go:54-84 | window mode: exactly the checks a period or more after the start of the window begin a new one, and these forget every URL, the others none |
| SilentAnswers.WindowAllowsExactly | pkg/processor/backsamplingprocessor/internal/sampler/silent.go:36-113 | window mode: a question is allowed if and only if fewer than count questions for its URL came since the window began, whatever came before |
| SilentAnswers.AllowedInWindow | pkg/processor/backsamplingprocessor/internal/sampler/silent.go:36-113 | so between two checks that begin a window a URL is allowed exactly the smaller of count and its questions |
| SilentAnswers.WaitAllowsExactly | pkg/processor/backsamplingprocessor/internal/sampler/silent.go:36-113 | wait mode: a question for a URL that was not known is allowed if and only if fewer than count came since, until a check reopens the URL |
| SilentAnswers.ReopenedIsUnknown | pkg/processor/backsamplingprocessor/internal/sampler/silent.go:90-93 | wait mode: the first check more than a period after the question that used up the answers makes the URL unknown again |
| Silencing.Silent.IsSilent | pkg/processor/backsamplingprocessor/internal/sampler/silent.go:36-52 | the answer and the entry left behind |
| Silencing.Silent.IsNewWindow | pkg/processor/backsamplingprocessor/internal/sampler/silent.go:54-72 | the answer and the next window time |
| Silencing.Silent.CheckAndResetSilent | pkg/processor/backsamplingprocessor/internal/sampler/silent.go:74-84 | deletes exactly the expired entries |
| SampleCaching.SampleCache.CheckSlow | pkg/processor/backsamplingprocessor/internal/sampler/sample_cache.go:106-117 | slow means at least the threshold of the URL, or the default one, and not below the ignore threshold; the threshold is the one labelled |
| SampleCaching.SampleCache.UpdateSlowThreshold | pkg/processor/backsamplingprocessor/internal/sampler/sample_cache.go:176-186 | the threshold of a URL becomes the last positive one sent for it, with its labels, or stays |
| SampleCaching.SampleCache.GetSampleResult | pkg/processor/backsamplingprocessor/internal/sampler/sample_cache.go:51-88 | the answer, the marks and the state of the limit after every branch, the limit asked exactly where the code asks it; each sampler that begins to hold the id queues it once |
| SampleCaching.SlowExactly | pkg/processor/backsamplingprocessor/internal/sampler/sample_cache.go:106-117 | a span is slow exactly from the threshold of its URL on, of which the fraction does not count, or from the configured one on, and never if it is shorter than what is ignored |
| SampleCaching.IgnoredExactly | pkg/processor/backsamplingprocessor/internal/sampler/sample_cache.go:54-61 | no sampler is asked exactly if all kinds are off, or the span is short, did not fail and is no top span; then nothing changes |
| SampleCaching.ProfiledExactly | pkg/processor/backsamplingprocessor/internal/sampler/sample_cache.go:66-71 | a slow or failed span asks the limit exactly if its kind is on and the head sampler picked it, and is decided as sampled exactly if the limit allows it |
| SampleCaching.NormalExactly | pkg/processor/backsamplingprocessor/internal/sampler/sample_cache.go:72-79 | any other span leaves the limit alone and is a normal sample exactly if normal sampling is on, the head sampler and the normal sampler pick it, and it is a top span where only those count |
| SampleCaching.LimitSeesEvents | pkg/processor/backsamplingprocessor/internal/sampler/sample_cache.go:51-88 | over a run of answers and window checks the limit is in the state its own questions and checks lead to |
| SampleCaching.ProfilesWhenAllowed | pkg/processor/backsamplingprocessor/internal/sampler/sample_cache.go:63-71 | a slow or failed span is sampled exactly when the limit is asked and allows it |
| SampleCaching.ProfiledRateBound | pkg/processor/backsamplingprocessor/internal/sampler/sample_cache.go:66-71 | window mode: within a time span T at most count * (T / period + 2) slow or failed spans of one process and URL are sampled, whatever else is called |
| SpanIds.SwStringToUUID | pkg/receiver/skywalkingreceiver/internal/trace/skywalkingproto_to_traces.go:401-458 | the byte loops compute the UUID of a segment id and a span number, the four bytes of the number in front |
| SpanIdDigits.DecodedIsWrittenBack | pkg/receiver/skywalkingreceiver/internal/trace/skywalkingproto_to_traces.go:406-415 | each decoded byte, written as two hexadecimal digits, gives back the characters it was read from, up to case |
| SpanIdDigits.DecodingStops | pkg/receiver/skywalkingreceiver/internal/trace/skywalkingproto_to_traces.go:406-415 | decoding stops at the first pair that is not two digits and leaves zeros |
| SpanIdDigits.AtoiReads | pkg/receiver/skywalkingreceiver/internal/trace/skywalkingproto_to_traces.go:435-448 | a number written in decimals, with or without a sign, is read as that number exactly as long as 64 bits hold it |
| SpanIdDigits.AtoiReadsDigitsOnly | pkg/receiver/skywalkingreceiver/internal/trace/skywalkingproto_to_traces.go:435-448 | what is read as a number is a sign at most, and one digit at least, and nothing else |
| SpanIdDigits.BytesAreTheNumber | pkg/receiver/skywalkingreceiver/internal/trace/skywalkingproto_to_traces.go:417-457 | the bytes mixed in are those of the number modulo a power of 256, the lowest first, for negative numbers too |
| SpanIdDigits.UuidBytes | pkg/receiver/skywalkingreceiver/internal/trace/skywalkingproto_to_traces.go:417-457 | byte by byte: the digits, mixed with the number of the span in the first four, the first number behind a dot in the next four, the second in the last eight |
| SpanIdDigits.MalformedIs | pkg/receiver/skywalkingreceiver/internal/trace/skywalkingproto_to_traces.go:406-448 | any other long segment id gives what was decoded before the first bad digit, or zeros if the digits are good |
| SpanIdDigits.IdIsHalvesMixed | pkg/receiver/skywalkingreceiver/internal/trace/skywalkingproto_to_traces.go:390-399 | a byte of the span id is the byte of the UUID mixed with the one eight further |
| SpanIds.HexDecode | pkg/receiver/skywalkingreceiver/internal/trace/skywalkingproto_to_traces.go:415-420 | what decoding leaves in the array, up to the first digit that is none |
| SpanIds.XorNumber | pkg/receiver/skywalkingreceiver/internal/trace/skywalkingproto_to_traces.go:422-425 | the loops that XOR the low bytes of a number into the array |
| SpanIds.UuidTo8Bytes | pkg/receiver/skywalkingreceiver/internal/trace/skywalkingproto_to_traces.go:460-467 | folds the halves |
| SpanIds.SegmentIDToSpanID | pkg/receiver/skywalkingreceiver/internal/trace/skywalkingproto_to_traces.go:390-399 | the span id of a segment id and a span number |
| SpanIds.SwSpanToSpan | pkg/receiver/skywalkingreceiver/internal/trace/skywalkingproto_to_traces.go:116-129 | span id and parent id of a translated span |
| SpanIds.IdsAreInjective | pkg/receiver/skywalkingreceiver/internal/trace/skywalkingproto_to_traces.go:390-467 | for a well-formed segment id the span id tells the 32-bit number |
| SpanIds.OtherIdsAreConstant | pkg/receiver/skywalkingreceiver/internal/trace/skywalkingproto_to_traces.go:417-445 | any other segment id gives all its spans one and the same id, or panics |
| SpanIds.InjectiveExactly | pkg/receiver/skywalkingreceiver/internal/trace/skywalkingproto_to_traces.go:390-467 | different numbers get different ids if and only if the segment id is well formed |
| SpanIds.PanicsExactly | pkg/receiver/skywalkingreceiver/internal/trace/skywalkingproto_to_traces.go:431-437 | the conversion panics exactly on 32 digits followed by a dot and no other dot |
| SpanIds.OneDotPanics | pkg/receiver/skywalkingreceiver/internal/trace/skywalkingproto_to_traces.go:431-437 | so it does for any 32 hexadecimal digits, a dot and any tail without one |
| SpanIds.SpansStayDistinct | pkg/receiver/skywalkingreceiver/internal/trace/skywalkingproto_to_traces.go:116-124 | no two spans of a segment share an id |
| SpanIds.TreeIsKept | pkg/receiver/skywalkingreceiver/internal/trace/skywalkingproto_to_traces.go:117-124 | the parent id of a span below another is a span's id if and only if SkyWalking names that span; that of a span without parent and reference, if and only if that id is empty |
| SpanIdValues.GivesExactly | pkg/receiver/skywalkingreceiver/internal/trace/skywalkingproto_to_traces.go:390-467 | a well-formed segment gives an id if and only if its last four bytes are the segment's own, and then to one number alone |
| SpanIdValues.RootsAreToldExactly | pkg/receiver/skywalkingreceiver/internal/trace/skywalkingproto_to_traces.go:117-124 | every span below another has a non-empty parent id if and only if the segment's own last four bytes are not all zero, or the one number with the empty id is -1 |
| SpanIdValues.RootsAreKept | pkg/receiver/skywalkingreceiver/internal/trace/skywalkingproto_to_traces.go:117-129 | where that is so, exactly the spans without parent have an empty parent id |
| SpanIdValues.ZerosHideRoots | pkg/receiver/skywalkingreceiver/internal/trace/skywalkingproto_to_traces.go:417-425 | thirty-two zeros are a segment id where it is not so |
| SpanIdValues.SegmentsShareExactly | pkg/receiver/skywalkingreceiver/internal/trace/skywalkingproto_to_traces.go:390-467 | two segments share ids if and only if their own last four bytes agree, and then every number of one has the id of exactly one of the other |
| SpanIdValues.FirstDigitsDoNotTell | pkg/receiver/skywalkingreceiver/internal/trace/skywalkingproto_to_traces.go:417-425 | two segment ids of 32 digits that differ in the first eight share all their ids |
| SpanIds.ReferenceIsKept | pkg/receiver/skywalkingreceiver/internal/trace/skywalkingproto_to_traces.go:125-129 | a single reference to another segment gets the id that segment's span has |
| UndertowJoining.UndertowCache.CheckUndertow | pkg/receiver/skywalkingreceiver/internal/trace/undertow_trace.go:22-67 | one segment: passed on, held back or joined, with both maps updated |
| UndertowSegments.HalvesExactly | pkg/receiver/skywalkingreceiver/internal/trace/undertow_trace.go:23-58 | from the spans: a segment is an I/O half, a task half of the segment its last dispatch span refers to, or neither, and meets the other half under its trace id and the id of the I/O segment |
| UndertowSegments.IoThenTask | pkg/receiver/skywalkingreceiver/internal/trace/undertow_trace.go:46-64 | the I/O half of a request first: it is held, and the task half that refers to it gives both out, the first I/O span named by the last Spring entry |
| UndertowSegments.TaskThenIo | pkg/receiver/skywalkingreceiver/internal/trace/undertow_trace.go:46-64 | the task half first: it is given out at once, and the I/O half takes the name |
| UndertowSegments.OthersDoNotTake | pkg/receiver/skywalkingreceiver/internal/trace/undertow_trace.go:46-64 | a task half that refers to another segment leaves the held one where it is |
| UndertowSegments.RequestIsJoined | pkg/receiver/skywalkingreceiver/internal/trace/undertow_trace.go:46-64 | over every run with distinct keys both halves of a request are given out, the first I/O span named, and nothing waits under their key |
| UndertowRuns.WaitingIsHeld | pkg/receiver/skywalkingreceiver/internal/trace/undertow_trace.go:46-64 | with distinct keys the maps hold exactly the halves whose other half has not come |
| UndertowRuns.GivenIsFinal | pkg/receiver/skywalkingreceiver/internal/trace/undertow_trace.go:22-67 | everything given out over a run is, segment by segment, its own spans, an I/O half only when its other half came, and renamed |
| UndertowRuns.OrderDoesNotMatter | pkg/receiver/skywalkingreceiver/internal/trace/undertow_trace.go:46-64 | the same segments in another order give out the same spans |
| UndertowRuns.PairIsJoined | pkg/receiver/skywalkingreceiver/internal/trace/undertow_trace.go:46-64 | the spans of both halves of a matched pair are among those given out, the first I/O span named by the route, and neither map holds the key |
| UndertowRuns.SpansAreAccountedFor | pkg/receiver/skywalkingreceiver/internal/trace/undertow_trace.go:22-67 | over every run without a panic, whatever keys it uses, spans received are spans given out plus spans held in the I/O map plus spans overwritten there |
| UndertowRuns.ConservedExactly | pkg/receiver/skywalkingreceiver/internal/trace/undertow_trace.go:46-53 | nothing is lost if and only if no I/O half arrives while another one waits under its key |
| UndertowRuns.DistinctKeysConserve | pkg/receiver/skywalkingreceiver/internal/trace/undertow_trace.go:46-64 | with distinct keys that is so |
| UndertowJoining.BrokenExactly | pkg/receiver/skywalkingreceiver/internal/trace/undertow_trace.go:26-31 | a segment makes the scan panic exactly if it has an Undertow dispatch span with span id 0 and no reference |
| UndertowRaces.OneAfterTheOther | pkg/receiver/skywalkingreceiver/internal/trace/undertow_trace.go:46-65 | two handlers that do not overlap do what two arrivals of the runs do |
| UndertowRaces.MissEachOtherExactly | pkg/receiver/skywalkingreceiver/internal/trace/undertow_trace.go:46-65 | handled at the same time, the halves miss each other exactly when both look before either stores; else they are joined |
| TraceBlocking.Validate | pkg/processor/traceblockprocessor/config.go:19-38 | accepts exactly a positive idle time smaller than the blocked idle time and the threshold |
| TraceBlocking.TraceBlockProcessor.ShouldDrop | pkg/processor/traceblockprocessor/processor.go:188-211 | state and answer for one span |
| TraceBlocking.TraceBlockProcessor.CleanExpired | pkg/processor/traceblockprocessor/processor.go:150-164 | deletes exactly the traces idle for their time |
| TraceBlocking.BlockedExactly | pkg/processor/traceblockprocessor/processor.go:206-210 | in every reachable state a trace is blocked if and only if its last span came the threshold or more after its first |
| TraceBlocking.SteadyIsHeld | pkg/processor/traceblockprocessor/processor.go:150-164 | a trace whose spans are less than the idle time apart is never swept between them |
| TraceBlocking.DroppedExactly | pkg/processor/traceblockprocessor/processor.go:188-211 | such a trace has a span dropped if and only if it comes the threshold or more after the first, whatever sweeps run |
| TraceLives.HeldExactly | pkg/processor/traceblockprocessor/processor.go:150-164 | whatever happens to other traces, a trace is held exactly as long as every sweep since its last span came before its idle time was over, that of blocked traces if that span was dropped |
| TraceLives.DroppedIff | pkg/processor/traceblockprocessor/processor.go:188-211 | in every run a span is dropped if and only if what is held of its trace began the threshold or more before it |
| TraceLives.BatchIsEvents | pkg/processor/traceblockprocessor/processor.go:85-101 | a batch leaves what its spans leave as single events |
| TraceLives.KeptAre | pkg/processor/traceblockprocessor/processor.go:89-103 | the spans that go on are, in order, exactly those at the places where nothing is dropped |
| TraceBlocking.KeptOrDropped | pkg/processor/traceblockprocessor/processor.go:89-104 | every span of a batch is kept or dropped |
| TraceBlocking.InTwoParts | pkg/processor/traceblockprocessor/processor.go:89-104 | deciding a nested batch group by group is deciding its spans one after the other |
| TraceBlocking.TraceBlockProcessor.FilterBatch | pkg/processor/traceblockprocessor/processor.go:89-104 | the nested removals leave exactly the kept spans and no empty group |
| TraceBlocking.TraceBlockProcessor.ConsumeTraces | pkg/processor/traceblockprocessor/processor.go:85-128 | received is forwarded plus dropped, for every nested batch |

## Left out

- Servers and clients, protobuf, JSON, factories, configuration decoding, logging, telemetry counters, `activeCount`, and the tickers themselves.
- GetSampleResult: what the normal sampler answers for a span is an input, and its times are not modelled. Adaptive and single sampling, and the notification after a store, are left out.
- CleanCacheOnTick: the normal sampler's times it updates and the window checks it ends with are not part of it; the limit's window check is `CheckAndResetSilent`.
- AggregateMetricsForSpan: what the parsers find on a span is an input.
- HandleSpan: slow, error and sampled are inputs here and of the handshake's decide step, which so covers every answer `GetSampleResult` can give but the one for spans no sampler is asked about. The branch of the single sampler and the notification after a store are left out.
- Decide: it and one call of `notifyTailbase` are one step in the handshake; the load and the store on the id map inside it are not split. Reading a slice's length before locking is taken as part of the locked step.
- `CacheData` and `traceState` objects are values inside their maps; no two keys share one, so updating the entry is the same. Fragments of the wheel are told apart by a ghost identity.
- Series: it keeps a histogram as the list of its observations with their attribute values; the counters of the histogram object are the separate `VmHistogram` class. The Prometheus histogram and the `vmrange` label strings are not modelled; each range has its own label.
- MarkUnSent: what a call leaves behind once its slice is out of range is not promised, as the process ends there; so for `MarkSent`, `UpdateSampledTraceIds` and `UpdateUnSentCount`.
- The spans of a resource are one list in the matching model, scope after scope; `GetResourceAttribute` gives three strings. A batch's `ResourceSpan` objects are values: a resolved span is a copy with its entry URL.
- GetEntrySpanName: it and `GetMatchedResourceSpans` ask that their look-ups end, by the code's own recursion; there is no result to state otherwise.
- The two reads of `unMatchedSpans` in `CleanUnMatchedSpans` before its lock are one step with the cut.
- `buildServerKey`'s limits on services and operations (the service name may be replaced before it gets here; the operation limit does not reach the key), and the parsers that decide what a span is: their findings are inputs of `AggregateMetricsForSpan`. `BuildMetrics` exports points, not metric messages.
- `log10` is an arbitrary function on reals and sums are reals: no rounding of floats. Counters, clocks and times do not overflow.
- In `SpanIds` a byte is a number from 0 to 255 and exclusive or is defined bit by bit; `hex.Decode` and `strconv.Atoi` are written out. Trace ids, tags, links and logs of a translated span are not modelled.
- CheckUndertow: it asks for the translation of its segment, one span each or no scope for no span, as the receiver passes it, and is one step in the runs; the resource of a held trace is dropped when it is joined, as in the code, and not modelled.
- ConsumeTraces: spans and sweeps of other goroutines between two spans of one batch are not part of it; `DroppedExactly` is about spans and sweeps in any order.
- Empty spans slots (nil) in a segment, and the `reportStats` reset of the blocker's counters.
- `/proc` scanning, socket matching, metadata, SQL pruning, adaptive sampling, remote write and URL parsing: they would add easier members.
