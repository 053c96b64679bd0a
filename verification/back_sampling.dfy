// The processor's own code between the samplers and the wheel: the decision switch and the tick.
module BackSampling {
  import opened TimeWheel
  import opened TailbaseSampling
  import opened TailHandshake
  import OtelTraceSampling

  // A call of AddProfileSignal.
  datatype Signal = Signal(trace: TraceLabels, signalType: nat)

  // One signal of the slow kind for each trace, in order.
  function SlowSignals(traces: seq<TraceLabels>): seq<Signal> {
    seq(|traces|, i requires 0 <= i < |traces| => Signal(traces[i], 3))
  }

  class BackSampler {
    const samplers: TailbaseSamplers
    const tailbaseCache: ReadableCache<TraceLabels>
    const otelTraceSampler: OtelTraceSampling.OtelTraceSampler?
    const enableTailbaseProfiling: bool
    var stored: seq<TraceLabels>  // the calls of storeTrace, in order
    var signals: seq<Signal>      // the calls of storeSlowProfile and storeNormalProfile, in order

    ghost predicate Valid()
      reads tailbaseCache
    {
      samplers.Valid() && tailbaseCache.Valid()
    }

    constructor (holdTime: nat, retryNum: int, otel: OtelTraceSampling.OtelTraceSampler?, enableTailbaseProfiling: bool)
      ensures Valid() && stored == [] && signals == [] && samplers.errorSampler.traceHoldTime == holdTime
      ensures otelTraceSampler == otel && this.enableTailbaseProfiling == enableTailbaseProfiling
      ensures samplers.State() == Marks(map[], map[], map[]) && samplers.traceCache.cache == map[]
      ensures tailbaseCache.State() == NewWheel(holdTime)
    {
      samplers := new TailbaseSamplers(holdTime, retryNum);
      tailbaseCache := new ReadableCache<TraceLabels>(holdTime);
      otelTraceSampler, this.enableTailbaseProfiling := otel, enableTailbaseProfiling;
      stored, signals := [], [];
    }

    // The switch on the sample result, with nothing in between, and the mark for the whole trace.
    method HandleSpan(trace: TraceLabels, hasSlow: bool, hasError: bool, isSampled: bool)
      requires Valid()
      modifies this, samplers.traceCache, samplers.slowSampler, samplers.errorSampler, samplers.normalSampler
      modifies samplers.slowSampler.unSendIds, samplers.errorSampler.unSendIds, samplers.normalSampler.unSendIds
      modifies otelTraceSampler
      ensures Valid()
      ensures var (marks, labelled, result) := Decide(old(samplers.State()), trace, hasSlow, hasError, isSampled);
              && samplers.State() == marks
              && stored == old(stored) + (if result == Cache then [] else [labelled])
              && signals == old(signals) + (if isSampled && hasSlow then [Signal(labelled, 3)]
                                            else if isSampled && !hasSlow && !hasError then [Signal(labelled, 1)]
                                            else [])
              && samplers.traceCache.cache
                 == (if result == Cache then Written(old(samplers.traceCache.cache), trace.traceId, trace)
                     else old(samplers.traceCache.cache))
              && Queued(old(samplers.State()), trace.traceId, hasSlow, hasError, isSampled,
                        old(samplers.slowSampler.unSendIds.toSendIds), samplers.slowSampler.unSendIds.toSendIds,
                        old(samplers.errorSampler.unSendIds.toSendIds), samplers.errorSampler.unSendIds.toSendIds,
                        old(samplers.normalSampler.unSendIds.toSendIds), samplers.normalSampler.unSendIds.toSendIds)
              && (otelTraceSampler != null ==>
                    otelTraceSampler.sampledIds
                    == if labelled.isProfiled then OtelTraceSampling.Marked(old(otelTraceSampler.sampledIds),
                                                                            trace.traceId)
                       else old(otelTraceSampler.sampledIds))
    {
      var labelled, result := samplers.Sample(trace, hasSlow, hasError, isSampled);
      match result {
        case Trace => stored := stored + [labelled];
        case TraceLog => stored := stored + [labelled];
        case TraceProfile =>
          stored := stored + [labelled];
          signals := signals + [Signal(labelled, 3)];
        case Normal =>
          stored := stored + [labelled];
          signals := signals + [Signal(labelled, 1)];
        case Cache => samplers.traceCache.Write(labelled.traceId, labelled);
        case NoOp =>
      }
      if otelTraceSampler != null && labelled.isProfiled {
        otelTraceSampler.SetSampledTraceId(labelled.traceId);
      }
    }

    method CleanCacheOnTick() returns (ghost errorIds: seq<Key>, ghost slowIds: seq<Key>, ghost normalIds: seq<Key>,
                                       ghost slowTraces: seq<TraceLabels>)
      requires Valid()
      modifies this, samplers.traceCache, samplers.slowSampler, samplers.errorSampler, samplers.normalSampler
      modifies tailbaseCache, tailbaseCache.buckets
      ensures Valid() && samplers.traceCache.cache == map[]
      ensures CleanedAs(old(samplers.State()), errorIds, slowIds, normalIds, samplers.State(),
                        samplers.errorSampler.traceHoldTime)
      ensures |old(stored)| <= |stored| && stored[..|old(stored)|] == old(stored)
      ensures MatchedAs(old(tailbaseCache.State()), old(samplers.traceCache.cache), errorIds, slowIds, normalIds,
                        tailbaseCache.State(), stored[|old(stored)|..], slowTraces)
      ensures signals == old(signals) + if enableTailbaseProfiling then SlowSignals(slowTraces) else []
    {
      var traces := samplers.traceCache.GetAndReset();
      var errors, slows, normals := CleanSamplers();
      errorIds, slowIds, normalIds := errors, slows, normals;

      var errorTraces, slowOnes, normalTraces := MatchTraces(traces, errors, slows, normals);
      slowTraces := slowOnes;

      StoreMatches(errorTraces, slowOnes, normalTraces);
    }

    method StoreMatches(errorTraces: seq<TraceLabels>, slowTraces: seq<TraceLabels>, normalTraces: seq<TraceLabels>)
      modifies this
      ensures stored == old(stored) + (errorTraces + slowTraces + normalTraces)
      ensures signals == old(signals) + if enableTailbaseProfiling then SlowSignals(slowTraces) else []
    {
      StoreTraces(errorTraces, false);
      StoreTraces(slowTraces, enableTailbaseProfiling);
      StoreTraces(normalTraces, false);
    }

    // GetAndCleanTailbaseTraces
    method CleanSamplers() returns (errors: seq<Key>, slows: seq<Key>, normals: seq<Key>)
      requires Valid()
      modifies samplers.slowSampler, samplers.errorSampler, samplers.normalSampler
      ensures CleanedAs(old(samplers.State()), errors, slows, normals, samplers.State(),
                        samplers.errorSampler.traceHoldTime)
    {
      errors := samplers.errorSampler.CleanSampledIds();
      slows := samplers.slowSampler.CleanSampledIds();
      normals := samplers.normalSampler.CleanSampledIds();
    }

    // The part of the tick on the tick's own wheel: Copy, the three look-ups, the clean-up.
    method MatchTraces(traces: map<Key, seq<TraceLabels>>, errors: seq<Key>, slows: seq<Key>, normals: seq<Key>)
      returns (errorTraces: seq<TraceLabels>, slowTraces: seq<TraceLabels>, normalTraces: seq<TraceLabels>)
      requires Valid()
      modifies tailbaseCache, tailbaseCache.buckets
      ensures Valid()
      ensures MatchedAs(old(tailbaseCache.State()), traces, errors, slows, normals, tailbaseCache.State(),
                        errorTraces + slowTraces + normalTraces, slowTraces)
    {
      tailbaseCache.Copy(traces);
      ghost var copied := tailbaseCache.State();
      errorTraces := tailbaseCache.PickMatchDatas(errors);
      slowTraces := tailbaseCache.PickMatchDatas(slows);
      normalTraces := tailbaseCache.PickMatchDatas(normals);
      ghost var picked := tailbaseCache.State();
      tailbaseCache.CleanExpireDatas();

      PickAllConcat(copied.cache, errors, slows);
      PickAllConcat(copied.cache, errors + slows, normals);
      assert picked == copied.(cache := PickAll(copied.cache, errors + slows + normals).0);
      assert AfterCopy(copied, Tick(traces, errors + slows + normals), tailbaseCache.State(),
                       errorTraces + slowTraces + normalTraces);
    }

    method StoreTraces(traces: seq<TraceLabels>, profiled: bool)
      modifies this
      ensures stored == old(stored) + traces
      ensures signals == old(signals) + if profiled then SlowSignals(traces) else []
    {
      for i := 0 to |traces|
        invariant stored == old(stored) + traces[..i]
        invariant signals == old(signals) + if profiled then SlowSignals(traces[..i]) else []
      {
        stored := stored + [traces[i]];
        if profiled {
          signals := signals + [Signal(traces[i], 3)];
        }
      }
      assert traces[..|traces|] == traces;
    }
  }

  // ---------------------------------------------------------------- what a span and a tick promise

  // A sampler that begins to hold the id has it queued to be sent, once; the others queue nothing.
  ghost predicate Queued(was: Marks, id: Key, hasSlow: bool, hasError: bool, isSampled: bool,
                         slow: seq<string>, slow': seq<string>, error: seq<string>, error': seq<string>,
                         normal: seq<string>, normal': seq<string>) {
    && slow' == slow + (if isSampled && hasSlow && id !in was.slow then [id.text] else [])
    && error' == error + (if isSampled && hasError && id !in was.error then [id.text] else [])
    && normal' == normal + if isSampled && !hasSlow && !hasError && id !in was.normal then [id.text] else []
  }

  // The three cleanSampledIds: what they leave, and what they return.
  ghost predicate CleanedAs(was: Marks, errorIds: seq<Key>, slowIds: seq<Key>, normalIds: seq<Key>, now: Marks,
                            hold: nat) {
    && now == Marks(Cleaned(was.error, hold), Cleaned(was.slow, hold), Cleaned(was.normal, hold))
    && Lists(errorIds, Returned(was.error, hold))
    && Lists(slowIds, Returned(was.slow, hold))
    && Lists(normalIds, Returned(was.normal, hold))
  }

  // The tick's own wheel takes the drained batch in and gives out the matches of the three lists,
  // those of the slow ids in the middle.
  ghost predicate MatchedAs(was: Wheel<TraceLabels>, traces: map<Key, seq<TraceLabels>>,
                            errorIds: seq<Key>, slowIds: seq<Key>, normalIds: seq<Key>,
                            now: Wheel<TraceLabels>, out: seq<TraceLabels>, slowTraces: seq<TraceLabels>) {
    && Ticked(was, Tick(traces, errorIds + slowIds + normalIds), now, out)
    && exists copied :: Copied(was, traces, copied)
                        && slowTraces == PickAll(PickAll(copied.cache, errorIds).0, slowIds).1
  }

  // ---------------------------------------------------------------- the tick as steps of the system

  // The state after a whole tick, given what the three samplers returned and what was stored.
  function AfterTick(s: System, wait: nat, errorIds: seq<Key>, slowIds: seq<Key>, normalIds: seq<Key>,
                     wheel: Wheel<TraceLabels>, out: seq<TraceLabels>): System
  {
    s.(drains := s.drains + [s.cache], cache := map[],
       error := Marker(Cleaned(s.error.held, wait), s.error.log + [errorIds]),
       slow := Marker(Cleaned(s.slow.held, wait), s.slow.log + [slowIds]),
       normal := Marker(Cleaned(s.normal.held, wait), s.normal.log + [normalIds]),
       wheel := wheel, outs := s.outs + [out], ticks := s.ticks + 1)
  }

  // The states of a tick up to the last of its five steps.
  function Cleaning(s: System, wait: nat, errorIds: seq<Key>, slowIds: seq<Key>, normalIds: seq<Key>): seq<System> {
    var s1 := s.(drains := s.drains + [s.cache], cache := map[], phase := Drained);
    var s2 := s1.(error := Marker(Cleaned(s.error.held, wait), s.error.log + [errorIds]), phase := ErrorCleaned);
    var s3 := s2.(slow := Marker(Cleaned(s.slow.held, wait), s.slow.log + [slowIds]), phase := SlowCleaned);
    var s4 := s3.(normal := Marker(Cleaned(s.normal.held, wait), s.normal.log + [normalIds]), phase := NormalCleaned);
    [s, s1, s2, s3, s4]
  }

  lemma CleaningIsLinked(s: System, wait: nat, errorIds: seq<Key>, slowIds: seq<Key>, normalIds: seq<Key>)
    requires s.phase.Idle?
    requires Lists(errorIds, Returned(s.error.held, wait))
    requires Lists(slowIds, Returned(s.slow.held, wait))
    requires Lists(normalIds, Returned(s.normal.held, wait))
    ensures Linked(Cleaning(s, wait, errorIds, slowIds, normalIds), wait)
  {
    var b := Cleaning(s, wait, errorIds, slowIds, normalIds);
    assert TickStep(b[0], wait, b[1]);
    assert TickStep(b[1], wait, b[2]) by {
      assert b[2].error.log[..|s.error.log|] == s.error.log;
    }
    assert TickStep(b[2], wait, b[3]) by {
      assert b[3].slow.log[..|s.slow.log|] == s.slow.log;
    }
    assert TickStep(b[3], wait, b[4]) by {
      assert b[4].normal.log[..|s.normal.log|] == s.normal.log;
    }
    forall i: nat | i < |b| - 1 ensures LinkedAt(b, wait, i) {
      assert i == 0 || i == 1 || i == 2 || i == 3;
    }
  }

  lemma LinkedOneMore(b: seq<System>, wait: nat, s': System)
    requires Linked(b, wait) && NextStep(b[|b| - 1], wait, s')
    ensures Linked(b + [s'], wait)
  {
    forall i: nat | i < |b| ensures LinkedAt(b + [s'], wait, i) {
      if i < |b| - 1 {
        assert LinkedAt(b, wait, i);
      }
    }
  }

  lemma LastTickStep(s: System, wait: nat, errorIds: seq<Key>, slowIds: seq<Key>, normalIds: seq<Key>,
                     wheel: Wheel<TraceLabels>, out: seq<TraceLabels>)
    requires Counters(s) && s.phase.Idle?
    requires Ticked(s.wheel, Tick(s.cache, errorIds + slowIds + normalIds), wheel, out)
    ensures TickStep(Cleaning(s, wait, errorIds, slowIds, normalIds)[4], wait,
                     AfterTick(s, wait, errorIds, slowIds, normalIds, wheel, out))
  {
    var s4, s5 := Cleaning(s, wait, errorIds, slowIds, normalIds)[4],
        AfterTick(s, wait, errorIds, slowIds, normalIds, wheel, out);
    assert s5.outs[..|s.outs|] == s.outs;
    assert s4.Picks(s.ticks) == errorIds + slowIds + normalIds;
  }

  // What CleanCacheOnTick promises is a run of the five tick steps with no other step in between.
  lemma TickIsFiveSteps(s: System, wait: nat, errorIds: seq<Key>, slowIds: seq<Key>, normalIds: seq<Key>, now: Marks,
                        wheel: Wheel<TraceLabels>, out: seq<TraceLabels>, slowTraces: seq<TraceLabels>)
    requires Counters(s) && s.phase.Idle?
    requires CleanedAs(s.Marks(), errorIds, slowIds, normalIds, now, wait)
    requires MatchedAs(s.wheel, s.cache, errorIds, slowIds, normalIds, wheel, out, slowTraces)
    ensures AfterTick(s, wait, errorIds, slowIds, normalIds, wheel, out).Marks() == now
    ensures Leads(s, wait, AfterTick(s, wait, errorIds, slowIds, normalIds, wheel, out))
  {
    var b := Cleaning(s, wait, errorIds, slowIds, normalIds);
    var s' := AfterTick(s, wait, errorIds, slowIds, normalIds, wheel, out);
    CleaningIsLinked(s, wait, errorIds, slowIds, normalIds);
    LastTickStep(s, wait, errorIds, slowIds, normalIds, wheel, out);
    LinkedOneMore(b, wait, s');
    assert (b + [s'])[0] == s;
  }

  // ---------------------------------------------------------------- a span and a report as steps of the system

  // The state after HandleSpan.
  function AfterSpan(s: System, x: TraceLabels, hasSlow: bool, hasError: bool, isSampled: bool): System {
    var (marks, labelled, result) := Decide(s.Marks(), x, hasSlow, hasError, isSampled);
    if result == Cache then s.(parked := s.parked + [x], cache := Written(s.cache, x.traceId, x))
    else s.WithMarks(marks).(direct := s.direct + [labelled])
  }

  // What HandleSpan promises is a decision, followed by a write if the span is to be parked.
  lemma SpanIsOneOrTwoSteps(s: System, wait: nat, x: TraceLabels, hasSlow: bool, hasError: bool, isSampled: bool)
    requires s.Fresh(x)
    ensures AfterSpan(s, x, hasSlow, hasError, isSampled).Marks()
            == Decide(s.Marks(), x, hasSlow, hasError, isSampled).0
    ensures Leads(s, wait, AfterSpan(s, x, hasSlow, hasError, isSampled))
  {
    var s' := AfterSpan(s, x, hasSlow, hasError, isSampled);
    if Decide(s.Marks(), x, hasSlow, hasError, isSampled).2 == Cache {
      var s1 := s.(pending := s.pending + [x], parked := s.parked + [x]);
      assert DecideStep(s, s1, x, hasSlow, hasError, isSampled);
      var i := |s.pending|;
      assert s1.pending[..i] + s1.pending[i + 1..] == s.pending;
      assert WriteStep(s1, s', i);
      StepLeads(s, wait, s1);
      StepLeads(s1, wait, s');
      LeadsOn(s, wait, s1, s');
    } else {
      assert DecideStep(s, s', x, hasSlow, hasError, isSampled);
      StepLeads(s, wait, s');
    }
  }

  datatype Which = SlowOnes | ErrorOnes | NormalOnes

  function WithHeld(s: System, which: Which, held: Held): System {
    match which
    case SlowOnes => s.(slow := s.slow.(held := held))
    case ErrorOnes => s.(error := s.error.(held := held))
    case NormalOnes => s.(normal := s.normal.(held := held))
  }

  function HeldBy(s: System, which: Which): Held {
    match which
    case SlowOnes => s.slow.held
    case ErrorOnes => s.error.held
    case NormalOnes => s.normal.held
  }

  function AfterReport(s: System, which: Which, ids: seq<Key>): System {
    WithHeld(s, which, RefreshedAll(HeldBy(s, which), ids))
  }

  lemma {:induction false} ReportThen(s: System, wait: nat, which: Which, ids: seq<Key>, s': System)
    requires Leads(AfterReport(s, which, ids), wait, s')
    ensures Leads(s, wait, s')
    decreases |ids|
  {
    if ids == [] {
      assert AfterReport(s, which, ids) == s;
    } else {
      var s1 := WithHeld(s, which, Refreshed(HeldBy(s, which), ids[0]));
      assert RefreshStep(s, s1, ids[0]);
      assert AfterReport(s1, which, ids[1..]) == AfterReport(s, which, ids);
      ReportThen(s1, wait, which, ids[1..], s');
      StepLeads(s, wait, s1);
      LeadsOn(s, wait, s1, s');
    }
  }

  // The answer to a report, with the ids sampled elsewhere for the three samplers, is a run of
  // refresh steps.
  lemma ReportIsRefreshSteps(s: System, wait: nat, slowIds: seq<Key>, errorIds: seq<Key>, normalIds: seq<Key>)
    ensures Leads(s, wait, AfterReport(AfterReport(AfterReport(s, SlowOnes, slowIds), ErrorOnes, errorIds), NormalOnes,
                                       normalIds))
  {
    var s1 := AfterReport(s, SlowOnes, slowIds);
    var s2 := AfterReport(s1, ErrorOnes, errorIds);
    var s3 := AfterReport(s2, NormalOnes, normalIds);
    LeadsNowhere(s3, wait);
    ReportThen(s2, wait, NormalOnes, normalIds, s3);
    ReportThen(s1, wait, ErrorOnes, errorIds, s3);
    ReportThen(s, wait, SlowOnes, slowIds, s3);
  }
}
