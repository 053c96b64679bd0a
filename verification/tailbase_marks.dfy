// What a decision marks and answers, case by case, how long a mark lasts, and what that means for the
// other spans of the trace.
module TailbaseMarks {
  import opened Runs
  import opened TimeWheel
  import opened WheelWindows
  import opened TailbaseSampling
  import opened TailHandshake

  // ---------------------------------------------------------------- one decision

  // A sampled span marks its trace as slow, as failed, as both, or else as normal, where it is not marked
  // so already; no other decision marks anything.
  lemma MarksExactly(m: Marks, trace: TraceLabels, hasSlow: bool, hasError: bool, isSampled: bool)
    ensures var m', id := Decide(m, trace, hasSlow, hasError, isSampled).0, trace.traceId;
            && m'.slow == (if isSampled && hasSlow && id !in m.slow then m.slow[id := 0] else m.slow)
            && m'.error == (if isSampled && hasError && id !in m.error then m.error[id := 0] else m.error)
            && m'.normal
               == (if isSampled && !hasSlow && !hasError && id !in m.normal then m.normal[id := 0] else m.normal)
  {
  }

  // Only a span that is not sampled and whose trace is not marked is parked; a sampled slow or failed one
  // is stored with its profile or log, and any span of a marked trace is stored.
  lemma AnswersExactly(m: Marks, trace: TraceLabels, hasSlow: bool, hasError: bool, isSampled: bool)
    ensures var result, id := Decide(m, trace, hasSlow, hasError, isSampled).2, trace.traceId;
            && (result == Cache <==> !isSampled && id !in m.slow && id !in m.error && id !in m.normal)
            && (result == TraceProfile <==> isSampled && hasSlow)
            && (result == Normal <==> isSampled && !hasSlow && !hasError)
            && (result == TraceLog <==> hasError && if isSampled then !hasSlow else id in m.error)
            && result != NoOp
  {
  }

  // The report type tells slow, normal, failed and both apart; other spans keep their labels.
  lemma LabelsExactly(m: Marks, trace: TraceLabels, hasSlow: bool, hasError: bool, isSampled: bool)
    ensures var labelled := Decide(m, trace, hasSlow, hasError, isSampled).1;
            && labelled.uid == trace.uid && labelled.traceId == trace.traceId
            && (!isSampled ==> labelled == trace)
            && (isSampled ==> labelled.isProfiled)
            && (isSampled && hasSlow && !hasError ==> labelled.reportType == 1)
            && (isSampled && !hasSlow && !hasError ==> labelled.reportType == 2)
            && (isSampled && !hasSlow && hasError ==> labelled.reportType == 3)
            && (isSampled && hasSlow && hasError ==> labelled.reportType == 4)
  {
  }

  // ---------------------------------------------------------------- how long a mark lasts

  // What happens to one sampler.
  datatype MarkEvent = Notice(id: Key) | Refresh(id: Key) | Clean

  function HeldAfter(held: Held, holdTime: nat, es: seq<MarkEvent>): Held {
    if es == [] then held
    else
      var before := HeldAfter(held, holdTime, es[..|es| - 1]);
      match es[|es| - 1]
      case Notice(id) => Notified(before, id)
      case Refresh(id) => Refreshed(before, id)
      case Clean => Cleaned(before, holdTime)
  }

  function Cleans(es: seq<MarkEvent>): nat {
    if es == [] then 0 else Cleans(es[..|es| - 1]) + if es[|es| - 1].Clean? then 1 else 0
  }

  // A mark made or refreshed has age 0; a mark already there keeps its age when noticed again.
  lemma MarkIsFresh(held: Held, id: Key)
    ensures id in Refreshed(held, id) && Refreshed(held, id)[id] == 0
    ensures id in Notified(held, id) && Notified(held, id)[id] == if id in held then held[id] else 0
  {
  }

  // A report's answer makes every id it names fresh and leaves the others as they were.
  lemma {:induction false} ReportRefreshes(held: Held, ids: seq<Key>, id: Key)
    ensures id in RefreshedAll(held, ids) <==> id in ids || id in held
    ensures id in RefreshedAll(held, ids) ==> RefreshedAll(held, ids)[id] == if id in ids then 0 else held[id]
    decreases |ids|
  {
    if ids != [] {
      ReportRefreshes(Refreshed(held, ids[0]), ids[1..], id);
    }
  }

  // A mark that is not heard of again is held for exactly `holdTime` clean-ups and returned by the first
  // two of them.
  lemma {:induction false} HeldExactly(held: Held, holdTime: nat, id: Key, es: seq<MarkEvent>)
    requires id in held && held[id] == 0 && Notice(id) !in es && Refresh(id) !in es
    ensures var now := HeldAfter(held, holdTime, es);
            && (id in now <==> Cleans(es) <= holdTime)
            && (id in now ==> now[id] == Cleans(es))
            && (id in Returned(now, holdTime) <==> Cleans(es) < holdTime && Cleans(es) < 2)
  {
    if es != [] {
      var n := |es| - 1;
      assert es == es[..n] + [es[n]];
      HeldExactly(held, holdTime, id, es[..n]);
    }
  }

  // What is neither held nor heard of is not returned.
  lemma {:induction false} OthersAreNotReturned(held: Held, holdTime: nat, id: Key, es: seq<MarkEvent>)
    requires id !in held && Notice(id) !in es && Refresh(id) !in es
    ensures id !in HeldAfter(held, holdTime, es) && id !in Returned(HeldAfter(held, holdTime, es), holdTime)
  {
    if es != [] {
      var n := |es| - 1;
      assert es == es[..n] + [es[n]];
      OthersAreNotReturned(held, holdTime, id, es[..n]);
    }
  }

  // ---------------------------------------------------------------- a sampled span in a run

  datatype Sampler = SlowOne | ErrorOne | NormalOne

  function MarkerOf(s: System, which: Sampler): Marker {
    match which
    case SlowOne => s.slow
    case ErrorOne => s.error
    case NormalOne => s.normal
  }

  // Which samplers a sampled span is for.
  predicate IsFor(which: Sampler, hasSlow: bool, hasError: bool) {
    match which
    case SlowOne => hasSlow
    case ErrorOne => hasError
    case NormalOne => !hasSlow && !hasError
  }

  // What is known of an id that the sampler began to hold after it had returned `from` times.
  ghost predicate MarkedSince(m: Marker, wait: nat, id: Key, from: nat) {
    var n := |m.log|;
    && from <= n
    && (n <= from + wait ==> id in m.held && m.held[id] <= n - from)
    && (from < n ==> id in m.log[from])
    && (from + 1 < n && 2 <= wait ==> id in m.log[from + 1])
  }

  lemma StepKeepsMarked(m: Marker, wait: nat, m': Marker, id: Key, from: nat)
    requires 1 <= wait && MarkedSince(m, wait, id, from) && MarkerStep(m, wait, m')
    ensures MarkedSince(m', wait, id, from)
  {
    if CleanStep(m, wait, m') {
      var n := |m.log|;
      forall u | 0 <= u < n ensures m'.log[u] == m.log[u] {
        assert m'.log[..n][u] == m'.log[u];
      }
      if n == from || (n == from + 1 && 2 <= wait) {
        assert id in Returned(m.held, wait);
      }
    }
  }

  lemma MarkedAlong(b: seq<System>, wait: nat, which: Sampler, id: Key, from: nat, i: nat)
    requires 1 <= wait && Linked(b, wait) && i < |b| && MarkedSince(MarkerOf(b[0], which), wait, id, from)
    ensures MarkedSince(MarkerOf(b[i], which), wait, id, from)
  {
    forall j | 0 <= j < |b| - 1 && MarkedSince(MarkerOf(b[j], which), wait, id, from)
      ensures MarkedSince(MarkerOf(b[j + 1], which), wait, id, from)
    {
      assert LinkedAt(b, wait, j);
      MarkersStep(b[j], wait, b[j + 1]);
      StepKeepsMarked(MarkerOf(b[j], which), wait, MarkerOf(b[j + 1], which), id, from);
    }
    HoldsAlong(b, (s: System) => MarkedSince(MarkerOf(s, which), wait, id, from), i);
  }

  // A sampled span is decided in state s0 and its trace was not yet marked by this sampler.
  ghost predicate Samples(s0: System, s1: System, x: TraceLabels, hasSlow: bool, hasError: bool, which: Sampler) {
    && DecideStep(s0, s1, x, hasSlow, hasError, true)
    && IsFor(which, hasSlow, hasError) && x.traceId !in MarkerOf(s0, which).held
  }

  // From then on the sampler's next clean-up returns the id, with a hold time of two or more the one after
  // it too, and the id is held for `wait` clean-ups.
  lemma SampledIsReturned(s0: System, s1: System, s: System, wait: nat, x: TraceLabels, hasSlow: bool, hasError: bool,
                          which: Sampler)
    requires 1 <= wait && Samples(s0, s1, x, hasSlow, hasError, which) && Leads(s1, wait, s)
    ensures MarkedSince(MarkerOf(s, which), wait, x.traceId, |MarkerOf(s0, which).log|)
  {
    MarksExactly(s0.Marks(), x, hasSlow, hasError, true);
    AnswersExactly(s0.Marks(), x, hasSlow, hasError, true);
    var b: seq<System> :| Linked(b, wait) && b[0] == s1 && b[|b| - 1] == s;
    MarkedAlong(b, wait, which, x.traceId, |MarkerOf(s0, which).log|, |b| - 1);
  }

  // So a parked span of its trace, drained at tick t, is stored exactly once if that clean-up is at most
  // `wait` ticks later, or one tick before.
  lemma SampledTraceIsStored(s0: System, s1: System, s: System, wait: nat, x: TraceLabels, hasSlow: bool,
                             hasError: bool, which: Sampler, y: TraceLabels, t: nat)
    requires 1 <= wait && Samples(s0, s1, x, hasSlow, hasError, which) && Leads(s1, wait, s) && Reachable(s, wait)
    requires y.traceId == x.traceId && DrainedBy(s, y, t)
    requires var u := |MarkerOf(s0, which).log|;
             u < s.ticks && u <= t + wait && (t <= u || (t == u + 1 && 2 <= wait))
    ensures multiset(Flatten(s.outs))[y] == 1
  {
    var u := |MarkerOf(s0, which).log|;
    SampledIsReturned(s0, s1, s, wait, x, hasSlow, hasError, which);
    ReturnedIsLookedUp(s, wait, which, y.traceId, if t <= u then u else t);
    LookUpStores(s, wait, y, t, if t <= u then u else t);
  }

  lemma ReturnedIsLookedUp(s: System, wait: nat, which: Sampler, id: Key, p: nat)
    requires Reachable(s, wait) && p < s.ticks
    ensures p < |MarkerOf(s, which).log|
    ensures id in MarkerOf(s, which).log[p] ==> LooksUp(s, id, p)
  {
    ReachableInv(s, wait);
  }

  // And until `wait` clean-ups have passed no span of the trace is parked.
  lemma SampledTraceIsNotParked(s0: System, s1: System, s: System, wait: nat, x: TraceLabels, hasSlow: bool,
                                hasError: bool, which: Sampler, y: TraceLabels, slow: bool, error: bool, sampled: bool,
                                s': System)
    requires 1 <= wait && Samples(s0, s1, x, hasSlow, hasError, which) && Leads(s1, wait, s)
    requires |MarkerOf(s, which).log| <= |MarkerOf(s0, which).log| + wait
    requires y.traceId == x.traceId && DecideStep(s, s', y, slow, error, sampled)
    ensures s'.parked == s.parked && |s'.direct| == |s.direct| + 1 && s'.direct[|s.direct|].uid == y.uid
  {
    SampledIsReturned(s0, s1, s, wait, x, hasSlow, hasError, which);
    AnswersExactly(s.Marks(), y, slow, error, sampled);
    LabelsExactly(s.Marks(), y, slow, error, sampled);
  }
}
