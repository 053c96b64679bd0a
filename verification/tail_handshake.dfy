// The handshake between the threads that decide spans, the thread that receives ids sampled
// elsewhere, and the tick that matches parked spans with sampled ids.
module TailHandshake {
  import opened Runs
  import opened TimeWheel
  import opened WheelWindows
  import opened Draining
  import opened TailbaseSampling

  // ---------------------------------------------------------------- one sampler over time

  // What a sampler holds, and what its cleanSampledIds returned, call by call.
  datatype Marker = Marker(held: Held, log: seq<seq<Key>>)

  ghost predicate MarkerStep(m: Marker, wait: nat, m': Marker) {
    || m' == m
    || (exists id :: m' == m.(held := Refreshed(m.held, id)))
    || (exists id :: m' == m.(held := Notified(m.held, id)))
    || CleanStep(m, wait, m')
  }

  ghost predicate CleanStep(m: Marker, wait: nat, m': Marker) {
    && m'.held == Cleaned(m.held, wait)
    && |m'.log| == |m.log| + 1 && m'.log[..|m.log|] == m.log
    && Lists(m'.log[|m.log|], Returned(m.held, wait))
  }

  // Call u is the first in a row of calls to return the id.
  predicate FirstReturn(log: seq<seq<Key>>, id: Key, u: nat) {
    u < |log| && id in log[u] && (u == 0 || id !in log[u - 1])
  }

  ghost predicate MarkerInv(m: Marker) {
    var n := |m.log|;
    && (forall id :: id in m.held && m.held[id] == 1 ==> 0 < n && id in m.log[n - 1])
    && (forall id :: 0 < n && FirstReturn(m.log, id, n - 1) ==> id in m.held && m.held[id] <= 1)
    && (forall id, u: nat :: FirstReturn(m.log, id, u) && u + 1 < n ==> id in m.log[u + 1])
  }

  lemma MarkerStepKeepsInv(m: Marker, wait: nat, m': Marker)
    requires MarkerInv(m) && MarkerStep(m, wait, m') && 2 <= wait
    ensures MarkerInv(m')
  {
    if CleanStep(m, wait, m') {
      var n := |m.log|;
      forall u | 0 <= u < n ensures m'.log[u] == m.log[u] {
        assert m'.log[..n][u] == m'.log[u];
      }
      forall id | FirstReturn(m'.log, id, n) ensures id in m'.held && m'.held[id] <= 1 {
        assert id in Returned(m.held, wait);
      }
      forall id, u: nat | FirstReturn(m'.log, id, u) && u + 1 < n + 1 ensures id in m'.log[u + 1] {
        assert FirstReturn(m.log, id, u);
        if u == n - 1 {
          assert id in Returned(m.held, wait);
        }
      }
      forall id | id in m'.held && m'.held[id] == 1 ensures id in m'.log[n] {
        assert id in Returned(m.held, wait);
      }
    }
  }

  // What is known of an id that the sampler did not hold when it had returned `from` times.
  ghost predicate SinceInv(m: Marker, id: Key, from: nat) {
    var n := |m.log|;
    && from <= n
    && ((forall u :: from <= u < n ==> id !in m.log[u]) ==> id in m.held ==> m.held[id] == 0)
    && (forall u: nat :: FirstSince(m.log, id, from, u) ==>
          if u + 1 < n then id in m.log[u + 1] else id in m.held && m.held[id] <= 1)
  }

  // Call u is the first one from call `from` on to return the id.
  predicate FirstSince(log: seq<seq<Key>>, id: Key, from: nat, u: nat) {
    from <= u < |log| && id in log[u] && forall j :: from <= j < u ==> id !in log[j]
  }

  lemma MarkerStepKeepsSince(m: Marker, wait: nat, m': Marker, id: Key, from: nat)
    requires SinceInv(m, id, from) && MarkerStep(m, wait, m') && 2 <= wait
    ensures SinceInv(m', id, from)
  {
    if CleanStep(m, wait, m') {
      var n := |m.log|;
      forall u | 0 <= u < n ensures m'.log[u] == m.log[u] {
        assert m'.log[..n][u] == m'.log[u];
      }
      forall u: nat | FirstSince(m'.log, id, from, u)
        ensures if u + 1 < n + 1 then id in m'.log[u + 1] else id in m'.held && m'.held[id] <= 1
      {
        if u < n {
          assert FirstSince(m.log, id, from, u);
          if u + 1 == n {
            assert id in Returned(m.held, wait);
          }
        } else {
          assert id in Returned(m.held, wait);
        }
      }
      if forall u :: from <= u < n + 1 ==> id !in m'.log[u] {
        assert forall u :: from <= u < n ==> id !in m.log[u];
        assert id !in Returned(m.held, wait);
      }
    }
  }

  // ---------------------------------------------------------------- the whole system

  datatype Phase = Idle | Drained | ErrorCleaned | SlowCleaned | NormalCleaned

  datatype System = System(
    error: Marker, slow: Marker, normal: Marker,
    pending: seq<TraceLabels>,                    // answered Cache, CacheTrace not yet called
    cache: map<Key, seq<TraceLabels>>,            // the write cache
    phase: Phase,                                 // how far the tick under way has come
    drains: seq<map<Key, seq<TraceLabels>>>,      // what GetAndReset returned, tick by tick
    wheel: Wheel<TraceLabels>,
    ticks: nat,                                   // finished ticks
    parked: seq<TraceLabels>,                     // all spans answered Cache so far
    direct: seq<TraceLabels>,                     // spans stored on the answer itself
    outs: seq<seq<TraceLabels>>                   // spans stored by each finished tick
  ) {
    function Marks(): Marks {
      TailbaseSampling.Marks(error.held, slow.held, normal.held)
    }

    function WithMarks(m: Marks): System {
      this.(error := error.(held := m.error), slow := slow.(held := m.slow), normal := normal.(held := m.normal))
    }

    // The ids looked up by tick t, in the order of the three look-ups.
    function Picks(t: nat): seq<Key>
      requires t < |error.log| && t < |slow.log| && t < |normal.log|
    {
      error.log[t] + slow.log[t] + normal.log[t]
    }

    // The ticks finished so far, as the wheel saw them.
    function Run(): seq<Tick<TraceLabels>>
      requires ticks <= |drains| && ticks <= |error.log| && ticks <= |slow.log| && ticks <= |normal.log|
    {
      seq(ticks, t requires 0 <= t < ticks => Tick(drains[t], Picks(t)))
    }

    // Everything handed to storeTrace.
    function Stored(): seq<TraceLabels> {
      direct + Flatten(outs)
    }

    ghost predicate Fresh(x: TraceLabels) {
      forall y :: y in parked || y in direct ==> y.uid != x.uid
    }
  }

  ghost predicate Init(s: System, wait: nat) {
    s == System(Marker(map[], []), Marker(map[], []), Marker(map[], []), [], map[], Idle, [], NewWheel(wait), 0, [], [],
                [])
  }

  // A span is decided: GetSampleResult reaches TailbaseSamplers.Sample, and a stored answer is
  // acted on.
  ghost predicate DecideStep(s: System, s': System, x: TraceLabels, hasSlow: bool, hasError: bool, isSampled: bool) {
    && s.Fresh(x)
    && var (marks, labelled, result) := Decide(s.Marks(), x, hasSlow, hasError, isSampled);
       if result == Cache then s' == s.(pending := s.pending + [x], parked := s.parked + [x])
       else s' == s.WithMarks(marks).(direct := s.direct + [labelled])
  }

  // CacheTrace
  ghost predicate WriteStep(s: System, s': System, i: nat) {
    && i < |s.pending|
    && s' == s.(pending := s.pending[..i] + s.pending[i + 1..],
                cache := Written(s.cache, s.pending[i].traceId, s.pending[i]))
  }

  // One id of UpdateSampledTraceIds, in any of the three samplers.
  ghost predicate RefreshStep(s: System, s': System, id: Key) {
    || s' == s.(error := s.error.(held := Refreshed(s.error.held, id)))
    || s' == s.(slow := s.slow.(held := Refreshed(s.slow.held, id)))
    || s' == s.(normal := s.normal.(held := Refreshed(s.normal.held, id)))
  }

  // The tick: GetAndReset, the three cleanSampledIds, then everything on the tick's own wheel.
  ghost predicate TickStep(s: System, wait: nat, s': System) {
    match s.phase
    case Idle => s' == s.(drains := s.drains + [s.cache], cache := map[], phase := Drained)
    case Drained => CleanStep(s.error, wait, s'.error) && s' == s.(error := s'.error, phase := ErrorCleaned)
    case ErrorCleaned => CleanStep(s.slow, wait, s'.slow) && s' == s.(slow := s'.slow, phase := SlowCleaned)
    case SlowCleaned => CleanStep(s.normal, wait, s'.normal) && s' == s.(normal := s'.normal, phase := NormalCleaned)
    case NormalCleaned => FinishStep(s, s')
  }

  ghost predicate FinishStep(s: System, s': System) {
    && s.ticks < |s.drains| && s.ticks < |s.error.log| && s.ticks < |s.slow.log| && s.ticks < |s.normal.log|
    && |s'.outs| == |s.outs| + 1 && s'.outs[..|s.outs|] == s.outs
    && Ticked(s.wheel, Tick(s.drains[s.ticks], s.Picks(s.ticks)), s'.wheel, s'.outs[|s.outs|])
    && s' == s.(wheel := s'.wheel, outs := s'.outs, ticks := s.ticks + 1, phase := Idle)
  }

  ghost predicate NextStep(s: System, wait: nat, s': System) {
    || (exists x, hasSlow, hasError, isSampled :: DecideStep(s, s', x, hasSlow, hasError, isSampled))
    || (exists i: nat :: WriteStep(s, s', i))
    || (exists id :: RefreshStep(s, s', id))
    || TickStep(s, wait, s')
  }

  // The states of a stretch of a run, under any interleaving.
  ghost predicate Linked(b: seq<System>, wait: nat) {
    b != [] && forall i: nat :: i < |b| - 1 ==> LinkedAt(b, wait, i)
  }

  ghost predicate LinkedAt(b: seq<System>, wait: nat, i: nat)
    requires i < |b| - 1
  {
    NextStep(b[i], wait, b[i + 1])
  }

  ghost predicate Leads(s: System, wait: nat, s': System) {
    exists b: seq<System> :: Linked(b, wait) && b[0] == s && b[|b| - 1] == s'
  }

  ghost predicate Reachable(s: System, wait: nat) {
    exists s0: System :: Init(s0, wait) && Leads(s0, wait, s)
  }

  lemma JoinLinked(b: seq<System>, c: seq<System>, wait: nat)
    requires Linked(b, wait) && Linked(c, wait) && b[|b| - 1] == c[0]
    ensures Linked(b + c[1..], wait)
  {
    var d := b + c[1..];
    forall i: nat | i < |d| - 1 ensures LinkedAt(d, wait, i) {
      if i < |b| - 1 {
        assert LinkedAt(b, wait, i);
      } else {
        assert LinkedAt(c, wait, i - (|b| - 1));
      }
    }
  }

  lemma LeadsOn(s: System, wait: nat, s1: System, s': System)
    requires Leads(s, wait, s1) && Leads(s1, wait, s')
    ensures Leads(s, wait, s')
  {
    var b: seq<System> :| Linked(b, wait) && b[0] == s && b[|b| - 1] == s1;
    var c: seq<System> :| Linked(c, wait) && c[0] == s1 && c[|c| - 1] == s';
    JoinLinked(b, c, wait);
    var d := b + c[1..];
    assert d[0] == s && d[|d| - 1] == s';
  }

  lemma StepLeads(s: System, wait: nat, s': System)
    requires NextStep(s, wait, s')
    ensures Leads(s, wait, s')
  {
    var b := [s, s'];
    assert LinkedAt(b, wait, 0);
    assert Linked(b, wait) && b[0] == s && b[|b| - 1] == s';
  }

  lemma LeadsNowhere(s: System, wait: nat)
    ensures Leads(s, wait, s)
  {
    assert Linked([s], wait);
  }

  // ---------------------------------------------------------------- invariants

  predicate Counters(s: System) {
    && s.ticks == |s.outs|
    && |s.drains| == s.ticks + (if s.phase.Idle? then 0 else 1)
    && |s.error.log| == s.ticks + (if s.phase.Idle? || s.phase.Drained? then 0 else 1)
    && |s.slow.log| == s.ticks + (if s.phase.SlowCleaned? || s.phase.NormalCleaned? then 1 else 0)
    && |s.normal.log| == s.ticks + (if s.phase.NormalCleaned? then 1 else 0)
  }

  function TraceOf(x: TraceLabels): Key {
    x.traceId
  }

  // Every parked span is in exactly one place on its way to the wheel, under its own trace id.
  ghost predicate SpanInv(s: System) {
    && (forall x ::
          multiset(s.parked)[x]
          == multiset(s.pending)[x] + CountIn(s.cache, x.traceId, x) + DrainedCount(s.drains, x.traceId, x))
    && KeyedMap(s.cache, TraceOf)
    && (forall t :: 0 <= t < |s.drains| ==> KeyedMap(s.drains[t], TraceOf))
  }

  // No uid was decided twice.
  ghost predicate UidInv(s: System) {
    && (forall i, j :: 0 <= i < j < |s.parked| ==> s.parked[i].uid != s.parked[j].uid)
    && (forall i, j :: 0 <= i < j < |s.direct| ==> s.direct[i].uid != s.direct[j].uid)
    && (forall x, y :: x in s.parked && y in s.direct ==> x.uid != y.uid)
  }

  ghost predicate WheelInv(s: System, wait: nat)
    requires Counters(s)
  {
    && Refines(s.wheel, wait, s.Run())
    && forall x :: multiset(Flatten(s.outs))[x] == multiset(PickedAll(wait, s.Run(), x.traceId))[x]
  }

  ghost predicate Inv(s: System, wait: nat) {
    && Counters(s) && SpanInv(s) && UidInv(s) && WheelInv(s, wait)
    && (2 <= wait ==> MarkerInv(s.error) && MarkerInv(s.slow) && MarkerInv(s.normal))
  }

  lemma DecideKeepsSpans(s: System, s': System, x: TraceLabels, hasSlow: bool, hasError: bool, isSampled: bool)
    requires SpanInv(s) && DecideStep(s, s', x, hasSlow, hasError, isSampled)
    ensures SpanInv(s')
  {
  }

  lemma DecideKeepsUids(s: System, s': System, x: TraceLabels, hasSlow: bool, hasError: bool, isSampled: bool)
    requires UidInv(s) && DecideStep(s, s', x, hasSlow, hasError, isSampled)
    ensures UidInv(s')
  {
    if s'.parked == s.parked + [x] {
      assert x in s'.parked;
    }
  }

  lemma WriteKeepsSpans(s: System, s': System, i: nat)
    requires SpanInv(s) && UidInv(s) && WriteStep(s, s', i)
    ensures SpanInv(s') && UidInv(s')
  {
    forall x ensures multiset(s'.parked)[x]
                  == multiset(s'.pending)[x] + CountIn(s'.cache, x.traceId, x) + DrainedCount(s'.drains, x.traceId, x) {
      WriteMovesOne(s, s', i, x);
    }
  }

  lemma WriteMovesOne(s: System, s': System, i: nat, x: TraceLabels)
    requires WriteStep(s, s', i)
    ensures multiset(s'.pending)[x] + CountIn(s'.cache, x.traceId, x)
            == multiset(s.pending)[x] + CountIn(s.cache, x.traceId, x)
  {
    assert s.pending == s.pending[..i] + [s.pending[i]] + s.pending[i + 1..];
  }

  lemma DrainKeepsSpans(s: System, wait: nat, s': System)
    requires SpanInv(s) && UidInv(s) && s.phase.Idle? && TickStep(s, wait, s')
    ensures SpanInv(s') && UidInv(s')
  {
    assert s'.drains[..|s.drains|] == s.drains;
  }

  lemma MarkersStep(s: System, wait: nat, s': System)
    requires NextStep(s, wait, s')
    ensures MarkerStep(s.error, wait, s'.error) && MarkerStep(s.slow, wait, s'.slow)
            && MarkerStep(s.normal, wait, s'.normal)
  {
    if x, hasSlow, hasError, isSampled :| DecideStep(s, s', x, hasSlow, hasError, isSampled) {
      var id := x.traceId;
      assert s.error.(held := Notified(s.error.held, id)).log == s.error.log;
    }
  }

  lemma RunGrows(s: System, s': System)
    requires Counters(s) && s.phase.NormalCleaned? && FinishStep(s, s')
    ensures Counters(s')
    ensures s'.Run() == s.Run() + [Tick(s.drains[s.ticks], s.Picks(s.ticks))]
  {
  }

  lemma FinishKeepsRefinement(s: System, wait: nat, s': System)
    requires Counters(s) && WheelInv(s, wait) && s.phase.NormalCleaned? && FinishStep(s, s')
    ensures Counters(s') && Refines(s'.wheel, wait, s'.Run())
  {
    RunGrows(s, s');
    TickKeepsRefines(s.wheel, wait, s.Run(), Tick(s.drains[s.ticks], s.Picks(s.ticks)), s'.wheel, s'.outs[|s.outs|]);
  }

  lemma FinishKeepsCounts(s: System, wait: nat, s': System, x: TraceLabels)
    requires Counters(s) && WheelInv(s, wait) && s.phase.NormalCleaned? && FinishStep(s, s')
    requires Counters(s') && Keyed(s'.Run(), TraceOf)
    ensures multiset(Flatten(s'.outs))[x] == multiset(PickedAll(wait, s'.Run(), x.traceId))[x]
  {
    RunGrows(s, s');
    var run := s'.Run();
    assert run[..|run| - 1] == s.Run();
    assert Flatten(s'.outs) == Flatten(s.outs) + s'.outs[|s.outs|];
    TickPicksWhatTheMapPicks(s.wheel, wait, run, s'.wheel, s'.outs[|s.outs|], TraceOf, x);
  }

  lemma FinishKeepsWheel(s: System, wait: nat, s': System)
    requires Inv(s, wait) && s.phase.NormalCleaned? && FinishStep(s, s')
    ensures Counters(s') && WheelInv(s', wait)
  {
    FinishKeepsRefinement(s, wait, s');
    RunIsKeyed(s'.drains, s'.Run(), TraceOf);
    forall x ensures multiset(Flatten(s'.outs))[x] == multiset(PickedAll(wait, s'.Run(), x.traceId))[x] {
      FinishKeepsCounts(s, wait, s', x);
    }
  }

  lemma TickKeepsCounters(s: System, wait: nat, s': System)
    requires Counters(s) && TickStep(s, wait, s')
    ensures Counters(s')
    ensures s'.ticks == s.ticks ==> s'.wheel == s.wheel && s'.outs == s.outs
    ensures s'.ticks != s.ticks ==> s.phase.NormalCleaned? && FinishStep(s, s')
  {
  }

  // The other steps touch none of what the tick counts by.
  predicate SameTicks(s: System, s': System) {
    && s'.phase == s.phase && s'.ticks == s.ticks && s'.drains == s.drains && s'.wheel == s.wheel && s'.outs == s.outs
    && s'.error.log == s.error.log && s'.slow.log == s.slow.log && s'.normal.log == s.normal.log
  }

  lemma OnlyTicksTick(s: System, wait: nat, s': System)
    requires NextStep(s, wait, s')
    ensures TickStep(s, wait, s') || SameTicks(s, s')
  {
    if x, hasSlow, hasError, isSampled :| DecideStep(s, s', x, hasSlow, hasError, isSampled) {
      assert SameTicks(s, s');
    } else if i: nat :| WriteStep(s, s', i) {
      assert SameTicks(s, s');
    } else if id :| RefreshStep(s, s', id) {
      assert SameTicks(s, s');
    }
  }

  lemma NextKeepsCounters(s: System, wait: nat, s': System)
    requires Counters(s) && NextStep(s, wait, s')
    ensures Counters(s')
    ensures s'.ticks == s.ticks ==> s'.wheel == s.wheel && s'.outs == s.outs
    ensures s'.ticks != s.ticks ==> s.phase.NormalCleaned? && FinishStep(s, s')
  {
    OnlyTicksTick(s, wait, s');
    if TickStep(s, wait, s') {
      TickKeepsCounters(s, wait, s');
    }
  }

  lemma HistoryGrows(s: System, wait: nat, s': System, t: nat)
    requires Counters(s) && NextStep(s, wait, s') && t < s.ticks <= s'.ticks && Counters(s')
    ensures s'.drains[t] == s.drains[t] && s'.Picks(t) == s.Picks(t)
  {
    MarkersStep(s, wait, s');
    DrainsGrow(s, wait, s', t);
    PicksGrow(s, wait, s', t);
  }

  lemma DrainsGrow(s: System, wait: nat, s': System, t: nat)
    requires NextStep(s, wait, s') && t < |s.drains|
    ensures t < |s'.drains| && s'.drains[t] == s.drains[t]
  {
  }

  lemma PicksGrow(s: System, wait: nat, s': System, t: nat)
    requires MarkerStep(s.error, wait, s'.error) && MarkerStep(s.slow, wait, s'.slow)
            && MarkerStep(s.normal, wait, s'.normal)
    requires t < |s.error.log| && t < |s.slow.log| && t < |s.normal.log|
    ensures t < |s'.error.log| && t < |s'.slow.log| && t < |s'.normal.log| && s'.Picks(t) == s.Picks(t)
  {
    LogGrows(s.error, wait, s'.error, t);
    LogGrows(s.slow, wait, s'.slow, t);
    LogGrows(s.normal, wait, s'.normal, t);
  }

  lemma OtherStepsKeepRun(s: System, wait: nat, s': System)
    requires Counters(s) && NextStep(s, wait, s') && s'.ticks == s.ticks && Counters(s')
    ensures s'.Run() == s.Run()
  {
    forall t | 0 <= t < s.ticks
      ensures s'.Run()[t] == s.Run()[t]
    {
      HistoryGrows(s, wait, s', t);
    }
  }

  lemma LogGrows(m: Marker, wait: nat, m': Marker, t: nat)
    requires MarkerStep(m, wait, m') && t < |m.log|
    ensures |m.log| <= |m'.log| && m'.log[t] == m.log[t]
  {
    if CleanStep(m, wait, m') {
      assert m'.log[..|m.log|][t] == m'.log[t];
    }
  }

  predicate SameSpans(s: System, s': System) {
    s'.parked == s.parked && s'.direct == s.direct && s'.pending == s.pending && s'.cache == s.cache
        && s'.drains == s.drains
  }

  lemma SameSpansKeepInv(s: System, s': System)
    requires SpanInv(s) && UidInv(s) && SameSpans(s, s')
    ensures SpanInv(s') && UidInv(s')
  {
  }

  // A step moves spans only by deciding, by writing and by draining.
  lemma SpansMove(s: System, wait: nat, s': System)
    requires NextStep(s, wait, s')
    ensures || SameSpans(s, s')
            || (s.phase.Idle? && TickStep(s, wait, s'))
            || (exists i: nat :: WriteStep(s, s', i))
            || (exists x, hasSlow, hasError, isSampled :: DecideStep(s, s', x, hasSlow, hasError, isSampled))
  {
  }

  lemma NextKeepsSpans(s: System, wait: nat, s': System)
    requires SpanInv(s) && UidInv(s) && NextStep(s, wait, s')
    ensures SpanInv(s') && UidInv(s')
  {
    SpansMove(s, wait, s');
    if SameSpans(s, s') {
      SameSpansKeepInv(s, s');
    } else if s.phase.Idle? && TickStep(s, wait, s') {
      DrainKeepsSpans(s, wait, s');
    } else if i: nat :| WriteStep(s, s', i) {
      WriteKeepsSpans(s, s', i);
    } else {
      var x, hasSlow, hasError, isSampled :| DecideStep(s, s', x, hasSlow, hasError, isSampled);
      DecideKeepsSpans(s, s', x, hasSlow, hasError, isSampled);
      DecideKeepsUids(s, s', x, hasSlow, hasError, isSampled);
    }
  }

  lemma NextKeepsWheel(s: System, wait: nat, s': System)
    requires Inv(s, wait) && NextStep(s, wait, s')
    ensures Counters(s') && WheelInv(s', wait)
  {
    NextKeepsCounters(s, wait, s');
    if s'.ticks == s.ticks {
      OtherStepsKeepRun(s, wait, s');
    } else {
      FinishKeepsWheel(s, wait, s');
    }
  }

  lemma NextKeepsInv(s: System, wait: nat, s': System)
    requires Inv(s, wait) && NextStep(s, wait, s')
    ensures Inv(s', wait)
  {
    NextKeepsSpans(s, wait, s');
    NextKeepsWheel(s, wait, s');
    if 2 <= wait {
      MarkersStep(s, wait, s');
      MarkerStepKeepsInv(s.error, wait, s'.error);
      MarkerStepKeepsInv(s.slow, wait, s'.slow);
      MarkerStepKeepsInv(s.normal, wait, s'.normal);
    }
  }

  lemma LinkedInv(b: seq<System>, wait: nat, i: nat)
    requires Linked(b, wait) && Init(b[0], wait) && i < |b|
    ensures Inv(b[i], wait)
  {
    InitInv(b[0], wait);
    forall j | 0 <= j < |b| - 1 && Inv(b[j], wait) ensures Inv(b[j + 1], wait) {
      assert LinkedAt(b, wait, j);
      NextKeepsInv(b[j], wait, b[j + 1]);
    }
    HoldsAlong(b, (s: System) => Inv(s, wait), i);
  }

  lemma ReachableInv(s: System, wait: nat)
    requires Reachable(s, wait)
    ensures Inv(s, wait)
  {
    var s0: System :| Init(s0, wait) && Leads(s0, wait, s);
    var b: seq<System> :| Linked(b, wait) && b[0] == s0 && b[|b| - 1] == s;
    LinkedInv(b, wait, |b| - 1);
  }

  lemma InitInv(s: System, wait: nat)
    requires Init(s, wait)
    ensures Inv(s, wait)
  {
    NewWheelRefines<TraceLabels>(wait);
    assert s.Run() == [];
  }

  // ---------------------------------------------------------------- a span is drained once

  // Where a drained span entered the wheel: once, at tick t.
  lemma DrainedIsFedOnce(s: System, wait: nat, x: TraceLabels, t: nat)
    requires Inv(s, wait) && DrainedBy(s, x, t)
    ensures FedOnceAt(s.Run(), x.traceId, x, t)
  {
    DrainedIsParkedOnce(s, x);
    FedOnceBy(s, x, t);
  }

  lemma FedOnceBy(s: System, x: TraceLabels, t: nat)
    requires Counters(s) && DrainedBy(s, x, t) && DrainedCount(s.drains, x.traceId, x) <= 1
    ensures FedOnceAt(s.Run(), x.traceId, x, t)
  {
    DrainedOnceIsFedOnce(s.drains, s.Run(), x.traceId, x, t);
  }

  lemma DrainedIsParkedOnce(s: System, x: TraceLabels)
    requires SpanInv(s) && UidInv(s)
    ensures DrainedCount(s.drains, x.traceId, x) <= multiset(s.parked)[x] <= 1
  {
    CountAtMostOne(s.parked, (y: TraceLabels) => y.uid, x);
  }

  // ---------------------------------------------------------------- never stored twice

  lemma TailStoredAtMostOnce(s: System, wait: nat, x: TraceLabels)
    requires Inv(s, wait)
    ensures multiset(Flatten(s.outs))[x] <= multiset(s.parked)[x] <= 1
  {
    DrainedIsParkedOnce(s, x);
    PickedIsDrained(s, wait, x);
  }

  lemma PickedIsDrained(s: System, wait: nat, x: TraceLabels)
    requires Counters(s)
    ensures multiset(PickedAll(wait, s.Run(), x.traceId))[x] <= DrainedCount(s.drains, x.traceId, x)
  {
    FragmentsConserved(wait, s.Run(), x.traceId);
    FedIsDrained(s.drains, s.Run(), x.traceId, x, s.ticks);
    DrainedPrefix(s.drains, x.traceId, x, s.ticks);
  }

  lemma CountTwice(xs: seq<TraceLabels>, i: nat, j: nat)
    requires i < j < |xs| && xs[i] == xs[j]
    ensures multiset(xs)[xs[i]] >= 2
  {
    assert xs == xs[..j] + [xs[j]] + xs[j + 1..];
    assert xs[..j][i] == xs[i] && xs[i] in xs[..j];
  }

  lemma TailStoredDiffer(s: System, wait: nat, i: nat, j: nat)
    requires Reachable(s, wait) && i < j < |Flatten(s.outs)|
    ensures Flatten(s.outs)[i].uid != Flatten(s.outs)[j].uid
  {
    var tail := Flatten(s.outs);
    if tail[i] == tail[j] {
      CountTwice(tail, i, j);
    }
    StoredByTickFacts(s, wait, tail[i], tail[j]);
  }

  lemma StoredByTickFacts(s: System, wait: nat, x: TraceLabels, y: TraceLabels)
    requires Reachable(s, wait) && x in Flatten(s.outs)
    ensures multiset(Flatten(s.outs))[x] == 1
    ensures y in Flatten(s.outs) && y.uid == x.uid ==> y == x
    ensures y in s.direct ==> y.uid != x.uid
  {
    ReachableInv(s, wait);
    TailStoredAtMostOnce(s, wait, x);
    TailStoredAtMostOnce(s, wait, y);
  }

  // Over every interleaving, no span is ever handed to storeTrace twice.
  lemma NeverStoredTwice(s: System, wait: nat, i: nat, j: nat)
    requires Reachable(s, wait) && i < j < |s.Stored()|
    ensures s.Stored()[i].uid != s.Stored()[j].uid
  {
    var d, tail := |s.direct|, Flatten(s.outs);
    if d <= i {
      TailStoredDiffer(s, wait, i - d, j - d);
    } else if d <= j {
      StoredByTickFacts(s, wait, tail[j - d], s.direct[i]);
    } else {
      ReachableInv(s, wait);
    }
  }

  // ---------------------------------------------------------------- exactly when a parked span is stored

  // The span was drained by tick t, which is finished.
  ghost predicate DrainedBy(s: System, x: TraceLabels, t: nat) {
    t < s.ticks && t < |s.drains| && x.traceId in s.drains[t] && x in s.drains[t][x.traceId]
  }

  ghost predicate LooksUp(s: System, id: Key, p: nat) {
    p < s.ticks && p < |s.error.log| && p < |s.slow.log| && p < |s.normal.log| && id in s.Picks(p)
  }

  // A parked span drained at tick t is stored, once, iff a finished tick looks its id up while it is
  // still on the wheel: no tick in between looked it up, and at no time `wait` ticks passed without
  // a span of the same trace being drained.
  lemma StoredIff(s: System, wait: nat, x: TraceLabels, t: nat)
    requires Reachable(s, wait) && DrainedBy(s, x, t)
    ensures Counters(s) && multiset(Flatten(s.outs))[x] <= 1
    ensures x in Flatten(s.outs) <==> LookedUpInTime(wait, s.Run(), x.traceId, t)
  {
    ReachableInv(s, wait);
    DrainedIsFedOnce(s, wait, x, t);
    PickedOnceIff(wait, s.Run(), x.traceId, x, t);
  }

  // ---------------------------------------------------------------- the handshake

  // Some sampler returns the id at tick u, and did not at tick u - 1.
  predicate FirstReturned(s: System, id: Key, u: nat) {
    FirstReturn(s.error.log, id, u) || FirstReturn(s.slow.log, id, u) || FirstReturn(s.normal.log, id, u)
  }

  // Such an id is looked up at tick u and, if the hold time allows, at tick u + 1 too.
  lemma LookedUpTwice(s: System, wait: nat, id: Key, u: nat)
    requires Reachable(s, wait) && u < s.ticks && FirstReturned(s, id, u)
    ensures LooksUp(s, id, u)
    ensures 2 <= wait && u + 1 < s.ticks ==> LooksUp(s, id, u + 1)
  {
    ReachableInv(s, wait);
    if 2 <= wait && u + 1 < s.ticks {
      assert FirstReturn(s.error.log, id, u) ==> id in s.error.log[u + 1];
      assert FirstReturn(s.slow.log, id, u) ==> id in s.slow.log[u + 1];
      assert FirstReturn(s.normal.log, id, u) ==> id in s.normal.log[u + 1];
    }
  }

  // A parked span on the wheel from tick t is stored if tick p, at most `wait` ticks later, looks
  // its id up.
  lemma LookUpStores(s: System, wait: nat, x: TraceLabels, t: nat, p: nat)
    requires Reachable(s, wait) && DrainedBy(s, x, t)
    requires t <= p <= t + wait && LooksUp(s, x.traceId, p)
    ensures multiset(Flatten(s.outs))[x] == 1
  {
    ReachableInv(s, wait);
    DrainedIsFedOnce(s, wait, x, t);
    assert s.Run()[p].picks == s.Picks(p);
    PickedWithinWait(wait, s.Run(), x.traceId, x, t, p);
  }

  // A span answered Cache and drained at tick t, whose id a sampler starts returning at tick u, is
  // stored exactly once when t <= u + 1 and u <= t + wait.
  lemma HandshakeStoresOnce(s: System, wait: nat, x: TraceLabels, t: nat, u: nat)
    requires Reachable(s, wait) && DrainedBy(s, x, t)
    requires u < s.ticks && FirstReturned(s, x.traceId, u)
    requires t <= u || (t == u + 1 && 2 <= wait)
    requires u <= t + wait
    ensures multiset(Flatten(s.outs))[x] == 1
  {
    LookedUpTwice(s, wait, x.traceId, u);
    LookUpStores(s, wait, x, t, if t <= u then u else t);
  }

  // ---------------------------------------------------------------- the race between deciding and writing

  ghost predicate SinceDecision(s0: System, s: System, id: Key) {
    && SinceInv(s.error, id, |s0.error.log|)
    && SinceInv(s.slow, id, |s0.slow.log|)
    && SinceInv(s.normal, id, |s0.normal.log|)
  }

  lemma SinceDecisionLinked(s0: System, b: seq<System>, wait: nat, id: Key, j: nat)
    requires Linked(b, wait) && 2 <= wait && j < |b|
    requires SinceDecision(s0, b[0], id)
    ensures SinceDecision(s0, b[j], id)
  {
    forall i | 0 <= i < |b| - 1 && SinceDecision(s0, b[i], id) ensures SinceDecision(s0, b[i + 1], id) {
      assert LinkedAt(b, wait, i);
      MarkersStep(b[i], wait, b[i + 1]);
      MarkerStepKeepsSince(b[i].error, wait, b[i + 1].error, id, |s0.error.log|);
      MarkerStepKeepsSince(b[i].slow, wait, b[i + 1].slow, id, |s0.slow.log|);
      MarkerStepKeepsSince(b[i].normal, wait, b[i + 1].normal, id, |s0.normal.log|);
    }
    HoldsAlong(b, (s: System) => SinceDecision(s0, s, id), j);
  }

  // Some sampler returns the id at tick u, for the first time since state s0.
  predicate FirstReturnedSince(s0: System, s: System, id: Key, u: nat) {
    || FirstSince(s.error.log, id, |s0.error.log|, u)
    || FirstSince(s.slow.log, id, |s0.slow.log|, u)
    || FirstSince(s.normal.log, id, |s0.normal.log|, u)
  }

  lemma LookedUpTwiceSince(s0: System, s: System, wait: nat, id: Key, u: nat)
    requires Reachable(s, wait) && SinceDecision(s0, s, id)
    requires u < s.ticks && FirstReturnedSince(s0, s, id, u)
    ensures LooksUp(s, id, u)
    ensures u + 1 < s.ticks ==> LooksUp(s, id, u + 1)
  {
    ReachableInv(s, wait);
  }

  // A span is decided in state s0 and answered Cache, and written before the next GetAndReset; tick u,
  // at most `wait` ticks after the drain, is the first to return its id afterwards, and may even be
  // the tick under way at the decision.
  ghost predicate Races(s0: System, s1: System, s: System, wait: nat, x: TraceLabels, hasSlow: bool, hasError: bool,
                        u: nat) {
    && Reachable(s0, wait) && Reachable(s, wait) && Leads(s1, wait, s)
    && DecideStep(s0, s1, x, hasSlow, hasError, false)
    && Decide(s0.Marks(), x, hasSlow, hasError, false).2 == Cache
    && DrainedBy(s, x, |s0.drains|)
    && u < s.ticks && u <= |s0.drains| + wait && FirstReturnedSince(s0, s, x.traceId, u)
  }

  // Such a span loses no race if ids are returned twice: it is stored exactly once.
  lemma PromptWriteIsNeverMissed(s0: System, s1: System, s: System, wait: nat, x: TraceLabels, hasSlow: bool,
                                 hasError: bool, u: nat)
    requires 2 <= wait && Races(s0, s1, s, wait, x, hasSlow, hasError, u)
    ensures multiset(Flatten(s.outs))[x] == 1
  {
    var b: seq<System> :| Linked(b, wait) && b[0] == s1 && b[|b| - 1] == s;
    SinceDecisionLinked(s0, b, wait, x.traceId, |b| - 1);
    LookedUpTwiceSince(s0, s, wait, x.traceId, u);
    assert |s0.drains| <= u + 1 by {
      ReachableInv(s0, wait);
    }
    LookUpStores(s, wait, x, |s0.drains|, if |s0.drains| <= u then u else u + 1);
  }
}
