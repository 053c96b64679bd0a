// For which hold times the race between deciding a span and writing it is never lost.
module TailRace {
  import opened Runs
  import opened TimeWheel
  import opened WheelWindows
  import opened TailbaseSampling
  import opened TailHandshake
  import opened BackSampling

  // ---------------------------------------------------------------- gone for good

  // The finished ticks of a state are the first ones of any later state.
  ghost predicate Extends(s0: System, s: System)
    requires Counters(s0)
  {
    Counters(s) && s0.ticks <= s.ticks && s.Run()[..s0.ticks] == s0.Run() && |s0.drains| <= |s.drains|
    && s.drains[..|s0.drains|] == s0.drains
  }

  lemma StepExtends(s0: System, s: System, wait: nat, s': System)
    requires Counters(s0) && Extends(s0, s) && NextStep(s, wait, s')
    ensures Extends(s0, s')
  {
    NextKeepsCounters(s, wait, s');
    forall t | 0 <= t < s0.ticks ensures s'.Run()[t] == s0.Run()[t] {
      HistoryGrows(s, wait, s', t);
      assert s.Run()[t] == s.Run()[..s0.ticks][t];
    }
    forall t | 0 <= t < |s0.drains| ensures s'.drains[t] == s0.drains[t] {
      DrainsGrow(s, wait, s', t);
      assert s.drains[t] == s.drains[..|s0.drains|][t];
    }
  }

  lemma LeadsExtends(s0: System, wait: nat, s: System)
    requires Counters(s0) && Leads(s0, wait, s)
    ensures Extends(s0, s)
  {
    var b: seq<System> :| Linked(b, wait) && b[0] == s0 && b[|b| - 1] == s;
    forall j | 0 <= j < |b| - 1 && Extends(s0, b[j]) ensures Extends(s0, b[j + 1]) {
      assert LinkedAt(b, wait, j);
      StepExtends(s0, b[j], wait, b[j + 1]);
    }
    HoldsAlong(b, (s: System) requires Counters(s0) => Extends(s0, s), |b| - 1);
  }

  lemma ExpiredIffGone(s: System, wait: nat, x: TraceLabels, t: nat)
    requires Reachable(s, wait) && DrainedBy(s, x, t)
    ensures Counters(s)
    ensures multiset(Flatten(s.outs))[x] + multiset(ExpiredAll(wait, s.Run(), x.traceId))[x] <= 1
    ensures x.traceId !in s.wheel.cache ==>
              multiset(Flatten(s.outs))[x] + multiset(ExpiredAll(wait, s.Run(), x.traceId))[x] == 1
  {
    ReachableInv(s, wait);
    DrainedIsFedOnce(s, wait, x, t);
    FedCount(s.Run(), x.traceId, x, t, s.ticks);
    FragmentsConserved(wait, s.Run(), x.traceId);
    assert KeyRefines(s.wheel, wait, s.Run(), x.traceId);
  }

  // A drained span that is neither stored nor on the wheel is never stored, whatever happens later.
  lemma GoneForGood(s: System, wait: nat, s': System, x: TraceLabels, t: nat)
    requires Reachable(s, wait) && Leads(s, wait, s') && DrainedBy(s, x, t)
    requires x !in Flatten(s.outs) && x.traceId !in s.wheel.cache
    ensures x !in Flatten(s'.outs)
  {
    ExpiredIffGone(s, wait, x, t);
    LeadsExtends(s, wait, s');
    var s0: System :| Init(s0, wait) && Leads(s0, wait, s);
    LeadsOn(s0, wait, s, s');
    assert s'.drains[t] == s'.drains[..|s.drains|][t];
    ExpiredIffGone(s', wait, x, t);
    ExpiredGrows(wait, s'.Run(), x.traceId, x, s.ticks);
  }

  // ---------------------------------------------------------------- a hold time of zero

  // A sampler that holds ids for no tick returns none.
  lemma NothingReturned(b: seq<System>, i: nat)
    requires Linked(b, 0) && Init(b[0], 0) && i < |b|
    ensures NoneReturns(b[i])
  {
    forall j | 0 <= j < |b| - 1 && NoneReturns(b[j]) ensures NoneReturns(b[j + 1]) {
      assert LinkedAt(b, 0, j);
      MarkersStep(b[j], 0, b[j + 1]);
      StillNothing(b[j].error, b[j + 1].error);
      StillNothing(b[j].slow, b[j + 1].slow);
      StillNothing(b[j].normal, b[j + 1].normal);
    }
    HoldsAlong(b, NoneReturns, i);
  }

  ghost predicate NoneReturns(s: System) {
    ReturnsNothing(s.error.log) && ReturnsNothing(s.slow.log) && ReturnsNothing(s.normal.log)
  }

  ghost predicate ReturnsNothing(log: seq<seq<Key>>) {
    forall u, id :: 0 <= u < |log| ==> id !in log[u]
  }

  lemma StillNothing(m: Marker, m': Marker)
    requires MarkerStep(m, 0, m') && ReturnsNothing(m.log)
    ensures ReturnsNothing(m'.log)
  {
    if CleanStep(m, 0, m') {
      var n := |m.log|;
      forall u | 0 <= u < n ensures m'.log[u] == m.log[u] {
        assert m'.log[..n][u] == m.log[u];
      }
    }
  }

  lemma NoRaceAtZero(s0: System, s: System, id: Key, u: nat)
    requires Reachable(s, 0)
    ensures !FirstReturnedSince(s0, s, id, u)
  {
    var first: System :| Init(first, 0) && Leads(first, 0, s);
    var b: seq<System> :| Linked(b, 0) && b[0] == first && b[|b| - 1] == s;
    NothingReturned(b, |b| - 1);
  }

  // ---------------------------------------------------------------- a hold time of one

  const NONE: Wheel<TraceLabels> := Wheel(map[], [[], []], 1, 0)

  function Holding(x: TraceLabels): Wheel<TraceLabels> {
    Wheel(map[x.traceId := CacheData([x], 0)], [[x.traceId], []], 0, 1)
  }

  ghost predicate NoIds(h: Held) {
    forall id :: id !in h
  }

  // The states of the run; h holds no ids.
  function Start(h: Held): System {
    var m := Marker(h, []);
    System(m, m, m, [], map[], Idle, [], NewWheel(1), 0, [], [], [])
  }

  // The first tick has drained the write cache when the span is decided.
  function Deciding(h: Held): System {
    Start(h).(drains := [map[]], phase := Drained)
  }

  function Decided(h: Held, x: TraceLabels): System {
    Deciding(h).(pending := [x], parked := [x])
  }

  // Its id arrives, and the tick returns it for the only time.
  function Sampled(h: Held, x: TraceLabels): System {
    Decided(h, x).(error := Marker(h[x.traceId := 0], []))
  }

  function Returning(h: Held, x: TraceLabels): System {
    Decided(h, x).(error := Marker(h[x.traceId := 1], [[x.traceId]]), slow := Marker(h, [[]]),
                   normal := Marker(h, [[]]),
                   phase := NormalCleaned)
  }

  function Finished(h: Held, x: TraceLabels): System {
    Returning(h, x).(wheel := NONE, ticks := 1, outs := [[]], phase := Idle)
  }

  // The span is written in time for the second tick, which no longer looks it up.
  function InCache(h: Held, x: TraceLabels): System {
    Finished(h, x).(pending := [], cache := map[x.traceId := [x]])
  }

  function Missed(h: Held, x: TraceLabels): System {
    InCache(h, x).(cache := map[], drains := [map[], map[x.traceId := [x]]],
                   error := Marker(h, [[x.traceId], []]), slow := Marker(h, [[], []]), normal := Marker(h, [[], []]),
                   wheel := Holding(x), ticks := 2, outs := [[], []])
  }

  lemma ToSampled(h: Held, x: TraceLabels)
    requires NoIds(h)
    ensures DecideStep(Deciding(h), Decided(h, x), x, false, false, false)
    ensures Leads(Decided(h, x), 1, Sampled(h, x))
  {
    assert RefreshStep(Decided(h, x), Sampled(h, x), x.traceId);
    StepLeads(Decided(h, x), 1, Sampled(h, x));
  }

  // Cleaning no ids, an id just sampled, and an id returned once.
  lemma CleanNone(h: Held)
    requires NoIds(h)
    ensures Cleaned(h, 1) == h && Returned(h, 1) == {}
  {
  }

  lemma CleanFresh(h: Held, id: Key)
    requires NoIds(h)
    ensures Cleaned(h[id := 0], 1) == h[id := 1] && Returned(h[id := 0], 1) == {id}
  {
  }

  lemma CleanReturned(h: Held, id: Key)
    requires NoIds(h)
    ensures Cleaned(h[id := 1], 1) == h && Returned(h[id := 1], 1) == {}
  {
  }

  lemma ToReturning(h: Held, x: TraceLabels)
    requires NoIds(h)
    ensures Leads(Sampled(h, x), 1, Returning(h, x))
  {
    var s, s' := Sampled(h, x), Returning(h, x);
    var a := s.(error := s'.error, phase := ErrorCleaned);
    var b := a.(slow := s'.slow, phase := SlowCleaned);
    CleanNone(h);
    CleanFresh(h, x.traceId);
    assert a.error.log[..0] == [] && b.slow.log[..0] == [] && s'.normal.log[..0] == [];
    StepLeads(s, 1, a);
    StepLeads(a, 1, b);
    StepLeads(b, 1, s');
    LeadsOn(s, 1, a, b);
    LeadsOn(s, 1, b, s');
  }

  lemma FirstTickFindsNothing(id: Key)
    ensures Ticked(NewWheel(1), Tick(map[], [id]), NONE, [])
  {
    var copied: Wheel<TraceLabels> := Wheel(map[], [[], []], 0, 0);
    var none: map<Key, seq<TraceLabels>> := map[];
    assert Copied(NewWheel(1), none, copied);
    assert [id][1..] == [];
    assert PickAll(copied.cache, [id]) == PickAll(copied.cache, []);
    assert AfterCopy(copied, Tick(none, [id]), NONE, []);
  }

  lemma ToFinished(h: Held, x: TraceLabels)
    ensures Leads(Returning(h, x), 1, Finished(h, x))
  {
    FirstTickFindsNothing(x.traceId);
    assert Returning(h, x).Picks(0) == [x.traceId];
    assert Finished(h, x).outs[..0] == [];
    StepLeads(Returning(h, x), 1, Finished(h, x));
  }

  lemma ToInCache(h: Held, x: TraceLabels)
    ensures Leads(Finished(h, x), 1, InCache(h, x))
  {
    var s := Finished(h, x);
    assert s.pending[..0] + s.pending[1..] == [];
    assert [] + [x] == [x];
    assert WriteStep(s, InCache(h, x), 0);
    StepLeads(s, 1, InCache(h, x));
  }

  lemma SecondTickLooksNothingUp(x: TraceLabels)
    ensures Ticked(NONE, Tick(map[x.traceId := [x]], []), Holding(x), [])
  {
    var copied := Holding(x).(readIndex := 1);
    assert Copied(NONE, map[x.traceId := [x]], copied);
    assert !Due(copied, x.traceId);
    assert Expire(copied).cache == copied.cache;
    assert AfterCopy(copied, Tick(map[x.traceId := [x]], []), Holding(x), []);
  }

  lemma ToMissed(h: Held, x: TraceLabels)
    requires NoIds(h)
    ensures Leads(InCache(h, x), 1, Missed(h, x))
  {
    var s, none: seq<Key> := InCache(h, x), [];
    SecondTickLooksNothingUp(x);
    assert none + none + none == none;
    CleanNone(h);
    CleanReturned(h, x.traceId);
    TickIsFiveSteps(s, 1, none, none, none, Marks(h, h, h), Holding(x), [], []);
    assert AfterTick(s, 1, none, none, none, Holding(x), []) == Missed(h, x);
  }

  lemma FromTheStart() returns (h: Held)
    ensures NoIds(h) && Reachable(Deciding(h), 1)
  {
    h := map[];
    StepLeads(Start(h), 1, Deciding(h));
  }

  // The third tick expires it.
  function Gone(h: Held, x: TraceLabels): System {
    Missed(h, x).(drains := [map[], map[x.traceId := [x]], map[]],
                  error := Marker(h, [[x.traceId], [], []]), slow := Marker(h, [[], [], []]),
                  normal := Marker(h, [[], [], []]),
                  wheel := Wheel(map[], [[x.traceId], []], 1, 0), ticks := 3, outs := [[], [], []])
  }

  lemma ThirdTickExpires(x: TraceLabels)
    ensures Ticked(Holding(x), Tick(map[], []), Wheel(map[], [[x.traceId], []], 1, 0), [])
  {
    var none: map<Key, seq<TraceLabels>> := map[];
    var copied := Holding(x).(writeIndex := 0);
    assert Copied(Holding(x), none, copied);
    assert Due(copied, x.traceId);
    assert AfterCopy(copied, Tick(none, []), Wheel(map[], [[x.traceId], []], 1, 0), []);
  }

  lemma ToGone(h: Held, x: TraceLabels)
    requires NoIds(h)
    ensures Leads(Missed(h, x), 1, Gone(h, x))
  {
    var s, none: seq<Key> := Missed(h, x), [];
    ThirdTickExpires(x);
    assert none + none + none == none;
    CleanNone(h);
    TickIsFiveSteps(s, 1, none, none, none, Marks(h, h, h), Gone(h, x).wheel, [], []);
    assert AfterTick(s, 1, none, none, none, Gone(h, x).wheel, []) == Gone(h, x);
  }

  // With a hold time of one any span can be lost: its id is returned at the tick under way at the
  // decision and never again; the span, written in time for the next tick, expires at the third, and is
  // not stored in any later state.
  lemma RaceLost(x: TraceLabels) returns (s0: System, s1: System, s: System)
    ensures Races(s0, s1, s, 1, x, false, false, 0)
    ensures forall s' :: Leads(s, 1, s') ==> x !in Flatten(s'.outs)
  {
    var h := FromTheStart();
    s0, s1, s := Deciding(h), Decided(h, x), Gone(h, x);
    ToSampled(h, x);
    DecidedToMissed(h, x);
    DecidingToMissed(h, x);
    MissedToGone(h, x);
    GoneRaces(h, x);
    forall s' | Leads(s, 1, s') ensures x !in Flatten(s'.outs) {
      NothingOut(h, x);
      GoneForGood(s, 1, s', x, 1);
    }
  }

  lemma NothingOut(h: Held, x: TraceLabels)
    ensures Flatten(Gone(h, x).outs) == [] && x.traceId !in Gone(h, x).wheel.cache && DrainedBy(Gone(h, x), x, 1)
  {
    var outs := Gone(h, x).outs;
    var two := outs[..2];
    assert Flatten(two[..1]) == Flatten(two[..1][..0]) + [];
    assert Flatten(two) == Flatten(two[..1]) + [];
    assert Flatten(outs) == Flatten(two) + [];
  }

  lemma GoneRaces(h: Held, x: TraceLabels)
    ensures DrainedBy(Gone(h, x), x, |Deciding(h).drains|)
    ensures FirstReturnedSince(Deciding(h), Gone(h, x), x.traceId, 0)
  {
    assert FirstSince(Gone(h, x).error.log, x.traceId, 0, 0);
  }

  lemma MissedToGone(h: Held, x: TraceLabels)
    requires NoIds(h) && Leads(Decided(h, x), 1, Missed(h, x)) && Reachable(Missed(h, x), 1)
    ensures Leads(Decided(h, x), 1, Gone(h, x)) && Reachable(Gone(h, x), 1)
  {
    ToGone(h, x);
    LeadsOn(Decided(h, x), 1, Missed(h, x), Gone(h, x));
    var start: System :| Init(start, 1) && Leads(start, 1, Missed(h, x));
    LeadsOn(start, 1, Missed(h, x), Gone(h, x));
  }

  lemma DecidedToMissed(h: Held, x: TraceLabels)
    requires NoIds(h)
    ensures Leads(Decided(h, x), 1, Missed(h, x))
  {
    var s1 := Decided(h, x);
    ToSampled(h, x);
    ToReturning(h, x);
    ToFinished(h, x);
    ToInCache(h, x);
    ToMissed(h, x);
    LeadsOn(s1, 1, Sampled(h, x), Returning(h, x));
    LeadsOn(s1, 1, Returning(h, x), Finished(h, x));
    LeadsOn(s1, 1, Finished(h, x), InCache(h, x));
    LeadsOn(s1, 1, InCache(h, x), Missed(h, x));
  }

  lemma DecidingToMissed(h: Held, x: TraceLabels)
    requires NoIds(h) && Reachable(Deciding(h), 1)
    ensures Reachable(Missed(h, x), 1)
  {
    var start: System :| Init(start, 1) && Leads(start, 1, Deciding(h));
    ToSampled(h, x);
    StepLeads(Deciding(h), 1, Decided(h, x));
    DecidedToMissed(h, x);
    LeadsOn(start, 1, Deciding(h), Decided(h, x));
    LeadsOn(start, 1, Decided(h, x), Missed(h, x));
  }

  // ---------------------------------------------------------------- exactly

  ghost predicate NeverLost(wait: nat) {
    forall s0, s1, s, x, hasSlow, hasError, u ::
      Races(s0, s1, s, wait, x, hasSlow, hasError, u) ==> multiset(Flatten(s.outs))[x] == 1
  }

  // No race is ever lost, exactly for the hold times other than one.
  lemma NeverLostExactly(wait: nat)
    ensures NeverLost(wait) <==> wait != 1
  {
    if wait == 0 {
      forall s0: System, s: System, id, u: nat | Reachable(s, 0) ensures !FirstReturnedSince(s0, s, id, u) {
        NoRaceAtZero(s0, s, id, u);
      }
    } else if wait == 1 {
      var x := TraceLabels(0, Key("id"), false, 0);
      var s0, s1, s := RaceLost(x);
      LeadsNowhere(s, 1);
      assert multiset(Flatten(s.outs))[x] == 0;
    } else {
      forall s0, s1, s, x, hasSlow, hasError, u | Races(s0, s1, s, wait, x, hasSlow, hasError, u)
        ensures multiset(Flatten(s.outs))[x] == 1
      {
        PromptWriteIsNeverMissed(s0, s1, s, wait, x, hasSlow, hasError, u);
      }
    }
  }
}
