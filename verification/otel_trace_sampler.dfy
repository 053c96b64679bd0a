// The sampler that parks whole OTLP trace fragments until their trace id is marked as sampled.
module OtelTraceSampling {
  import opened Runs
  import opened TimeWheel
  import opened WheelWindows
  import opened Draining

  // A fragment of a trace; uid stands for the identity of the Go object.
  datatype OtelTrace = OtelTrace(uid: nat, id: Key)

  type Marks = map<Key, nat>

  function Marked(marks: Marks, id: Key): Marks {
    marks[id := 0]
  }

  // What one Range over the marks keeps.
  function Aged(marks: Marks, expireTime: int): Marks {
    map id | id in marks && Older(marks, id) < expireTime :: Older(marks, id)
  }

  class OtelTraceSampler {
    var sampledIds: Marks
    const traceWriteCache: WriteableCache<OtelTrace>
    const traceReadCache: ReadableCache<OtelTrace>
    const traceIdExpireTime: int

    ghost predicate Valid()
      reads traceReadCache
    {
      traceReadCache.Valid()
    }

    constructor (traceIdExpireTime: int, delayTime: nat)
      ensures Valid() && sampledIds == map[] && this.traceIdExpireTime == traceIdExpireTime
      ensures traceWriteCache.cache == map[] && traceReadCache.State() == NewWheel(delayTime)
    {
      sampledIds := map[];
      traceWriteCache := new WriteableCache<OtelTrace>();
      traceReadCache := new ReadableCache<OtelTrace>(delayTime);
      this.traceIdExpireTime := traceIdExpireTime;
    }

    method SetSampledTraceId(traceId: Key)
      modifies this
      ensures sampledIds == Marked(old(sampledIds), traceId)
    {
      sampledIds := sampledIds[traceId := 0];
    }

    method Cache(id: Key, trace: OtelTrace)
      modifies traceWriteCache
      ensures traceWriteCache.cache == Written(old(traceWriteCache.cache), id, trace)
    {
      traceWriteCache.Write(id, trace);
    }

    // The ids are visited in the order the map is ranged over.
    method PickSampledTraces() returns (traces: seq<OtelTrace>, ghost ids: seq<Key>)
      requires Valid()
      modifies this, traceWriteCache, traceReadCache, traceReadCache.buckets
      ensures Valid() && traceWriteCache.cache == map[]
      ensures Lists(ids, old(sampledIds).Keys) && sampledIds == Aged(old(sampledIds), traceIdExpireTime)
      ensures Ticked(old(traceReadCache.State()), Tick(old(traceWriteCache.cache), ids), traceReadCache.State(), traces)
    {
      var toWriteTraces := traceWriteCache.GetAndReset();
      traceReadCache.Copy(toWriteTraces);
      ghost var copied := traceReadCache.State();
      traces, ids := PickMarked();
      ghost var picked := traceReadCache.State();
      traceReadCache.CleanExpireDatas();
      assert picked == copied.(cache := PickAll(copied.cache, ids).0);
      assert AfterCopy(copied, Tick(toWriteTraces, ids), traceReadCache.State(), traces);
    }

    // The Range over the marks.
    method PickMarked() returns (traces: seq<OtelTrace>, ghost ids: seq<Key>)
      modifies this, traceReadCache`cache
      ensures Lists(ids, old(sampledIds).Keys) && sampledIds == Aged(old(sampledIds), traceIdExpireTime)
      ensures (traceReadCache.cache, traces) == PickAll(old(traceReadCache.cache), ids)
    {
      traces, ids := [], [];
      var rest := sampledIds.Keys;
      ghost var was := sampledIds;
      while rest != {}
        invariant rest <= was.Keys
        invariant forall k :: k in sampledIds <==> k in was && (k in rest || was[k] + 1 < traceIdExpireTime)
        invariant forall k :: k in sampledIds ==> sampledIds[k] == if k in rest then was[k] else was[k] + 1
        invariant Lists(ids, was.Keys - rest)
        invariant (traceReadCache.cache, traces) == PickAll(old(traceReadCache.cache), ids)
      {
        var k :| k in rest;
        PickAllConcat(old(traceReadCache.cache), ids, [k]);
        var sampledTraces := traceReadCache.PickMatchData(k);
        traces := traces + sampledTraces;
        ids := ids + [k];
        var holdTime := sampledIds[k] + 1;
        if holdTime >= traceIdExpireTime {
          sampledIds := sampledIds - {k};
        } else {
          sampledIds := sampledIds[k := holdTime];
        }
        rest := rest - {k};
      }
    }
  }

  // ---------------------------------------------------------------- the system

  datatype System = System(
    marks: Marks,
    seen: seq<seq<Key>>,                       // the ids each Range visited, tick by tick
    cache: map<Key, seq<OtelTrace>>,           // the write cache
    draining: bool,                            // a tick is between GetAndReset and its Range
    drains: seq<map<Key, seq<OtelTrace>>>,     // what GetAndReset returned, tick by tick
    wheel: Wheel<OtelTrace>,
    cached: seq<OtelTrace>,                    // all fragments ever cached
    outs: seq<seq<OtelTrace>>                  // what each finished tick emitted
  ) {
    // The ticks finished so far.
    function Run(): seq<Tick<OtelTrace>>
      requires |seen| <= |drains|
    {
      seq(|seen|, t requires 0 <= t < |seen| => Tick(drains[t], seen[t]))
    }
  }

  ghost predicate Init(s: System, wait: nat) {
    s == System(map[], [], map[], false, [], NewWheel(wait), [], [])
  }

  ghost predicate CacheStep(s: System, s': System, x: OtelTrace) {
    && (forall y :: y in s.cached ==> y.uid != x.uid)
    && s' == s.(cached := s.cached + [x], cache := Written(s.cache, x.id, x))
  }

  ghost predicate DrainStep(s: System, s': System) {
    !s.draining && s' == s.(drains := s.drains + [s.cache], cache := map[], draining := true)
  }

  // Copy, the Range with its look-ups, and the clean-up.
  ghost predicate RangeStep(s: System, expireTime: int, s': System) {
    && s.draining && |s.seen| < |s.drains|
    && |s'.seen| == |s.seen| + 1 && s'.seen[..|s.seen|] == s.seen
    && |s'.outs| == |s.outs| + 1 && s'.outs[..|s.outs|] == s.outs
    && Lists(s'.seen[|s.seen|], s.marks.Keys)
    && Ticked(s.wheel, Tick(s.drains[|s.seen|], s'.seen[|s.seen|]), s'.wheel, s'.outs[|s.outs|])
    && s' == s.(marks := Aged(s.marks, expireTime), seen := s'.seen, wheel := s'.wheel, outs := s'.outs,
                draining := false)
  }

  ghost predicate NextStep(s: System, expireTime: int, s': System) {
    || (exists id :: s' == s.(marks := Marked(s.marks, id)))
    || (exists x :: CacheStep(s, s', x))
    || DrainStep(s, s')
    || RangeStep(s, expireTime, s')
  }

  ghost predicate LinkedAt(b: seq<System>, expireTime: int, i: nat)
    requires i < |b| - 1
  {
    NextStep(b[i], expireTime, b[i + 1])
  }

  ghost predicate IsRun(b: seq<System>, expireTime: int, wait: nat) {
    b != [] && Init(b[0], wait) && forall i: nat :: i < |b| - 1 ==> LinkedAt(b, expireTime, i)
  }

  // Some interleaving of marking, caching and ticking leads to s.
  ghost predicate Reachable(s: System, expireTime: int, wait: nat) {
    exists b: seq<System> :: IsRun(b, expireTime, wait) && b[|b| - 1] == s
  }

  // ---------------------------------------------------------------- how long a mark is seen

  function HoldTicks(expireTime: int): nat {
    if expireTime < 1 then 1 else expireTime
  }

  predicate FirstSeen(seen: seq<seq<Key>>, id: Key, u: nat) {
    u < |seen| && id in seen[u] && (u == 0 || id !in seen[u - 1])
  }

  ghost predicate SeenFor(s: System, hold: nat, id: Key, u: nat) {
    && (forall j: nat :: u <= j < |s.seen| && j < u + hold ==> id in s.seen[j])
    && (|s.seen| < u + hold ==> id in s.marks && s.marks[id] <= |s.seen| - u)
  }

  ghost predicate MarkInv(s: System, expireTime: int) {
    && (forall id :: id in s.marks && 0 < s.marks[id] ==> s.seen != [] && id in s.seen[|s.seen| - 1])
    && (forall id, u: nat :: FirstSeen(s.seen, id, u) ==> SeenFor(s, HoldTicks(expireTime), id, u))
  }

  lemma RangeKeepsMarks(s: System, expireTime: int, s': System)
    requires MarkInv(s, expireTime) && RangeStep(s, expireTime, s')
    ensures MarkInv(s', expireTime)
  {
    var n := |s.seen|;
    forall j | 0 <= j < n ensures s'.seen[j] == s.seen[j] {
      assert s'.seen[..n][j] == s'.seen[j];
    }
    forall id, u: nat | FirstSeen(s'.seen, id, u) ensures SeenFor(s', HoldTicks(expireTime), id, u) {
      if u < n {
        assert FirstSeen(s.seen, id, u);
        assert SeenFor(s, HoldTicks(expireTime), id, u);
      }
    }
  }

  // ---------------------------------------------------------------- invariants

  function IdOf(x: OtelTrace): Key {
    x.id
  }

  ghost predicate FragmentInv(s: System) {
    && (forall x :: multiset(s.cached)[x] == CountIn(s.cache, x.id, x) + DrainedCount(s.drains, x.id, x))
    && KeyedMap(s.cache, IdOf)
    && (forall t :: 0 <= t < |s.drains| ==> KeyedMap(s.drains[t], IdOf))
    && (forall i, j :: 0 <= i < j < |s.cached| ==> s.cached[i].uid != s.cached[j].uid)
  }

  predicate Counters(s: System) {
    |s.drains| == |s.seen| + (if s.draining then 1 else 0) && |s.outs| == |s.seen|
  }

  ghost predicate WheelInv(s: System, wait: nat)
    requires Counters(s)
  {
    && Refines(s.wheel, wait, s.Run())
    && forall x :: multiset(Flatten(s.outs))[x] == multiset(PickedAll(wait, s.Run(), x.id))[x]
  }

  ghost predicate Inv(s: System, expireTime: int, wait: nat) {
    Counters(s) && MarkInv(s, expireTime) && FragmentInv(s) && WheelInv(s, wait)
  }

  lemma CacheKeepsFragments(s: System, s': System, x: OtelTrace)
    requires FragmentInv(s) && CacheStep(s, s', x)
    ensures FragmentInv(s')
  {
    forall y ensures multiset(s'.cached)[y] == CountIn(s'.cache, y.id, y) + DrainedCount(s'.drains, y.id, y) {
      OneMoreWritten(s.cache, x, y);
    }
    WrittenIsKeyed(s.cache, x);
    FreshIsDistinct(s.cached, x);
  }

  lemma WrittenIsKeyed(cache: map<Key, seq<OtelTrace>>, x: OtelTrace)
    requires KeyedMap(cache, IdOf)
    ensures KeyedMap(Written(cache, x.id, x), IdOf)
  {
  }

  lemma FreshIsDistinct(cached: seq<OtelTrace>, x: OtelTrace)
    requires forall y :: y in cached ==> y.uid != x.uid
    requires forall i, j :: 0 <= i < j < |cached| ==> cached[i].uid != cached[j].uid
    ensures forall i, j :: 0 <= i < j < |cached + [x]| ==> (cached + [x])[i].uid != (cached + [x])[j].uid
  {
  }

  lemma OneMoreWritten(cache: map<Key, seq<OtelTrace>>, x: OtelTrace, y: OtelTrace)
    ensures CountIn(Written(cache, x.id, x), y.id, y) == CountIn(cache, y.id, y) + if x == y then 1 else 0
  {
  }

  lemma DrainKeepsFragments(s: System, s': System)
    requires FragmentInv(s) && DrainStep(s, s')
    ensures FragmentInv(s')
  {
    assert s'.drains[..|s.drains|] == s.drains;
  }

  lemma NextKeepsFragments(s: System, expireTime: int, s': System)
    requires FragmentInv(s) && NextStep(s, expireTime, s')
    ensures FragmentInv(s')
  {
    if x :| CacheStep(s, s', x) {
      CacheKeepsFragments(s, s', x);
    } else if DrainStep(s, s') {
      DrainKeepsFragments(s, s');
    } else {
      assert s'.cached == s.cached && s'.cache == s.cache && s'.drains == s.drains;
    }
  }

  lemma RangeGrowsRun(s: System, expireTime: int, s': System)
    requires Counters(s) && RangeStep(s, expireTime, s')
    ensures Counters(s') && s'.Run() == s.Run() + [Tick(s.drains[|s.seen|], s'.seen[|s.seen|])]
  {
    forall j | 0 <= j < |s.seen| ensures s'.seen[j] == s.seen[j] {
      assert s'.seen[..|s.seen|][j] == s'.seen[j];
    }
  }

  lemma RangeKeepsCounts(s: System, expireTime: int, wait: nat, s': System, x: OtelTrace)
    requires Counters(s) && WheelInv(s, wait) && RangeStep(s, expireTime, s')
    requires Counters(s') && Keyed(s'.Run(), IdOf)
    ensures multiset(Flatten(s'.outs))[x] == multiset(PickedAll(wait, s'.Run(), x.id))[x]
  {
    var n := |s.seen|;
    RangeGrowsRun(s, expireTime, s');
    assert s'.Run()[..n] == s.Run();
    assert Flatten(s'.outs) == Flatten(s.outs) + s'.outs[n];
    TickPicksWhatTheMapPicks(s.wheel, wait, s'.Run(), s'.wheel, s'.outs[n], IdOf, x);
  }

  lemma RangeKeepsWheel(s: System, expireTime: int, wait: nat, s': System)
    requires Counters(s) && FragmentInv(s) && WheelInv(s, wait) && RangeStep(s, expireTime, s')
    ensures Counters(s') && WheelInv(s', wait)
  {
    RangeGrowsRun(s, expireTime, s');
    TickKeepsRefines(s.wheel, wait, s.Run(), Tick(s.drains[|s.seen|], s'.seen[|s.seen|]), s'.wheel, s'.outs[|s.outs|]);
    RunIsKeyed(s'.drains, s'.Run(), IdOf);
    forall x ensures multiset(Flatten(s'.outs))[x] == multiset(PickedAll(wait, s'.Run(), x.id))[x] {
      RangeKeepsCounts(s, expireTime, wait, s', x);
    }
  }

  lemma NextKeepsInv(s: System, expireTime: int, wait: nat, s': System)
    requires Inv(s, expireTime, wait) && NextStep(s, expireTime, s')
    ensures Inv(s', expireTime, wait)
  {
    NextKeepsFragments(s, expireTime, s');
    if RangeStep(s, expireTime, s') {
      RangeKeepsMarks(s, expireTime, s');
      RangeKeepsWheel(s, expireTime, wait, s');
    } else {
      OtherStepsKeep(s, expireTime, wait, s');
    }
  }

  lemma OtherStepsKeep(s: System, expireTime: int, wait: nat, s': System)
    requires Counters(s) && MarkInv(s, expireTime) && WheelInv(s, wait)
    requires NextStep(s, expireTime, s') && !RangeStep(s, expireTime, s')
    ensures Counters(s') && MarkInv(s', expireTime) && WheelInv(s', wait)
  {
    assert s'.seen == s.seen && s'.wheel == s.wheel && s'.outs == s.outs;
    OtherStepsKeepMarks(s, expireTime, s');
    assert s'.Run() == s.Run();
  }

  lemma OtherStepsKeepMarks(s: System, expireTime: int, s': System)
    requires MarkInv(s, expireTime) && NextStep(s, expireTime, s') && s'.seen == s.seen
    ensures MarkInv(s', expireTime)
  {
    forall id, u: nat | FirstSeen(s'.seen, id, u) ensures SeenFor(s', HoldTicks(expireTime), id, u) {
      assert FirstSeen(s.seen, id, u);
    }
  }

  lemma RunInv(b: seq<System>, expireTime: int, wait: nat, i: nat)
    requires IsRun(b, expireTime, wait) && i < |b|
    ensures Inv(b[i], expireTime, wait)
  {
    NewWheelRefines<OtelTrace>(wait);
    assert b[0].Run() == [];
    forall j | 0 <= j < |b| - 1 && Inv(b[j], expireTime, wait) ensures Inv(b[j + 1], expireTime, wait) {
      assert LinkedAt(b, expireTime, j);
      NextKeepsInv(b[j], expireTime, wait, b[j + 1]);
    }
    HoldsAlong(b, (s: System) => Inv(s, expireTime, wait), i);
  }

  lemma ReachableInv(s: System, expireTime: int, wait: nat)
    requires Reachable(s, expireTime, wait)
    ensures Inv(s, expireTime, wait)
  {
    var b: seq<System> :| IsRun(b, expireTime, wait) && b[|b| - 1] == s;
    RunInv(b, expireTime, wait, |b| - 1);
  }

  // ---------------------------------------------------------------- conservation

  // What the last, unfinished tick has drained but not yet copied.
  ghost function InFlight(s: System, x: OtelTrace): nat
    requires Counters(s)
  {
    if s.draining then CountIn(s.drains[|s.seen|], x.id, x) else 0
  }

  lemma DrainedIsFedOrInFlight(s: System, x: OtelTrace)
    requires Counters(s)
    ensures DrainedCount(s.drains, x.id, x) == multiset(FedBetween(s.Run(), x.id, 0, |s.seen|))[x] + InFlight(s, x)
  {
    FedIsDrained(s.drains, s.Run(), x.id, x, |s.seen|);
    if s.draining {
      assert s.drains[..|s.seen|] == s.drains[..|s.drains| - 1];
    } else {
      assert s.drains[..|s.seen|] == s.drains;
    }
  }

  ghost function OnWheel(s: System, x: OtelTrace): nat {
    if x.id in s.wheel.cache then multiset(s.wheel.cache[x.id].datas)[x] else 0
  }

  // Every cached fragment is waiting in the write cache, being copied, held on the wheel, emitted or
  // expired: in exactly one of these places, and emitted at most once.
  lemma EveryFragmentIsSomewhere(s: System, expireTime: int, wait: nat, x: OtelTrace)
    requires Reachable(s, expireTime, wait)
    ensures Counters(s)
    ensures multiset(s.cached)[x] <= 1
    ensures multiset(s.cached)[x]
         == CountIn(s.cache, x.id, x) + InFlight(s, x) + OnWheel(s, x)
            + multiset(Flatten(s.outs))[x] + multiset(ExpiredAll(wait, s.Run(), x.id))[x]
  {
    ReachableInv(s, expireTime, wait);
    CachedOnce(s, x);
    DrainedIsFedOrInFlight(s, x);
    FragmentsConserved(wait, s.Run(), x.id);
    assert KeyRefines(s.wheel, wait, s.Run(), x.id);
    assert OnWheel(s, x) == multiset(Datas(SlotAt(wait, s.Run(), x.id)))[x];
  }

  // ---------------------------------------------------------------- the window

  ghost predicate DrainedBy(s: System, x: OtelTrace, t: nat) {
    t < |s.seen| && t < |s.drains| && x.id in s.drains[t] && x in s.drains[t][x.id]
  }

  lemma DrainedIsFedOnce(s: System, expireTime: int, wait: nat, x: OtelTrace, t: nat)
    requires Inv(s, expireTime, wait) && DrainedBy(s, x, t)
    ensures FedOnceAt(s.Run(), x.id, x, t)
  {
    CachedOnce(s, x);
    FedOnceBy(s, x, t);
  }

  lemma FedOnceBy(s: System, x: OtelTrace, t: nat)
    requires Counters(s) && DrainedBy(s, x, t) && DrainedCount(s.drains, x.id, x) <= 1
    ensures FedOnceAt(s.Run(), x.id, x, t)
  {
    DrainedOnceIsFedOnce(s.drains, s.Run(), x.id, x, t);
  }

  lemma CachedOnce(s: System, x: OtelTrace)
    requires FragmentInv(s)
    ensures DrainedCount(s.drains, x.id, x) <= multiset(s.cached)[x] <= 1
  {
    CountAtMostOne(s.cached, (y: OtelTrace) => y.uid, x);
  }

  // A fragment drained at tick t is emitted, once, iff a finished tick sees its mark while the
  // fragment is still on the wheel.
  lemma EmittedIff(s: System, expireTime: int, wait: nat, x: OtelTrace, t: nat)
    requires Reachable(s, expireTime, wait) && DrainedBy(s, x, t)
    ensures Counters(s) && multiset(Flatten(s.outs))[x] <= 1
    ensures x in Flatten(s.outs) <==> LookedUpInTime(wait, s.Run(), x.id, t)
  {
    ReachableInv(s, expireTime, wait);
    DrainedIsFedOnce(s, expireTime, wait, x, t);
    PickedOnceIff(wait, s.Run(), x.id, x, t);
  }

  lemma SeenWhileHeld(s: System, expireTime: int, wait: nat, id: Key, u: nat, j: nat)
    requires Reachable(s, expireTime, wait) && FirstSeen(s.seen, id, u)
    requires u <= j < |s.seen| && j < u + HoldTicks(expireTime)
    ensures id in s.seen[j]
  {
    ReachableInv(s, expireTime, wait);
    assert SeenFor(s, HoldTicks(expireTime), id, u);
  }

  // A fragment drained at tick t, whose mark is first seen at tick u, is emitted exactly once if it
  // is drained before the mark's hold time is over and the mark comes at most `wait` ticks later.
  lemma EmittedWithinWindow(s: System, expireTime: int, wait: nat, x: OtelTrace, t: nat, u: nat)
    requires Reachable(s, expireTime, wait) && DrainedBy(s, x, t) && FirstSeen(s.seen, x.id, u)
    requires t <= u + HoldTicks(expireTime) - 1 && u <= t + wait
    ensures multiset(Flatten(s.outs))[x] == 1
  {
    var p := if t <= u then u else t;
    SeenWhileHeld(s, expireTime, wait, x.id, u, p);
    ReachableInv(s, expireTime, wait);
    DrainedIsFedOnce(s, expireTime, wait, x, t);
    assert s.Run()[p].picks == s.seen[p];
    PickedWithinWait(wait, s.Run(), x.id, x, t, p);
  }
}
