// The trace blocker: traces that go on for too long are blocked, idle ones are forgotten.
module TraceBlocking {

  // The hexadecimal form of a trace id; "" for the empty id.
  datatype TraceId = TraceId(text: string)

  datatype Config = Config(idleTTL: int, blockThreshold: int, blockedIdleTTL: int)

  datatype ConfigError =
    IdleNotPositive | ThresholdNotPositive | BlockedIdleNotPositive | BlockedIdleTooSmall | ThresholdTooSmall

  datatype Result = Ok | Err(error: ConfigError)

  function Validate(cfg: Config): (r: Result)
    ensures r == Ok <==> 0 < cfg.idleTTL && cfg.idleTTL < cfg.blockedIdleTTL && cfg.idleTTL < cfg.blockThreshold
  {
    if cfg.idleTTL <= 0 then Err(IdleNotPositive)
    else if cfg.blockThreshold <= 0 then Err(ThresholdNotPositive)
    else if cfg.blockedIdleTTL <= 0 then Err(BlockedIdleNotPositive)
    else if cfg.blockedIdleTTL <= cfg.idleTTL then Err(BlockedIdleTooSmall)
    else if cfg.blockThreshold <= cfg.idleTTL then Err(ThresholdTooSmall)
    else Ok
  }

  datatype TraceState = TraceState(firstSeen: int, lastSeen: int, isBlocked: bool)
  type Traces = map<TraceId, TraceState>

  // ---------------------------------------------------------------- the operations

  // shouldDrop: what is kept of the trace after a span, ...
  function Seen(cfg: Config, traces: Traces, id: TraceId, now: int): TraceState {
    if id !in traces then TraceState(now, now, false)
    else
      var s := traces[id];
      TraceState(s.firstSeen, now, s.isBlocked || now - s.firstSeen >= cfg.blockThreshold)
  }

  // ... the map with it, and the answer. Spans without a trace id are let through.
  function Noted(cfg: Config, traces: Traces, id: TraceId, now: int): Traces {
    if id.text == "" then traces else traces[id := Seen(cfg, traces, id, now)]
  }

  predicate Drops(cfg: Config, traces: Traces, id: TraceId, now: int) {
    id.text != "" && Seen(cfg, traces, id, now).isBlocked
  }

  predicate Idle(cfg: Config, s: TraceState, now: int) {
    now - s.lastSeen >= if s.isBlocked then cfg.blockedIdleTTL else cfg.idleTTL
  }

  // cleanExpired
  function Swept(cfg: Config, traces: Traces, now: int): Traces {
    map id | id in traces && !Idle(cfg, traces[id], now) :: traces[id]
  }

  // ---------------------------------------------------------------- runs

  datatype Event = Span(id: TraceId, now: int) | Sweep(now: int)

  function Step(cfg: Config, traces: Traces, e: Event): Traces {
    match e
    case Span(id, now) => Noted(cfg, traces, id, now)
    case Sweep(now) => Swept(cfg, traces, now)
  }

  function After(cfg: Config, events: seq<Event>): Traces {
    if events == [] then map[] else Step(cfg, After(cfg, events[..|events| - 1]), events[|events| - 1])
  }

  function Before(cfg: Config, events: seq<Event>, i: nat): Traces
    requires i <= |events|
  {
    After(cfg, events[..i])
  }

  ghost predicate Clocked(events: seq<Event>) {
    forall i, j :: 0 <= i < j < |events| ==> events[i].now <= events[j].now
  }

  predicate IsSpan(e: Event, id: TraceId) {
    e.Span? && e.id == id
  }

  lemma BeforeStep(cfg: Config, events: seq<Event>, i: nat)
    requires i < |events|
    ensures Before(cfg, events, i + 1) == Step(cfg, Before(cfg, events, i), events[i])
  {
    assert events[..i + 1][..i] == events[..i];
  }

  // In every reachable state a trace is blocked exactly when its last span came the threshold or more
  // after its first.
  ghost predicate BlockedRight(cfg: Config, traces: Traces, now: int) {
    forall id :: id in traces ==>
      var s := traces[id];
      s.firstSeen <= s.lastSeen <= now && (s.isBlocked <==> s.lastSeen - s.firstSeen >= cfg.blockThreshold)
  }

  lemma {:induction false} BlockedExactly(cfg: Config, events: seq<Event>, now: int)
    requires 0 < cfg.blockThreshold && Clocked(events)
    requires forall i :: 0 <= i < |events| ==> events[i].now <= now
    ensures BlockedRight(cfg, After(cfg, events), now)
  {
    if events != [] {
      var n := |events| - 1;
      BlockedExactly(cfg, events[..n], events[n].now);
    }
  }

  // ---------------------------------------------------------------- steady traces

  // Event j is the next span of the trace after its span at event i.
  ghost predicate Consecutive(events: seq<Event>, id: TraceId, i: nat, j: nat) {
    && i < j < |events| && IsSpan(events[i], id) && IsSpan(events[j], id)
    && forall m :: i < m < j ==> !IsSpan(events[m], id)
  }

  // From event a to event b the spans of the trace are always less than the idle time apart.
  ghost predicate Steady(cfg: Config, events: seq<Event>, id: TraceId, a: nat, b: nat) {
    forall i: nat, j: nat :: a <= i && j <= b && Consecutive(events, id, i, j)
        ==> events[j].now - events[i].now < cfg.idleTTL
  }

  // The last span of the trace from event a on and before event b.
  function LastSpan(events: seq<Event>, id: TraceId, a: nat, b: nat): (l: nat)
    requires a < b <= |events| && IsSpan(events[a], id)
    ensures a <= l < b && IsSpan(events[l], id)
    ensures forall m :: l < m < b ==> !IsSpan(events[m], id)
    decreases b - a
  {
    if IsSpan(events[b - 1], id) then b - 1 else LastSpan(events, id, a, b - 1)
  }

  lemma {:induction false} NextSpan(events: seq<Event>, id: TraceId, i: nat, b: nat) returns (j: nat)
    requires i < b < |events| && IsSpan(events[b], id)
    ensures i < j <= b && IsSpan(events[j], id) && forall m :: i < m < j ==> !IsSpan(events[m], id)
    decreases b - i
  {
    if IsSpan(events[i + 1], id) {
      j := i + 1;
    } else {
      j := NextSpan(events, id, i + 1, b);
    }
  }

  // Between two of its spans a steady trace is not idle long enough to be swept.
  lemma NotIdleBetween(cfg: Config, events: seq<Event>, id: TraceId, a: nat, i: nat, b: nat)
    requires Clocked(events) && a < i < b < |events| && IsSpan(events[a], id) && IsSpan(events[b], id)
    requires Steady(cfg, events, id, a, b)
    ensures events[i].now - events[LastSpan(events, id, a, i)].now < cfg.idleTTL || IsSpan(events[i], id)
  {
    if !IsSpan(events[i], id) {
      var l := LastSpan(events, id, a, i);
      var j := NextSpan(events, id, i, b);
      assert Consecutive(events, id, l, j);
      assert events[i].now <= events[j].now;
    }
  }

  lemma StepHolds(cfg: Config, traces: Traces, e: Event, id: TraceId)
    requires Validate(cfg) == Ok && id.text != "" && id in traces
    requires e.now - traces[id].lastSeen < cfg.idleTTL || IsSpan(e, id)
    ensures id in Step(cfg, traces, e)
    ensures Step(cfg, traces, e)[id].firstSeen == traces[id].firstSeen
    ensures Step(cfg, traces, e)[id].lastSeen == if IsSpan(e, id) then e.now else traces[id].lastSeen
  {
  }

  // What is held of a trace between its first span at event a and a later one at event b, whatever
  // else happens.
  lemma {:induction false} SteadyIsHeld(cfg: Config, events: seq<Event>, id: TraceId, a: nat, i: nat, b: nat)
    requires Validate(cfg) == Ok && Clocked(events) && a < i <= b < |events| && id.text != ""
    requires IsSpan(events[a], id) && IsSpan(events[b], id) && id !in Before(cfg, events, a)
    requires Steady(cfg, events, id, a, b)
    ensures id in Before(cfg, events, i)
    ensures Before(cfg, events, i)[id].firstSeen == events[a].now
    ensures Before(cfg, events, i)[id].lastSeen == events[LastSpan(events, id, a, i)].now
    decreases i - a
  {
    BeforeStep(cfg, events, i - 1);
    if a < i - 1 {
      SteadyIsHeld(cfg, events, id, a, i - 1, b);
      NotIdleBetween(cfg, events, id, a, i - 1, b);
      StepHolds(cfg, Before(cfg, events, i - 1), events[i - 1], id);
    }
  }

  // A steady trace has a span dropped exactly when it comes the threshold or more after the first one.
  lemma DroppedExactly(cfg: Config, events: seq<Event>, id: TraceId, a: nat, b: nat)
    requires Validate(cfg) == Ok && Clocked(events) && a < b < |events| && id.text != ""
    requires IsSpan(events[a], id) && IsSpan(events[b], id) && id !in Before(cfg, events, a)
    requires Steady(cfg, events, id, a, b)
    ensures Drops(cfg, Before(cfg, events, b), id, events[b].now)
            <==> events[b].now - events[a].now >= cfg.blockThreshold
    ensures !Drops(cfg, Before(cfg, events, a), id, events[a].now)
  {
    SteadyIsHeld(cfg, events, id, a, b, b);
    BlockedExactly(cfg, events[..b], events[b].now);
  }

  // ---------------------------------------------------------------- batches

  // A span of a batch, with the time its trace is looked up.
  datatype BatchSpan = BatchSpan(id: TraceId, seenAt: int, body: int)

  type ScopeSpans = seq<BatchSpan>
  type ResourceSpans = seq<ScopeSpans>

  // The spans one after the other: what is held after them and which stay.
  function TracesAfter(cfg: Config, traces: Traces, spans: seq<BatchSpan>): Traces {
    if spans == [] then traces
    else
      var n := |spans| - 1;
      Noted(cfg, TracesAfter(cfg, traces, spans[..n]), spans[n].id, spans[n].seenAt)
  }

  predicate DropsLast(cfg: Config, traces: Traces, spans: seq<BatchSpan>)
    requires spans != []
  {
    var n := |spans| - 1;
    Drops(cfg, TracesAfter(cfg, traces, spans[..n]), spans[n].id, spans[n].seenAt)
  }

  function Kept(cfg: Config, traces: Traces, spans: seq<BatchSpan>): seq<BatchSpan> {
    if spans == [] then []
    else
      var n := |spans| - 1;
      Kept(cfg, traces, spans[..n]) + if DropsLast(cfg, traces, spans) then [] else [spans[n]]
  }

  function Dropped(cfg: Config, traces: Traces, spans: seq<BatchSpan>): seq<BatchSpan> {
    if spans == [] then []
    else
      var n := |spans| - 1;
      Dropped(cfg, traces, spans[..n]) + if DropsLast(cfg, traces, spans) then [spans[n]] else []
  }

  // The last of some spans is either kept or dropped.
  lemma LastKeptOrDropped(cfg: Config, traces: Traces, spans: seq<BatchSpan>)
    requires spans != []
    ensures var n := |spans| - 1;
            var kept, dropped := Kept(cfg, traces, spans[..n]), Dropped(cfg, traces, spans[..n]);
            || (Kept(cfg, traces, spans) == kept + [spans[n]] && Dropped(cfg, traces, spans) == dropped)
            || (Kept(cfg, traces, spans) == kept && Dropped(cfg, traces, spans) == dropped + [spans[n]])
  {
  }

  ghost predicate Partition(all: seq<BatchSpan>, kept: seq<BatchSpan>, dropped: seq<BatchSpan>) {
    multiset(all) == multiset(kept) + multiset(dropped)
  }

  lemma PartitionOneMore(all: seq<BatchSpan>, kept: seq<BatchSpan>, dropped: seq<BatchSpan>,
                         kept': seq<BatchSpan>, dropped': seq<BatchSpan>)
    requires all != [] && Partition(all[..|all| - 1], kept, dropped)
    requires || (kept' == kept + [all[|all| - 1]] && dropped' == dropped)
             || (kept' == kept && dropped' == dropped + [all[|all| - 1]])
    ensures Partition(all, kept', dropped')
  {
    assert all[..|all| - 1] + [all[|all| - 1]] == all;
  }

  // Every span is kept or dropped.
  lemma {:induction false} KeptOrDropped(cfg: Config, traces: Traces, spans: seq<BatchSpan>)
    ensures Partition(spans, Kept(cfg, traces, spans), Dropped(cfg, traces, spans))
  {
    if spans != [] {
      var before := spans[..|spans| - 1];
      KeptOrDropped(cfg, traces, before);
      LastKeptOrDropped(cfg, traces, spans);
      PartitionOneMore(spans, Kept(cfg, traces, before), Dropped(cfg, traces, before),
                       Kept(cfg, traces, spans), Dropped(cfg, traces, spans));
    }
  }

  lemma KeptAndDroppedCount(cfg: Config, traces: Traces, spans: seq<BatchSpan>)
    ensures |spans| == |Kept(cfg, traces, spans)| + |Dropped(cfg, traces, spans)|
  {
    var kept, dropped := Kept(cfg, traces, spans), Dropped(cfg, traces, spans);
    KeptOrDropped(cfg, traces, spans);
    assert |multiset(spans)| == |multiset(kept)| + |multiset(dropped)|;
  }

  lemma {:induction false} InTwoParts(cfg: Config, traces: Traces, a: seq<BatchSpan>, b: seq<BatchSpan>)
    ensures var mid := TracesAfter(cfg, traces, a);
            && TracesAfter(cfg, traces, a + b) == TracesAfter(cfg, mid, b)
            && Kept(cfg, traces, a + b) == Kept(cfg, traces, a) + Kept(cfg, mid, b)
  {
    if b == [] {
      assert a + b == a;
    } else {
      var n := |b| - 1;
      InTwoParts(cfg, traces, a, b[..n]);
      assert (a + b)[..|a + b| - 1] == a + b[..n];
    }
  }

  function AllOf(groups: seq<seq<BatchSpan>>): seq<BatchSpan> {
    if groups == [] then [] else AllOf(groups[..|groups| - 1]) + groups[|groups| - 1]
  }

  function AllIn(batch: seq<ResourceSpans>): seq<BatchSpan> {
    if batch == [] then [] else AllIn(batch[..|batch| - 1]) + AllOf(batch[|batch| - 1])
  }

  ghost predicate NoneEmpty<T(!new)>(groups: seq<seq<T>>) {
    forall i :: 0 <= i < |groups| ==> groups[i] != []
  }

  // No empty scope and no empty resource.
  ghost predicate Tidy(batch: seq<ResourceSpans>) {
    NoneEmpty(batch) && forall i :: 0 <= i < |batch| ==> NoneEmpty(batch[i])
  }

  lemma TidyOneMore(batch: seq<ResourceSpans>, scopes: ResourceSpans)
    requires Tidy(batch) && NoneEmpty(scopes) && scopes != []
    ensures Tidy(batch + [scopes]) && AllIn(batch + [scopes]) == AllIn(batch) + AllOf(scopes)
  {
    assert (batch + [scopes])[..|batch|] == batch;
  }

  // ---------------------------------------------------------------- the object

  class TraceBlockProcessor {
    var traces: Traces
    const cfg: Config
    var receivedSpans: int
    var droppedSpans: int

    constructor (cfg: Config)
      requires Validate(cfg) == Ok
      ensures this.cfg == cfg && traces == map[] && receivedSpans == 0 && droppedSpans == 0
    {
      this.cfg := cfg;
      traces, receivedSpans, droppedSpans := map[], 0, 0;
    }

    method ShouldDrop(id: TraceId, now: int) returns (drop: bool)
      modifies this`traces
      ensures traces == Noted(cfg, old(traces), id, now)
      ensures drop <==> Drops(cfg, old(traces), id, now)
    {
      if id.text == "" {
        return false;
      }
      if id !in traces {
        traces := traces[id := TraceState(now, now, false)];
        return false;
      }
      var state := traces[id].(lastSeen := now);
      if !state.isBlocked && now - state.firstSeen >= cfg.blockThreshold {
        state := state.(isBlocked := true);
      }
      traces := traces[id := state];
      return state.isBlocked;
    }

    method CleanExpired(now: int)
      modifies this`traces
      ensures traces == Swept(cfg, old(traces), now)
    {
      ghost var was := traces;
      var rest := traces.Keys;
      while rest != {}
        invariant rest <= was.Keys
        invariant traces == map id | id in was && (id in rest || !Idle(cfg, was[id], now)) :: was[id]
      {
        var id :| id in rest;
        rest := rest - {id};
        var state := traces[id];
        var ttl := if state.isBlocked then cfg.blockedIdleTTL else cfg.idleTTL;
        if now - state.lastSeen >= ttl {
          traces := traces - {id};
        }
      }
    }

    // The innermost RemoveIf.
    method FilterSpans(spans: ScopeSpans) returns (kept: ScopeSpans)
      modifies this`traces
      ensures traces == TracesAfter(cfg, old(traces), spans) && kept == Kept(cfg, old(traces), spans)
    {
      kept := [];
      for i := 0 to |spans|
        invariant traces == TracesAfter(cfg, old(traces), spans[..i]) && kept == Kept(cfg, old(traces), spans[..i])
      {
        assert spans[..i + 1][..i] == spans[..i];
        var drop := ShouldDrop(spans[i].id, spans[i].seenAt);
        if !drop {
          kept := kept + [spans[i]];
        }
      }
      assert spans[..|spans|] == spans;
    }

    method FilterScopes(scopes: ResourceSpans) returns (kept: ResourceSpans)
      modifies this`traces
      ensures traces == TracesAfter(cfg, old(traces), AllOf(scopes))
              && AllOf(kept) == Kept(cfg, old(traces), AllOf(scopes))
      ensures NoneEmpty(kept)
    {
      kept := [];
      for i := 0 to |scopes|
        invariant traces == TracesAfter(cfg, old(traces), AllOf(scopes[..i]))
        invariant AllOf(kept) == Kept(cfg, old(traces), AllOf(scopes[..i]))
        invariant NoneEmpty(kept)
      {
        assert scopes[..i + 1][..i] == scopes[..i];
        InTwoParts(cfg, old(traces), AllOf(scopes[..i]), scopes[i]);
        var spans := FilterSpans(scopes[i]);
        if spans != [] {
          assert (kept + [spans])[..|kept|] == kept;
          kept := kept + [spans];
        }
      }
      assert scopes[..|scopes|] == scopes;
    }

    // The nested RemoveIf calls: nothing but the dropped spans goes, and no empty group is left.
    method FilterBatch(batch: seq<ResourceSpans>) returns (kept: seq<ResourceSpans>)
      modifies this`traces
      ensures traces == TracesAfter(cfg, old(traces), AllIn(batch))
              && AllIn(kept) == Kept(cfg, old(traces), AllIn(batch))
      ensures Tidy(kept)
    {
      kept := [];
      for i := 0 to |batch|
        invariant traces == TracesAfter(cfg, old(traces), AllIn(batch[..i]))
        invariant AllIn(kept) == Kept(cfg, old(traces), AllIn(batch[..i]))
        invariant Tidy(kept)
      {
        assert batch[..i + 1][..i] == batch[..i];
        InTwoParts(cfg, old(traces), AllIn(batch[..i]), AllOf(batch[i]));
        var scopes := FilterScopes(batch[i]);
        if scopes != [] {
          TidyOneMore(kept, scopes);
          kept := kept + [scopes];
        }
      }
      assert batch[..|batch|] == batch;
    }

    method CountSpans(batch: seq<ResourceSpans>) returns (n: int)
      ensures n == |AllIn(batch)|
    {
      n := 0;
      for i := 0 to |batch|
        invariant n == |AllIn(batch[..i])|
      {
        assert batch[..i + 1][..i] == batch[..i];
        var scopes := batch[i];
        for j := 0 to |scopes|
          invariant n == |AllIn(batch[..i])| + |AllOf(scopes[..j])|
        {
          assert scopes[..j + 1][..j] == scopes[..j];
          n := n + |scopes[j]|;
        }
        assert scopes[..|scopes|] == scopes;
      }
      assert batch[..|batch|] == batch;
    }

    // What goes on is what came in less the dropped spans, which are counted.
    method ConsumeTraces(batch: seq<ResourceSpans>) returns (forwarded: seq<ResourceSpans>)
      modifies this
      ensures traces == TracesAfter(cfg, old(traces), AllIn(batch))
              && AllIn(forwarded) == Kept(cfg, old(traces), AllIn(batch))
      ensures receivedSpans == old(receivedSpans) + |AllIn(batch)|
      ensures droppedSpans == old(droppedSpans) + |Dropped(cfg, old(traces), AllIn(batch))|
      ensures receivedSpans - droppedSpans == old(receivedSpans - droppedSpans) + |AllIn(forwarded)|
    {
      KeptAndDroppedCount(cfg, traces, AllIn(batch));
      var totalSpans := CountSpans(batch);
      forwarded := FilterBatch(batch);
      var remainingSpans := CountSpans(forwarded);
      receivedSpans := receivedSpans + totalSpans;
      droppedSpans := droppedSpans + (totalSpans - remainingSpans);
    }
  }
}
