// Runs of the entry-URL cache: matching batches, expiring mappings, expiring pending spans, in any
// order, with a clock that never goes back.
module EntryUrlRuns {
  import opened Runs
  import opened EntryUrlMatching

  datatype State = State(
    mappings: Mappings,
    pending: seq<ResourceSpan>,       // unMatchedSpans
    idBatch: seq<TraceId>,            // traces mapped since the last clean-up tick
    line: seq<seq<TraceId>>,          // the batches in the delay line, the next to come out first
    cleaning: seq<TraceId>            // the batch a clean-up under way is about to delete
  )

  function SetOf(ids: seq<TraceId>): set<TraceId> {
    set t | t in ids
  }

  // The ids of a set, each once, in some order.
  ghost predicate ListsIds(ids: seq<TraceId>, all: set<TraceId>) {
    && (forall t :: t in all ==> t in ids)
    && (forall i :: 0 <= i < |ids| ==> ids[i] in all)
    && (forall i, j :: 0 <= i < j < |ids| ==> ids[i] != ids[j])
  }

  // GetMatchedResourceSpans
  ghost predicate MatchStep(s: State, batch: seq<ResourceSpans>, expireTime: int, s': State,
                            result: seq<ResourceSpan>) {
    var spans := AllSpans(batch);
    var ms := Mapped(s.mappings, spans);
    && s'.mappings == ms
    && result == Resolved(s.pending, ms, Traces(spans)) + AllEmitted(ms, batch, |batch|, expireTime)
    && s'.pending == Unresolved(s.pending, ms, Traces(spans)) + AllParked(ms, batch, |batch|, expireTime)
    && s.idBatch <= s'.idBatch
    && ListsIds(s'.idBatch[|s.idBatch|..], Traces(spans) - s.mappings.Keys)
    && s'.line == s.line && s'.cleaning == s.cleaning
  }

  // CleanExpireBuckets, up to CopyAndGetBatch ...
  ghost predicate PickStep(s: State, s': State) {
    && s.cleaning == []
    && var line := s.line + [s.idBatch];
       s' == s.(idBatch := [], line := line[1..], cleaning := line[0])
  }

  // ... and its locked deletions.
  ghost predicate DeleteStep(s: State, s': State) {
    s' == s.(mappings := s.mappings - SetOf(s.cleaning), cleaning := [])
  }

  // How many pending spans the prefix scan of CleanUnMatchedSpans takes.
  function ExpiredCount(pending: seq<ResourceSpan>, now: int): (n: nat)
    ensures n <= |pending|
    ensures forall i :: 0 <= i < n ==> pending[i].expireTime < now
    ensures n < |pending| ==> now <= pending[n].expireTime
  {
    if pending == [] || pending[0].expireTime >= now then 0 else 1 + ExpiredCount(pending[1..], now)
  }

  // CleanUnMatchedSpans
  ghost predicate ExpireStep(s: State, now: int, s': State, expired: seq<ResourceSpan>) {
    var n := ExpiredCount(s.pending, now);
    expired == s.pending[..n] && s' == s.(pending := s.pending[n..])
  }

  // ---------------------------------------------------------------- conservation of spans

  function SpansIn(rs: seq<ResourceSpan>): seq<Span> {
    seq(|rs|, i requires 0 <= i < |rs| => rs[i].span)
  }

  // The spans of a batch that carry a metric: entry and exit spans of attributed resources.
  function Relevant(rss: ResourceSpans, n: nat): seq<Span>
    requires n <= |rss.spans|
  {
    if n == 0 then []
    else Relevant(rss, n - 1) + RelevantOne(rss, rss.spans[n - 1])
  }

  function AllRelevant(batch: seq<ResourceSpans>, n: nat): seq<Span>
    requires n <= |batch|
  {
    if n == 0 then [] else AllRelevant(batch, n - 1) + Relevant(batch[n - 1], |batch[n - 1].spans|)
  }

  lemma SpansInConcat(a: seq<ResourceSpan>, b: seq<ResourceSpan>)
    ensures SpansIn(a + b) == SpansIn(a) + SpansIn(b)
  {
  }

  function Count(spans: seq<Span>, x: Span): nat {
    if spans == [] then 0 else Count(spans[..|spans| - 1], x) + if spans[|spans| - 1] == x then 1 else 0
  }

  lemma {:induction false} CountIsMultiplicity(spans: seq<Span>, x: Span)
    ensures multiset(spans)[x] == Count(spans, x)
  {
    if spans != [] {
      CountIsMultiplicity(spans[..|spans| - 1], x);
      assert spans == spans[..|spans| - 1] + [spans[|spans| - 1]];
    }
  }

  lemma {:induction false} CountConcat(a: seq<Span>, b: seq<Span>, x: Span)
    ensures Count(a + b, x) == Count(a, x) + Count(b, x)
  {
    if b == [] {
      assert a + b == a;
    } else {
      CountConcat(a, b[..|b| - 1], x);
      assert (a + b)[..|a + b| - 1] == a + b[..|b| - 1];
    }
  }

  // A span is as often in the first list as in the other two together.
  ghost predicate Splits(all: seq<Span>, out: seq<ResourceSpan>, stay: seq<ResourceSpan>, x: Span) {
    Count(all, x) == Count(SpansIn(out), x) + Count(SpansIn(stay), x)
  }

  lemma SplitsBoth(a: seq<Span>, a1: seq<ResourceSpan>, a2: seq<ResourceSpan>, b: seq<Span>, b1: seq<ResourceSpan>,
                   b2: seq<ResourceSpan>,
                   x: Span)
    requires Splits(a, a1, a2, x) && Splits(b, b1, b2, x)
    ensures Splits(a + b, a1 + b1, a2 + b2, x)
  {
    CountConcat(a, b, x);
    CountConcat(SpansIn(a1), SpansIn(b1), x);
    CountConcat(SpansIn(a2), SpansIn(b2), x);
    SpansInConcat(a1, b1);
    SpansInConcat(a2, b2);
  }

  lemma SplitsOne(span: Span, out: seq<ResourceSpan>, stay: seq<ResourceSpan>, all: seq<Span>, x: Span)
    requires SpansIn(out) + SpansIn(stay) == all
    ensures Splits(all, out, stay, x)
  {
    CountConcat(SpansIn(out), SpansIn(stay), x);
  }

  function RelevantOne(rss: ResourceSpans, span: Span): seq<Span> {
    if rss.Attributed() && (span.IsEntry() || span.IsExit()) then [span] else []
  }

  lemma VerdictCounts(ms: Mappings, rss: ResourceSpans, span: Span, expireTime: int)
    ensures var v := Judge(ms, rss, span, expireTime);
            SpansIn(Emitted(v)) + SpansIn(Parked(v)) == RelevantOne(rss, span)
  {
  }

  lemma VerdictSplits(ms: Mappings, rss: ResourceSpans, span: Span, expireTime: int, x: Span)
    ensures var v := Judge(ms, rss, span, expireTime);
            Splits(RelevantOne(rss, span), Emitted(v), Parked(v), x)
  {
    VerdictCounts(ms, rss, span, expireTime);
    var v := Judge(ms, rss, span, expireTime);
    SplitsOne(span, Emitted(v), Parked(v), RelevantOne(rss, span), x);
  }

  // One more span of the batch.
  lemma JudgedOneMore(ms: Mappings, rss: ResourceSpans, n: nat, expireTime: int, x: Span)
    requires 0 < n <= |rss.spans|
    requires Splits(Relevant(rss, n - 1), EmittedFrom(ms, rss, n - 1, expireTime),
                    ParkedFrom(ms, rss, n - 1, expireTime), x)
    ensures Splits(Relevant(rss, n), EmittedFrom(ms, rss, n, expireTime), ParkedFrom(ms, rss, n, expireTime), x)
  {
    var span := rss.spans[n - 1];
    var one, v := RelevantOne(rss, span), Judge(ms, rss, span, expireTime);
    VerdictSplits(ms, rss, span, expireTime, x);
    SplitsBoth(Relevant(rss, n - 1), EmittedFrom(ms, rss, n - 1, expireTime), ParkedFrom(ms, rss, n - 1, expireTime),
               one, Emitted(v), Parked(v), x);
    assert Relevant(rss, n) == Relevant(rss, n - 1) + one;
  }

  lemma NothingJudged(ms: Mappings, rss: ResourceSpans, expireTime: int, x: Span)
    ensures Splits(Relevant(rss, 0), EmittedFrom(ms, rss, 0, expireTime), ParkedFrom(ms, rss, 0, expireTime), x)
  {
  }

  lemma {:induction false} JudgedOnce(ms: Mappings, rss: ResourceSpans, n: nat, expireTime: int, x: Span)
    requires n <= |rss.spans|
    ensures Splits(Relevant(rss, n), EmittedFrom(ms, rss, n, expireTime), ParkedFrom(ms, rss, n, expireTime), x)
  {
    if n == 0 {
      NothingJudged(ms, rss, expireTime, x);
    } else {
      JudgedOnce(ms, rss, n - 1, expireTime, x);
      JudgedOneMore(ms, rss, n, expireTime, x);
    }
  }

  lemma {:induction false} BatchJudgedOnce(ms: Mappings, batch: seq<ResourceSpans>, n: nat, expireTime: int, x: Span)
    requires n <= |batch|
    ensures Splits(AllRelevant(batch, n), AllEmitted(ms, batch, n, expireTime), AllParked(ms, batch, n, expireTime), x)
  {
    if n > 0 {
      var rss := batch[n - 1];
      var k := |rss.spans|;
      BatchJudgedOnce(ms, batch, n - 1, expireTime, x);
      JudgedOnce(ms, rss, k, expireTime, x);
      SplitsBoth(AllRelevant(batch, n - 1), AllEmitted(ms, batch, n - 1, expireTime),
                 AllParked(ms, batch, n - 1, expireTime),
                 Relevant(rss, k), EmittedFrom(ms, rss, k, expireTime), ParkedFrom(ms, rss, k, expireTime), x);
    }
  }

  // Only exit spans are parked, with the call's expire time.
  ghost predicate FreshlyParked(rs: seq<ResourceSpan>, expireTime: int) {
    forall i :: 0 <= i < |rs| ==> rs[i].span.IsExit() && rs[i].expireTime == expireTime
  }

  lemma {:induction false} ParkedFromIsFresh(ms: Mappings, rss: ResourceSpans, n: nat, expireTime: int)
    requires n <= |rss.spans|
    ensures FreshlyParked(ParkedFrom(ms, rss, n, expireTime), expireTime)
  {
    if n > 0 {
      ParkedFromIsFresh(ms, rss, n - 1, expireTime);
    }
  }

  lemma {:induction false} AllParkedIsFresh(ms: Mappings, batch: seq<ResourceSpans>, n: nat, expireTime: int)
    requires n <= |batch|
    ensures FreshlyParked(AllParked(ms, batch, n, expireTime), expireTime)
  {
    if n > 0 {
      AllParkedIsFresh(ms, batch, n - 1, expireTime);
      ParkedFromIsFresh(ms, batch[n - 1], |batch[n - 1].spans|, expireTime);
    }
  }

  lemma {:induction false} PendingSplit(pending: seq<ResourceSpan>, ms: Mappings, touched: set<TraceId>, x: Span)
    ensures Splits(SpansIn(pending), Resolved(pending, ms, touched), Unresolved(pending, ms, touched), x)
  {
    if pending != [] {
      var n := |pending| - 1;
      var p := pending[n];
      var hit := p.span.traceId in touched && AnswerFor(ms, p) != "";
      var out, stay := if hit then [p.(entryUrl := AnswerFor(ms, p))] else [], if hit then [] else [p];
      PendingSplit(pending[..n], ms, touched, x);
      assert SpansIn(pending) == SpansIn(pending[..n]) + [p.span];
      SplitsOne(p.span, out, stay, [p.span], x);
      SplitsBoth(SpansIn(pending[..n]), Resolved(pending[..n], ms, touched), Unresolved(pending[..n], ms, touched),
                 [p.span], out, stay, x);
    }
  }

  // Some elements of a list, in their order, at these places.
  ghost predicate Subsequence(kept: seq<ResourceSpan>, all: seq<ResourceSpan>, at: seq<nat>) {
    && |at| == |kept|
    && (forall i :: 0 <= i < |at| ==> at[i] < |all| && kept[i] == all[at[i]])
    && (forall i, j :: 0 <= i < j < |at| ==> at[i] < at[j])
  }

  lemma SubsequenceGrows(kept: seq<ResourceSpan>, all: seq<ResourceSpan>, at: seq<nat>, p: ResourceSpan)
    requires Subsequence(kept, all, at)
    ensures Subsequence(kept, all + [p], at) && Subsequence(kept + [p], all + [p], at + [|all|])
  {
  }

  // The removal loop keeps the survivors in order: they are a subsequence of the pending list.
  lemma {:induction false} UnresolvedIsSubsequence(pending: seq<ResourceSpan>, ms: Mappings, touched: set<TraceId>)
    returns (at: seq<nat>)
    ensures Subsequence(Unresolved(pending, ms, touched), pending, at)
  {
    if pending == [] {
      at := [];
    } else {
      var n := |pending| - 1;
      var p := pending[n];
      var kept := Unresolved(pending[..n], ms, touched);
      at := UnresolvedIsSubsequence(pending[..n], ms, touched);
      SubsequenceGrows(kept, pending[..n], at, p);
      assert pending == pending[..n] + [p] && kept + [] == kept;
      if !(p.span.traceId in touched && AnswerFor(ms, p) != "") {
        at := at + [n];
      }
    }
  }

  lemma MatchCounts(s: State, batch: seq<ResourceSpans>, expireTime: int, s': State, result: seq<ResourceSpan>, x: Span)
    requires MatchStep(s, batch, expireTime, s', result)
    ensures Count(SpansIn(s.pending), x) + Count(AllRelevant(batch, |batch|), x)
            == Count(SpansIn(result), x) + Count(SpansIn(s'.pending), x)
  {
    var ms, touched := s'.mappings, Traces(AllSpans(batch));
    PendingSplit(s.pending, ms, touched, x);
    BatchJudgedOnce(ms, batch, |batch|, expireTime, x);
    SplitsBoth(SpansIn(s.pending), Resolved(s.pending, ms, touched), Unresolved(s.pending, ms, touched),
               AllRelevant(batch, |batch|),
               AllEmitted(ms, batch, |batch|, expireTime), AllParked(ms, batch, |batch|, expireTime), x);
    CountConcat(SpansIn(s.pending), AllRelevant(batch, |batch|), x);
  }

  // One call: what was pending and what came in is what comes out and what is pending.
  lemma MatchConserves(s: State, batch: seq<ResourceSpans>, expireTime: int, s': State, result: seq<ResourceSpan>)
    requires MatchStep(s, batch, expireTime, s', result)
    ensures multiset(SpansIn(s.pending)) + multiset(AllRelevant(batch, |batch|))
         == multiset(SpansIn(result)) + multiset(SpansIn(s'.pending))
  {
    forall x: Span
      ensures multiset(SpansIn(s.pending))[x] + multiset(AllRelevant(batch, |batch|))[x]
           == multiset(SpansIn(result))[x] + multiset(SpansIn(s'.pending))[x]
    {
      MatchCounts(s, batch, expireTime, s', result, x);
      CountIsMultiplicity(SpansIn(s.pending), x);
      CountIsMultiplicity(AllRelevant(batch, |batch|), x);
      CountIsMultiplicity(SpansIn(result), x);
      CountIsMultiplicity(SpansIn(s'.pending), x);
    }
  }

  // ---------------------------------------------------------------- the system with its history

  datatype System = System(
    state: State,
    clock: int,
    received: seq<Span>,            // entry and exit spans of attributed resources, as they came in
    delivered: seq<ResourceSpan>,   // what the calls returned
    expired: seq<ResourceSpan>,     // what the expiry scans returned
    picked: seq<seq<TraceId>>,      // the id batches put into the delay line, tick by tick
    dropped: seq<seq<TraceId>>      // the id batches that came out of it, tick by tick
  )

  ghost predicate Init(s: System, size: nat) {
    s.state == State(map[], [], [], seq(size, i => []), [])
    && s.received == [] && s.delivered == [] && s.expired == [] && s.picked == [] && s.dropped == []
  }

  ghost predicate MatchNext(s: System, hold: nat, s': System, batch: seq<ResourceSpans>, result: seq<ResourceSpan>) {
    && MatchStep(s.state, batch, s'.clock + hold, s'.state, result)
    && s' == s.(state := s'.state, clock := s'.clock,
                received := s.received + AllRelevant(batch, |batch|), delivered := s.delivered + result)
  }

  ghost predicate ExpireNext(s: System, s': System, out: seq<ResourceSpan>) {
    && ExpireStep(s.state, s'.clock, s'.state, out)
    && s' == s.(state := s'.state, clock := s'.clock, expired := s.expired + out)
  }

  ghost predicate PickNext(s: System, s': System) {
    && PickStep(s.state, s'.state)
    && s' == s.(state := s'.state, clock := s'.clock,
                picked := s.picked + [s.state.idBatch], dropped := s.dropped + [s'.state.cleaning])
  }

  ghost predicate DeleteNext(s: System, s': System) {
    DeleteStep(s.state, s'.state) && s' == s.(state := s'.state, clock := s'.clock)
  }

  ghost predicate NextStep(s: System, hold: nat, s': System) {
    && s.clock <= s'.clock
    && (|| (exists batch, result :: MatchNext(s, hold, s', batch, result))
        || (exists out :: ExpireNext(s, s', out))
        || PickNext(s, s')
        || DeleteNext(s, s'))
  }

  ghost predicate LinkedAt(b: seq<System>, hold: nat, i: nat)
    requires i < |b| - 1
  {
    NextStep(b[i], hold, b[i + 1])
  }

  ghost predicate Reachable(s: System, size: nat, hold: nat) {
    exists b: seq<System> :: IsRun(b, size, hold) && b[|b| - 1] == s
  }

  ghost predicate IsRun(b: seq<System>, size: nat, hold: nat) {
    b != [] && Init(b[0], size) && forall i: nat :: i < |b| - 1 ==> LinkedAt(b, hold, i)
  }

  // ---------------------------------------------------------------- invariants

  // Ordered by expire time, and nothing expires later than one hold time from now.
  ghost predicate SortedPending(pending: seq<ResourceSpan>, latest: int) {
    && (forall i, j :: 0 <= i < j < |pending| ==> pending[i].expireTime <= pending[j].expireTime)
    && (forall i :: 0 <= i < |pending| ==> pending[i].expireTime <= latest)
  }

  // What a pending list must look like, given the mappings and the latest expire time.
  ghost predicate GoodPending(pending: seq<ResourceSpan>, ms: Mappings, latest: int) {
    && NoneResolvable(ms, pending)
    && SortedPending(pending, latest)
    && (forall i :: 0 <= i < |pending| ==> pending[i].span.IsExit())
  }

  ghost predicate Conserved(s: System) {
    multiset(s.received)
    == multiset(SpansIn(s.delivered)) + multiset(SpansIn(s.state.pending)) + multiset(SpansIn(s.expired))
  }

  ghost predicate PendingInv(s: System, hold: nat) {
    GoodPending(s.state.pending, s.state.mappings, s.clock + hold) && Conserved(s)
  }

  function Concat(line: seq<seq<TraceId>>): seq<TraceId> {
    if line == [] then [] else line[0] + Concat(line[1..])
  }

  // Every id the clean-up still has to deal with.
  function Owned(s: State): seq<TraceId> {
    s.cleaning + Concat(s.line) + s.idBatch
  }

  // The batch of tick k, if there was one.
  function BatchOf(picked: seq<seq<TraceId>>, k: int): seq<TraceId> {
    if 0 <= k < |picked| then picked[k] else []
  }

  ghost predicate LineInv(s: System, size: nat) {
    && |s.state.line| == size
    && |s.dropped| == |s.picked|
    && (forall i :: 0 <= i < size ==> s.state.line[i] == BatchOf(s.picked, |s.picked| - size + i))
    && (forall k :: 0 <= k < |s.dropped| ==> s.dropped[k] == BatchOf(s.picked, k - size))
    && (s.state.cleaning != [] ==> s.dropped != [] && s.state.cleaning == s.dropped[|s.dropped| - 1])
  }

  ghost predicate OwnedInv(s: State) {
    forall t :: multiset(Owned(s))[t] == if t in s.mappings then 1 else 0
  }

  lemma {:induction false} UnresolvedSorted(pending: seq<ResourceSpan>, ms: Mappings, touched: set<TraceId>,
                                            latest: int)
    requires SortedPending(pending, latest)
    requires forall i :: 0 <= i < |pending| ==> pending[i].span.IsExit()
    ensures SortedPending(Unresolved(pending, ms, touched), latest)
    ensures forall i :: 0 <= i < |Unresolved(pending, ms, touched)| ==>
              Unresolved(pending, ms, touched)[i].span.IsExit()
  {
    var at := UnresolvedIsSubsequence(pending, ms, touched);
  }

  lemma MatchKeepsConserved(s: System, hold: nat, s': System, batch: seq<ResourceSpans>, result: seq<ResourceSpan>)
    requires Conserved(s) && MatchNext(s, hold, s', batch, result)
    ensures Conserved(s')
  {
    MatchConserves(s.state, batch, s'.clock + hold, s'.state, result);
    SpansInConcat(s.delivered, result);
    Rebalance(s.received, AllRelevant(batch, |batch|), SpansIn(s.delivered), SpansIn(result),
              SpansIn(s.state.pending), SpansIn(s'.state.pending), SpansIn(s.expired));
  }

  lemma Rebalance(r: seq<Span>, more: seq<Span>, d: seq<Span>, result: seq<Span>, p: seq<Span>, p': seq<Span>,
                  e: seq<Span>)
    requires multiset(r) == multiset(d) + multiset(p) + multiset(e)
    requires multiset(p) + multiset(more) == multiset(result) + multiset(p')
    ensures multiset(r + more) == multiset(d + result) + multiset(p') + multiset(e)
  {
    forall x ensures multiset(r + more)[x] == (multiset(d + result) + multiset(p') + multiset(e))[x] {
      assert (multiset(p) + multiset(more))[x] == (multiset(result) + multiset(p'))[x];
    }
  }

  lemma AppendKeepsGood(kept: seq<ResourceSpan>, parked: seq<ResourceSpan>, ms: Mappings, earlier: int, now: int)
    requires GoodPending(kept, ms, earlier) && earlier <= now
    requires NoneResolvable(ms, parked) && FreshlyParked(parked, now)
    ensures GoodPending(kept + parked, ms, now)
  {
  }

  lemma MatchKeepsGood(s: State, batch: seq<ResourceSpans>, earlier: int, now: int, s': State,
                       result: seq<ResourceSpan>)
    requires GoodPending(s.pending, s.mappings, earlier) && earlier <= now
    requires MatchStep(s, batch, now, s', result)
    ensures GoodPending(s'.pending, s'.mappings, now)
  {
    var spans, ms := AllSpans(batch), s'.mappings;
    UnresolvedSorted(s.pending, ms, Traces(spans), earlier);
    NothingResolvableAfter(s.mappings, s.pending, spans);
    AllParkedIsFresh(ms, batch, |batch|, now);
    AllParkedAreUnresolvable(ms, batch, |batch|, now);
    AppendKeepsGood(Unresolved(s.pending, ms, Traces(spans)), AllParked(ms, batch, |batch|, now), ms, earlier, now);
  }

  lemma MatchKeepsPending(s: System, hold: nat, s': System, batch: seq<ResourceSpans>, result: seq<ResourceSpan>)
    requires PendingInv(s, hold) && s.clock <= s'.clock && MatchNext(s, hold, s', batch, result)
    ensures PendingInv(s', hold)
  {
    MatchKeepsConserved(s, hold, s', batch, result);
    MatchKeepsGood(s.state, batch, s.clock + hold, s'.clock + hold, s'.state, result);
  }

  lemma NothingResolvableAfter(ms: Mappings, pending: seq<ResourceSpan>, spans: seq<Span>)
    requires NoneResolvable(ms, pending)
    ensures NoneResolvable(Mapped(ms, spans), Unresolved(pending, Mapped(ms, spans), Traces(spans)))
  {
    var all := EveryTrace(pending);
    IncrementalIsFull(ms, pending, spans, all);
    UnresolvedAreUnresolvable(Mapped(ms, spans), pending, all);
  }

  lemma ExpireKeepsPending(s: System, hold: nat, s': System, out: seq<ResourceSpan>)
    requires PendingInv(s, hold) && s.clock <= s'.clock && ExpireNext(s, s', out)
    ensures PendingInv(s', hold)
  {
    var n := ExpiredCount(s.state.pending, s'.clock);
    assert s.state.pending == out + s'.state.pending;
    DroppingKeepsGood(s.state.pending, n, s.state.mappings, s.clock + hold, s'.clock + hold);
    ExpireKeepsConserved(s, s', out);
  }

  lemma DroppingKeepsGood(pending: seq<ResourceSpan>, n: nat, ms: Mappings, earlier: int, now: int)
    requires GoodPending(pending, ms, earlier) && earlier <= now && n <= |pending|
    ensures GoodPending(pending[n..], ms, now)
  {
  }

  lemma ExpireKeepsConserved(s: System, s': System, out: seq<ResourceSpan>)
    requires Conserved(s) && s.state.pending == out + s'.state.pending
    requires s'.received == s.received && s'.delivered == s.delivered && s'.expired == s.expired + out
    ensures Conserved(s')
  {
    SpansInConcat(out, s'.state.pending);
    SpansInConcat(s.expired, out);
  }

  lemma DeleteKeepsPending(s: System, hold: nat, s': System)
    requires PendingInv(s, hold) && s.clock <= s'.clock && DeleteNext(s, s')
    ensures PendingInv(s', hold)
  {
  }

  lemma {:induction false} ConcatAppend(line: seq<seq<TraceId>>, batch: seq<TraceId>)
    ensures Concat(line + [batch]) == Concat(line) + batch
  {
    if line == [] {
      assert [batch][1..] == [];
      assert batch + [] == batch;
    } else {
      assert (line + [batch])[1..] == line[1..] + [batch];
      ConcatAppend(line[1..], batch);
    }
  }

  lemma PickKeepsOwned(s: State, s': State)
    requires PickStep(s, s')
    ensures Owned(s') == Owned(s)
  {
    ConcatAppend(s.line, s.idBatch);
    assert Owned(s) == Concat(s.line) + s.idBatch;
    var line := s.line + [s.idBatch];
    assert Concat(line) == line[0] + Concat(line[1..]);
    assert Owned(s') == line[0] + Concat(line[1..]);
  }

  lemma ListsOnce(ids: seq<TraceId>, all: set<TraceId>, t: TraceId)
    requires ListsIds(ids, all)
    ensures multiset(ids)[t] == if t in all then 1 else 0
  {
    if t in all {
      var i :| 0 <= i < |ids| && ids[i] == t;
      assert ids == ids[..i] + [t] + ids[i + 1..];
      assert t !in ids[..i] && t !in ids[i + 1..];
    }
  }

  lemma OwnedOnce(owned: seq<TraceId>, ms: set<TraceId>, added: seq<TraceId>, unknown: set<TraceId>, t: TraceId)
    requires multiset(owned)[t] == if t in ms then 1 else 0
    requires ListsIds(added, unknown) && ms !! unknown
    ensures multiset(owned + added)[t] == if t in ms + unknown then 1 else 0
  {
    ListsOnce(added, unknown, t);
  }

  // What a call adds to the ids recorded and to the mappings.
  ghost predicate Adds(s: State, s': State, unknown: set<TraceId>) {
    && s'.mappings.Keys == s.mappings.Keys + unknown && s.mappings.Keys !! unknown
    && s.idBatch <= s'.idBatch && ListsIds(s'.idBatch[|s.idBatch|..], unknown)
    && s'.line == s.line && s'.cleaning == s.cleaning
  }

  lemma MatchAdds(s: State, batch: seq<ResourceSpans>, expireTime: int, s': State, result: seq<ResourceSpan>)
    requires MatchStep(s, batch, expireTime, s', result)
    ensures Adds(s, s', Traces(AllSpans(batch)) - s.mappings.Keys)
  {
  }

  lemma AddingKeepsOwned(s: State, s': State, unknown: set<TraceId>)
    requires OwnedInv(s) && Adds(s, s', unknown)
    ensures OwnedInv(s')
  {
    forall t ensures multiset(Owned(s'))[t] == if t in s'.mappings then 1 else 0 {
      assert multiset(Owned(s))[t] == if t in s.mappings then 1 else 0;
      AddingKeepsOne(s, s', unknown, t);
    }
  }

  lemma AddingKeepsOne(s: State, s': State, unknown: set<TraceId>, t: TraceId)
    requires Adds(s, s', unknown)
    requires multiset(Owned(s))[t] == if t in s.mappings then 1 else 0
    ensures multiset(Owned(s'))[t] == if t in s'.mappings then 1 else 0
  {
    var added := s'.idBatch[|s.idBatch|..];
    OwnedGrows(s, s', added);
    OwnedOnce(Owned(s), s.mappings.Keys, added, unknown, t);
    assert t in s'.mappings <==> t in s.mappings.Keys + unknown;
  }

  lemma OwnedGrows(s: State, s': State, added: seq<TraceId>)
    requires s'.idBatch == s.idBatch + added && s'.line == s.line && s'.cleaning == s.cleaning
    ensures Owned(s') == Owned(s) + added
  {
  }

  lemma DeleteKeepsOwned(s: State, s': State)
    requires OwnedInv(s) && DeleteStep(s, s')
    ensures OwnedInv(s')
  {
    assert Owned(s) == s.cleaning + Owned(s');
    forall t ensures multiset(Owned(s'))[t] == if t in s'.mappings then 1 else 0 {
      assert multiset(Owned(s))[t] == if t in s.mappings then 1 else 0;
      CountsOfConcat(s.cleaning, Owned(s'), t);
    }
  }

  lemma CountsOfConcat(a: seq<TraceId>, b: seq<TraceId>, t: TraceId)
    ensures multiset(a + b)[t] == multiset(a)[t] + multiset(b)[t]
    ensures multiset(a)[t] > 0 <==> t in a
  {
  }

  lemma PickKeepsLine(s: System, size: nat, s': System)
    requires LineInv(s, size) && PickNext(s, s')
    ensures LineInv(s', size)
  {
  }

  lemma NextKeepsPending(s: System, hold: nat, s': System)
    requires PendingInv(s, hold) && NextStep(s, hold, s')
    ensures PendingInv(s', hold)
  {
    if batch, result :| MatchNext(s, hold, s', batch, result) {
      MatchKeepsPending(s, hold, s', batch, result);
    } else if out :| ExpireNext(s, s', out) {
      ExpireKeepsPending(s, hold, s', out);
    } else if DeleteNext(s, s') {
      DeleteKeepsPending(s, hold, s');
    }
  }

  lemma OthersKeepLine(s: System, size: nat, hold: nat, s': System)
    requires LineInv(s, size) && NextStep(s, hold, s') && !PickNext(s, s')
    ensures LineInv(s', size)
  {
    LineUnchanged(s, hold, s');
  }

  lemma LineUnchanged(s: System, hold: nat, s': System)
    requires NextStep(s, hold, s') && !PickNext(s, s')
    ensures s'.picked == s.picked && s'.dropped == s.dropped && s'.state.line == s.state.line
    ensures s'.state.cleaning == s.state.cleaning || s'.state.cleaning == []
  {
    if batch, result :| MatchNext(s, hold, s', batch, result) {
    } else if out :| ExpireNext(s, s', out) {
    } else {
      assert DeleteNext(s, s');
    }
  }

  lemma NextKeepsLine(s: System, size: nat, hold: nat, s': System)
    requires LineInv(s, size) && NextStep(s, hold, s')
    ensures LineInv(s', size)
  {
    if PickNext(s, s') {
      PickKeepsLine(s, size, s');
    } else {
      OthersKeepLine(s, size, hold, s');
    }
  }

  lemma NextKeepsOwned(s: System, hold: nat, s': System)
    requires OwnedInv(s.state) && NextStep(s, hold, s')
    ensures OwnedInv(s'.state)
  {
    OwnedMoves(s, hold, s');
    if unknown :| Adds(s.state, s'.state, unknown) {
      AddingKeepsOwned(s.state, s'.state, unknown);
    } else if PickStep(s.state, s'.state) {
      PickKeepsOwned(s.state, s'.state);
    } else if DeleteStep(s.state, s'.state) {
      DeleteKeepsOwned(s.state, s'.state);
    }
  }

  lemma OwnedMoves(s: System, hold: nat, s': System)
    requires NextStep(s, hold, s')
    ensures || (exists unknown :: Adds(s.state, s'.state, unknown))
            || PickStep(s.state, s'.state)
            || DeleteStep(s.state, s'.state)
            || (Owned(s'.state) == Owned(s.state) && s'.state.mappings == s.state.mappings)
  {
    if batch, result :| MatchNext(s, hold, s', batch, result) {
      MatchNextAdds(s, hold, s', batch, result);
    }
  }

  lemma MatchNextAdds(s: System, hold: nat, s': System, batch: seq<ResourceSpans>, result: seq<ResourceSpan>)
    requires MatchNext(s, hold, s', batch, result)
    ensures Adds(s.state, s'.state, Traces(AllSpans(batch)) - s.state.mappings.Keys)
  {
    MatchAdds(s.state, batch, s'.clock + hold, s'.state, result);
  }

  lemma {:induction false} ConcatEmpty(size: nat)
    ensures Concat(seq(size, i => [])) == []
  {
    if size > 0 {
      assert seq(size, i => [])[1..] == seq<seq<TraceId>>(size - 1, i => []);
      ConcatEmpty(size - 1);
    }
  }

  lemma InitInv(s: System, size: nat, hold: nat)
    requires Init(s, size)
    ensures PendingInv(s, hold) && OwnedInv(s.state) && LineInv(s, size)
  {
    ConcatEmpty(size);
    assert Owned(s.state) == [];
  }

  ghost predicate FullInv(s: System, size: nat, hold: nat) {
    PendingInv(s, hold) && OwnedInv(s.state) && LineInv(s, size)
  }

  lemma NextKeepsInv(s: System, size: nat, hold: nat, s': System)
    requires FullInv(s, size, hold) && NextStep(s, hold, s')
    ensures FullInv(s', size, hold)
  {
    NextKeepsPending(s, hold, s');
    NextKeepsOwned(s, hold, s');
    NextKeepsLine(s, size, hold, s');
  }

  lemma RunInv(b: seq<System>, size: nat, hold: nat, i: nat)
    requires IsRun(b, size, hold) && i < |b|
    ensures FullInv(b[i], size, hold)
  {
    InitInv(b[0], size, hold);
    forall j | 0 <= j < |b| - 1 && FullInv(b[j], size, hold) ensures FullInv(b[j + 1], size, hold) {
      assert LinkedAt(b, hold, j);
      NextKeepsInv(b[j], size, hold, b[j + 1]);
    }
    HoldsAlong(b, (s: System) => FullInv(s, size, hold), i);
  }

  lemma ReachableInv(s: System, size: nat, hold: nat)
    requires Reachable(s, size, hold)
    ensures PendingInv(s, hold) && OwnedInv(s.state) && LineInv(s, size)
  {
    var b: seq<System> :| IsRun(b, size, hold) && b[|b| - 1] == s;
    RunInv(b, size, hold, |b| - 1);
  }

  // ---------------------------------------------------------------- what holds over every run

  // Although a call re-checks only the traces of its batch, no pending span ever has an answer under
  // its trace's current mapping; mappings expiring in between change nothing about that.
  lemma NoPendingSpanIsResolvable(s: System, size: nat, hold: nat, i: nat)
    requires Reachable(s, size, hold) && i < |s.state.pending|
    ensures AnswerFor(s.state.mappings, s.state.pending[i]) == ""
  {
    ReachableInv(s, size, hold);
  }

  // What a call returns when every pending span is re-checked.
  ghost predicate FullMatch(s: State, batch: seq<ResourceSpans>, expireTime: int, s': State,
                            result: seq<ResourceSpan>) {
    result == Resolved(s.pending, s'.mappings, EveryTrace(s.pending))
        + AllEmitted(s'.mappings, batch, |batch|, expireTime)
  }

  lemma MatchIsFull(s: State, batch: seq<ResourceSpans>, expireTime: int, s': State, result: seq<ResourceSpan>)
    requires NoneResolvable(s.mappings, s.pending) && MatchStep(s, batch, expireTime, s', result)
    ensures FullMatch(s, batch, expireTime, s', result)
  {
    IncrementalIsFull(s.mappings, s.pending, AllSpans(batch), EveryTrace(s.pending));
  }

  lemma NextIsFull(s: System, hold: nat, batch: seq<ResourceSpans>, result: seq<ResourceSpan>, s': System)
    requires PendingInv(s, hold) && MatchNext(s, hold, s', batch, result)
    ensures FullMatch(s.state, batch, s'.clock + hold, s'.state, result)
  {
    MatchIsFull(s.state, batch, s'.clock + hold, s'.state, result);
  }

  // The next call resolves what a re-check of every pending span would resolve.
  lemma NextCallIsFullMatching(s: System, size: nat, hold: nat, batch: seq<ResourceSpans>, result: seq<ResourceSpan>,
                               s': System)
    requires Reachable(s, size, hold) && MatchNext(s, hold, s', batch, result)
    ensures FullMatch(s.state, batch, s'.clock + hold, s'.state, result)
  {
    ReachableInv(s, size, hold);
    NextIsFull(s, hold, batch, result, s');
  }

  // Every entry or exit span received is in exactly one of the results, the pending list and the
  // expiry batches; the latter two hold exit spans only, so every entry span is in exactly one result.
  lemma SpansConserved(s: System, size: nat, hold: nat, x: Span)
    requires Reachable(s, size, hold)
    ensures multiset(s.received)[x]
         == multiset(SpansIn(s.delivered))[x] + multiset(SpansIn(s.state.pending))[x] + multiset(SpansIn(s.expired))[x]
    ensures x.IsEntry() ==> multiset(SpansIn(s.state.pending))[x] == 0
  {
    ReachableInv(s, size, hold);
  }

  // The expiry scan stops at the first span not yet expired and still takes all that are.
  lemma ScanTakesExactlyTheExpired(s: System, size: nat, hold: nat, now: int, i: nat)
    requires Reachable(s, size, hold) && i < |s.state.pending|
    ensures i < ExpiredCount(s.state.pending, now) <==> s.state.pending[i].expireTime < now
  {
    ReachableInv(s, size, hold);
    ScanIsExact(s.state.pending, s.clock + hold, now, i);
  }

  lemma ScanIsExact(pending: seq<ResourceSpan>, latest: int, now: int, i: nat)
    requires SortedPending(pending, latest) && i < |pending|
    ensures i < ExpiredCount(pending, now) <==> pending[i].expireTime < now
  {
    var n := ExpiredCount(pending, now);
    if n <= i {
      assert pending[n].expireTime <= pending[i].expireTime;
    }
  }

  // The k-th batch to come out of the delay line is the batch put in `size` ticks before.
  lemma DelayLine(s: System, size: nat, hold: nat, k: nat)
    requires Reachable(s, size, hold) && k < |s.dropped|
    ensures |s.dropped| == |s.picked|
    ensures s.dropped[k] == if k < size then [] else s.picked[k - size]
  {
    ReachableInv(s, size, hold);
  }

  // A trace has a mapping exactly while its id is in the current batch, in one of the last `size`
  // batches, or in the batch being deleted; and it is there once.
  lemma MappingLifetime(s: System, size: nat, hold: nat, t: TraceId)
    requires Reachable(s, size, hold)
    ensures t in s.state.mappings <==> t in Owned(s.state)
    ensures multiset(Owned(s.state))[t] <= 1
    ensures |s.state.line| == size
    ensures forall i :: 0 <= i < size ==> s.state.line[i] == BatchOf(s.picked, |s.picked| - size + i)
  {
    ReachableInv(s, size, hold);
    assert t in Owned(s.state) <==> multiset(Owned(s.state))[t] > 0;
  }
}
