// Which entry URL a returned span carries, and which spans wait, in terms of the spans and their parents.
module EntryUrlAnswers {
  import opened Runs
  import opened EntryUrlMatching
  import opened EntryUrlRuns

  // ---------------------------------------------------------------- what a mapping knows

  // Span i is the last one of the kind with its id.
  ghost predicate LastEntry(spans: seq<Span>, id: SpanId, i: int) {
    && 0 <= i < |spans| && spans[i].kind in {Server, Consumer} && spans[i].spanId == id
    && forall j :: i < j < |spans| && spans[j].kind in {Server, Consumer} ==> spans[j].spanId != id
  }

  ghost predicate LastInner(spans: seq<Span>, id: SpanId, i: int) {
    && 0 <= i < |spans| && spans[i].kind in {Unspecified, Internal} && spans[i].spanId == id
    && forall j :: i < j < |spans| && spans[j].kind in {Unspecified, Internal} ==> spans[j].spanId != id
  }

  ghost predicate KnowsNames(m: Mapping, spans: seq<Span>, m': Mapping, id: SpanId) {
    && (forall i :: LastEntry(spans, id, i) ==> id in m'.names && m'.names[id] == spans[i].name)
    && ((forall i :: !LastEntry(spans, id, i)) ==>
          (id in m'.names <==> id in m.names) && (id in m.names ==> m'.names[id] == m.names[id]))
  }

  ghost predicate KnowsParents(m: Mapping, spans: seq<Span>, m': Mapping, id: SpanId) {
    && (forall i :: LastInner(spans, id, i) ==> id in m'.parents && m'.parents[id] == spans[i].parentSpanId)
    && ((forall i :: !LastInner(spans, id, i)) ==>
          (id in m'.parents <==> id in m.parents) && (id in m.parents ==> m'.parents[id] == m.parents[id]))
  }

  lemma OneMoreName(m: Mapping, spans: seq<Span>, between: Mapping, span: Span, id: SpanId)
    requires KnowsNames(m, spans, between, id)
    ensures KnowsNames(m, spans + [span], AddSpan(between, span), id)
  {
    var more, n := spans + [span], |spans|;
    assert more[n] == span && forall j :: 0 <= j < n ==> more[j] == spans[j];
    if span.kind in {Server, Consumer} && span.spanId == id {
      assert LastEntry(more, id, n);
    } else {
      forall i ensures LastEntry(more, id, i) <==> LastEntry(spans, id, i) {
      }
    }
  }

  lemma OneMoreParent(m: Mapping, spans: seq<Span>, between: Mapping, span: Span, id: SpanId)
    requires KnowsParents(m, spans, between, id)
    ensures KnowsParents(m, spans + [span], AddSpan(between, span), id)
  {
    var more, n := spans + [span], |spans|;
    assert more[n] == span && forall j :: 0 <= j < n ==> more[j] == spans[j];
    if span.kind in {Unspecified, Internal} && span.spanId == id {
      assert LastInner(more, id, n);
    } else {
      forall i ensures LastInner(more, id, i) <==> LastInner(spans, id, i) {
      }
    }
  }

  // A mapping names the entry spans added to it and has the parents of the inner ones, the last of an id
  // counting; client and producer spans leave nothing.
  lemma {:induction false} MappingKnows(m: Mapping, spans: seq<Span>, id: SpanId)
    ensures KnowsNames(m, spans, Added(m, spans), id) && KnowsParents(m, spans, Added(m, spans), id)
  {
    if spans != [] {
      var n := |spans| - 1;
      MappingKnows(m, spans[..n], id);
      OneMoreName(m, spans[..n], Added(m, spans[..n]), spans[n], id);
      OneMoreParent(m, spans[..n], Added(m, spans[..n]), spans[n], id);
      assert spans == spans[..n] + [spans[n]];
    }
  }

  // ---------------------------------------------------------------- the name on the parent chain

  // The parents of the id lead, through spans that are no entry spans, to an entry span of this name.
  ghost predicate LeadsTo(m: Mapping, id: SpanId, name: string) {
    exists path :: Chain(m, path) && path[0] == id && path[|path| - 1] in m.names && m.names[path[|path| - 1]] == name
  }

  lemma {:induction false} ChainAnswers(m: Mapping, path: seq<SpanId>)
    requires Chain(m, path) && path[|path| - 1] in m.names
    ensures Ends(m, path[0]) && EntryName(m, path[0]) == m.names[path[|path| - 1]]
    decreases |path|
  {
    if |path| == 1 {
      assert LookUp(m, path[0], 1).Some?;
      EntryNameIsLookUp(m, path[0]);
      MoreFuel(m, path[0], 1, Calls(m, path[0]) + 1);
      MoreFuel(m, path[0], Calls(m, path[0]), Calls(m, path[0]) + 1);
    } else {
      var rest := path[1..];
      assert path[0] !in m.names && path[0] in m.parents && path[1] == m.parents[path[0]];
      forall i | 0 <= i < |rest| - 1
        ensures rest[i] !in m.names && rest[i] in m.parents && rest[i + 1] == m.parents[rest[i]]
      {
        assert rest[i] == path[i + 1];
      }
      ChainAnswers(m, rest);
      var f: nat :| LookUp(m, rest[0], f).Some?;
      assert LookUp(m, path[0], f + 1).Some?;
      EntryNameStep(m, path[0]);
    }
  }

  // The answer of the look-up, when there is one, is that name.
  lemma AnswerIsTheName(m: Mapping, id: SpanId, name: string)
    requires name != ""
    ensures EntryName(m, id) == name <==> LeadsTo(m, id, name)
  {
    if LeadsTo(m, id, name) {
      var path :| Chain(m, path) && path[0] == id && path[|path| - 1] in m.names && m.names[path[|path| - 1]] == name;
      ChainAnswers(m, path);
    }
    if EntryName(m, id) == name {
      FoundEnds(m, id, m.parents.Keys);
      var path := NearestEntryAncestor(m, id);
    }
  }

  // The entry span of a waiting span is known.
  ghost predicate Knows(ms: Mappings, span: Span, name: string) {
    name != "" && span.traceId in ms && LeadsTo(ms[span.traceId], span.parentSpanId, name)
  }

  lemma AnswerForIsTheName(ms: Mappings, p: ResourceSpan)
    ensures AnswerFor(ms, p) != "" ==> Knows(ms, p.span, AnswerFor(ms, p))
    ensures forall name :: Knows(ms, p.span, name) ==> AnswerFor(ms, p) == name
  {
    if AnswerFor(ms, p) != "" {
      AnswerIsTheName(ms[p.span.traceId], p.span.parentSpanId, AnswerFor(ms, p));
    }
    forall name | Knows(ms, p.span, name) ensures AnswerFor(ms, p) == name {
      AnswerIsTheName(ms[p.span.traceId], p.span.parentSpanId, name);
    }
  }

  // ---------------------------------------------------------------- one span of a batch

  // A client or producer span below another span.
  predicate MustWait(span: Span) {
    span.kind in {Client, Producer} && span.parentSpanId != SpanId(0)
  }

  // A span that is its own entry: a server or consumer span, or a client or producer span that is a root.
  predicate IsOwnEntry(span: Span) {
    span.kind in {Server, Consumer} || (span.kind in {Client, Producer} && span.parentSpanId == SpanId(0))
  }

  // The URL of a returned span: its own name, or the name of the first entry span above it.
  ghost predicate RightUrl(ms: Mappings, r: ResourceSpan) {
    && (IsOwnEntry(r.span) ==> r.entryUrl == r.span.name)
    && (MustWait(r.span) ==> Knows(ms, r.span, r.entryUrl))
    && (IsOwnEntry(r.span) || MustWait(r.span))
  }

  // A span of the batch, with the process, service and container of its resource.
  function Labelled(rss: ResourceSpans, span: Span, expireTime: int, url: string): ResourceSpan {
    ResourceSpan(expireTime, rss.pid, rss.containerId, rss.serviceName, url, span)
  }

  ghost predicate FromBatch(batch: seq<ResourceSpans>, expireTime: int, r: ResourceSpan) {
    exists i, k :: 0 <= i < |batch| && 0 <= k < |batch[i].spans|
                   && batch[i].pid != "" && batch[i].serviceName != ""
                   && r == Labelled(batch[i], batch[i].spans[k], expireTime, r.entryUrl)
  }

  // What becomes of one span of an attributed resource; one of any other resource is skipped.
  lemma VerdictIsRight(ms: Mappings, rss: ResourceSpans, span: Span, expireTime: int)
    ensures var v := Judge(ms, rss, span, expireTime);
            && (rss.pid == "" || rss.serviceName == "" || span.kind in {Unspecified, Internal} ==> v == Skip)
            && (rss.pid != "" && rss.serviceName != "" && IsOwnEntry(span) ==>
                  v == Emit(Labelled(rss, span, expireTime, span.name)))
            && (rss.pid != "" && rss.serviceName != "" && MustWait(span) ==>
                  && (forall name :: Knows(ms, span, name) ==> v == Emit(Labelled(rss, span, expireTime, name)))
                  && ((forall name :: !Knows(ms, span, name)) ==> v == Park(Labelled(rss, span, expireTime, ""))))
  {
    AnswerForIsTheName(ms, Labelled(rss, span, expireTime, ""));
  }

  // ---------------------------------------------------------------- one call

  lemma {:induction false} EmittedMembers(ms: Mappings, rss: ResourceSpans, n: nat, expireTime: int, r: ResourceSpan)
    requires n <= |rss.spans|
    ensures r in EmittedFrom(ms, rss, n, expireTime)
       <==> exists k :: 0 <= k < n && Judge(ms, rss, rss.spans[k], expireTime) == Emit(r)
  {
    if n > 0 {
      EmittedMembers(ms, rss, n - 1, expireTime, r);
    }
  }

  lemma {:induction false} ParkedMembers(ms: Mappings, rss: ResourceSpans, n: nat, expireTime: int, r: ResourceSpan)
    requires n <= |rss.spans|
    ensures r in ParkedFrom(ms, rss, n, expireTime)
       <==> exists k :: 0 <= k < n && Judge(ms, rss, rss.spans[k], expireTime) == Park(r)
  {
    if n > 0 {
      ParkedMembers(ms, rss, n - 1, expireTime, r);
    }
  }

  // What one span of the batch becomes.
  ghost predicate Becomes(ms: Mappings, batch: seq<ResourceSpans>, n: nat, expireTime: int, v: Verdict)
    requires n <= |batch|
  {
    exists i, k :: 0 <= i < n && 0 <= k < |batch[i].spans| && Judge(ms, batch[i], batch[i].spans[k], expireTime) == v
  }

  lemma BecomesOneMore(ms: Mappings, batch: seq<ResourceSpans>, n: nat, expireTime: int, v: Verdict)
    requires n < |batch|
    ensures Becomes(ms, batch, n + 1, expireTime, v)
       <==> Becomes(ms, batch, n, expireTime, v)
            || exists k :: 0 <= k < |batch[n].spans| && Judge(ms, batch[n], batch[n].spans[k], expireTime) == v
  {
  }

  lemma {:induction false} AllEmittedMembers(ms: Mappings, batch: seq<ResourceSpans>, n: nat, expireTime: int,
                                             r: ResourceSpan)
    requires n <= |batch|
    ensures r in AllEmitted(ms, batch, n, expireTime) <==> Becomes(ms, batch, n, expireTime, Emit(r))
  {
    if n > 0 {
      AllEmittedMembers(ms, batch, n - 1, expireTime, r);
      EmittedMembers(ms, batch[n - 1], |batch[n - 1].spans|, expireTime, r);
      BecomesOneMore(ms, batch, n - 1, expireTime, Emit(r));
    }
  }

  lemma {:induction false} AllParkedMembers(ms: Mappings, batch: seq<ResourceSpans>, n: nat, expireTime: int,
                                            r: ResourceSpan)
    requires n <= |batch|
    ensures r in AllParked(ms, batch, n, expireTime) <==> Becomes(ms, batch, n, expireTime, Park(r))
  {
    if n > 0 {
      AllParkedMembers(ms, batch, n - 1, expireTime, r);
      ParkedMembers(ms, batch[n - 1], |batch[n - 1].spans|, expireTime, r);
      BecomesOneMore(ms, batch, n - 1, expireTime, Park(r));
    }
  }

  lemma {:induction false} ResolvedMembers(pending: seq<ResourceSpan>, ms: Mappings, touched: set<TraceId>,
                                           r: ResourceSpan)
    ensures r in Resolved(pending, ms, touched)
       <==> exists p :: p in pending && p.span.traceId in touched && AnswerFor(ms, p) != ""
                         && r == p.(entryUrl := AnswerFor(ms, p))
    ensures r in Unresolved(pending, ms, touched)
       <==> r in pending && !(r.span.traceId in touched && AnswerFor(ms, r) != "")
  {
    if pending != [] {
      var n := |pending| - 1;
      assert pending == pending[..n] + [pending[n]];
      ResolvedMembers(pending[..n], ms, touched, r);
    }
  }

  ghost predicate AllWait(pending: seq<ResourceSpan>) {
    forall p :: p in pending ==> MustWait(p.span)
  }

  // What a call does to the mappings and the spans.
  ghost predicate Matches(s: State, batch: seq<ResourceSpans>, expireTime: int, s': State, result: seq<ResourceSpan>) {
    var ms, touched := Mapped(s.mappings, AllSpans(batch)), Traces(AllSpans(batch));
    && s'.mappings == ms
    && result == Resolved(s.pending, ms, touched) + AllEmitted(ms, batch, |batch|, expireTime)
    && s'.pending == Unresolved(s.pending, ms, touched) + AllParked(ms, batch, |batch|, expireTime)
  }

  lemma MatchNextMatches(s: System, hold: nat, s': System, batch: seq<ResourceSpans>, result: seq<ResourceSpan>)
    requires MatchNext(s, hold, s', batch, result)
    ensures Matches(s.state, batch, s'.clock + hold, s'.state, result)
  {
  }

  // Every returned span carries its URL, and comes from the batch or from the spans that waited.
  lemma ReturnedIsRight(s: State, batch: seq<ResourceSpans>, expireTime: int, s': State, result: seq<ResourceSpan>,
                        r: ResourceSpan)
    requires Matches(s, batch, expireTime, s', result) && AllWait(s.pending) && r in result
    ensures RightUrl(s'.mappings, r)
    ensures FromBatch(batch, expireTime, r) || exists p :: p in s.pending && r == p.(entryUrl := r.entryUrl)
  {
    var ms, touched := s'.mappings, Traces(AllSpans(batch));
    ResolvedMembers(s.pending, ms, touched, r);
    AllEmittedMembers(ms, batch, |batch|, expireTime, r);
    if r in Resolved(s.pending, ms, touched) {
      var p :| p in s.pending && AnswerFor(ms, p) != "" && r == p.(entryUrl := AnswerFor(ms, p));
      AnswerForIsTheName(ms, p);
    } else {
      BatchIsRight(ms, batch, expireTime, r);
    }
  }

  lemma BatchIsRight(ms: Mappings, batch: seq<ResourceSpans>, expireTime: int, r: ResourceSpan)
    requires Becomes(ms, batch, |batch|, expireTime, Emit(r))
    ensures RightUrl(ms, r) && FromBatch(batch, expireTime, r)
  {
    var i, k :| 0 <= i < |batch| && 0 <= k < |batch[i].spans|
        && Judge(ms, batch[i], batch[i].spans[k], expireTime) == Emit(r);
    VerdictIsRight(ms, batch[i], batch[i].spans[k], expireTime);
    AnswerForIsTheName(ms, Labelled(batch[i], batch[i].spans[k], expireTime, ""));
  }

  // Every span that waits afterwards did before, or comes from the batch without a URL: it must wait, and
  // its entry span is not known.
  lemma WaitingIsRight(s: State, batch: seq<ResourceSpans>, expireTime: int, s': State, result: seq<ResourceSpan>,
                       p: ResourceSpan)
    requires Matches(s, batch, expireTime, s', result) && p in s'.pending
    ensures || p in s.pending
            || (&& FromBatch(batch, expireTime, p) && p.entryUrl == "" && MustWait(p.span)
                && forall name :: !Knows(s'.mappings, p.span, name))
  {
    var ms, touched := s'.mappings, Traces(AllSpans(batch));
    ResolvedMembers(s.pending, ms, touched, p);
    AllParkedMembers(ms, batch, |batch|, expireTime, p);
    if p !in s.pending {
      var i, k :| 0 <= i < |batch| && 0 <= k < |batch[i].spans|
          && Judge(ms, batch[i], batch[i].spans[k], expireTime) == Park(p);
      VerdictIsRight(ms, batch[i], batch[i].spans[k], expireTime);
      AnswerForIsTheName(ms, p);
    }
  }

  // A span of the batch that is its own entry is returned; any other client or producer span is returned
  // with the name of its entry span if that is known, and else waits and is not returned.
  lemma BatchIsReturnedOrWaits(s: State, batch: seq<ResourceSpans>, expireTime: int, s': State,
                               result: seq<ResourceSpan>, i: nat, k: nat)
    requires Matches(s, batch, expireTime, s', result) && AllWait(s.pending)
    requires i < |batch| && k < |batch[i].spans| && batch[i].pid != "" && batch[i].serviceName != ""
    ensures var rss, span := batch[i], batch[i].spans[k];
            && (IsOwnEntry(span) ==> Labelled(rss, span, expireTime, span.name) in result)
            && (MustWait(span) ==>
                  && (forall name :: Knows(s'.mappings, span, name) ==> Labelled(rss, span, expireTime, name) in result)
                  && ((forall name :: !Knows(s'.mappings, span, name)) ==>
                        && Labelled(rss, span, expireTime, "") in s'.pending
                        && forall r :: r in result ==> r.span != span))
  {
    var ms, rss, span := s'.mappings, batch[i], batch[i].spans[k];
    VerdictIsRight(ms, rss, span, expireTime);
    var v := Judge(ms, rss, span, expireTime);
    assert Becomes(ms, batch, |batch|, expireTime, v);
    if v.Emit? {
      AllEmittedMembers(ms, batch, |batch|, expireTime, v.out);
    } else if v.Park? {
      AllParkedMembers(ms, batch, |batch|, expireTime, v.parked);
    }
    if MustWait(span) && forall name :: !Knows(ms, span, name) {
      NotReturned(s, batch, expireTime, s', result, span);
    }
  }

  // ---------------------------------------------------------------- every run

  lemma StepKeepsWaiting(s: System, hold: nat, s': System)
    requires OnlyWaiting(s) && NextStep(s, hold, s')
    ensures OnlyWaiting(s')
  {
    if batch, result :| MatchNext(s, hold, s', batch, result) {
      MatchNextMatches(s, hold, s', batch, result);
      forall p | p in s'.state.pending ensures MustWait(p.span) {
        WaitingIsRight(s.state, batch, s'.clock + hold, s'.state, result, p);
      }
    }
  }

  ghost predicate OnlyWaiting(s: System) {
    AllWait(s.state.pending)
  }

  // Only client and producer spans below another span ever wait.
  lemma ReachableWait(s: System, size: nat, hold: nat)
    requires Reachable(s, size, hold)
    ensures OnlyWaiting(s)
  {
    var b: seq<System> :| IsRun(b, size, hold) && b[|b| - 1] == s;
    RunWaits(b, size, hold);
  }

  lemma RunWaits(b: seq<System>, size: nat, hold: nat)
    requires IsRun(b, size, hold)
    ensures OnlyWaiting(b[|b| - 1])
  {
    forall j | 0 <= j < |b| - 1 && OnlyWaiting(b[j]) ensures OnlyWaiting(b[j + 1]) {
      assert LinkedAt(b, hold, j);
      StepKeepsWaiting(b[j], hold, b[j + 1]);
    }
    HoldsAlong(b, OnlyWaiting, |b| - 1);
  }

  // A span that waits is returned by the first call after which its entry span is known, with the name of
  // that span, and by no earlier one.
  lemma ReturnedWhenKnown(s: System, size: nat, hold: nat, s': System, batch: seq<ResourceSpans>,
                          result: seq<ResourceSpan>, p: ResourceSpan)
    requires Reachable(s, size, hold) && MatchNext(s, hold, s', batch, result) && p in s.state.pending
    ensures forall name :: !Knows(s.state.mappings, p.span, name)
    ensures forall name :: Knows(s'.state.mappings, p.span, name) ==> p.(entryUrl := name) in result
    ensures (forall name :: !Knows(s'.state.mappings, p.span, name)) ==>
              p in s'.state.pending && forall r :: r in result ==> r.span != p.span
  {
    ReachableWait(s, size, hold);
    StillUnknown(s, size, hold, p);
    StepReturns(s, hold, s', batch, result, p);
  }

  lemma StepReturns(s: System, hold: nat, s': System, batch: seq<ResourceSpans>, result: seq<ResourceSpan>,
                    p: ResourceSpan)
    requires MatchNext(s, hold, s', batch, result) && OnlyWaiting(s) && p in s.state.pending
    requires AnswerFor(s.state.mappings, p) == ""
    ensures forall name :: Knows(s'.state.mappings, p.span, name) ==> p.(entryUrl := name) in result
    ensures (forall name :: !Knows(s'.state.mappings, p.span, name)) ==>
              p in s'.state.pending && forall r :: r in result ==> r.span != p.span
  {
    MatchNextMatches(s, hold, s', batch, result);
    CallReturns(s.state, batch, s'.clock + hold, s'.state, result, p);
  }

  lemma CallReturns(s: State, batch: seq<ResourceSpans>, expireTime: int, s': State, result: seq<ResourceSpan>,
                    p: ResourceSpan)
    requires Matches(s, batch, expireTime, s', result) && AllWait(s.pending) && p in s.pending
    requires AnswerFor(s.mappings, p) == ""
    ensures forall name :: Knows(s'.mappings, p.span, name) ==> p.(entryUrl := name) in result
    ensures (forall name :: !Knows(s'.mappings, p.span, name)) ==>
              p in s'.pending && forall r :: r in result ==> r.span != p.span
  {
    var ms, touched := s'.mappings, Traces(AllSpans(batch));
    AnswerForIsTheName(ms, p);
    ResolvedMembers(s.pending, ms, touched, p);
    ResolvedMembers(s.pending, ms, touched, p.(entryUrl := AnswerFor(ms, p)));
    if p.span.traceId !in touched {
      MappedKeepsOthers(s.mappings, AllSpans(batch), p.span.traceId);
    }
    if forall name :: !Knows(ms, p.span, name) {
      NotReturned(s, batch, expireTime, s', result, p.span);
    }
  }

  lemma NotReturned(s: State, batch: seq<ResourceSpans>, expireTime: int, s': State, result: seq<ResourceSpan>,
                    span: Span)
    requires Matches(s, batch, expireTime, s', result) && AllWait(s.pending)
    requires MustWait(span) && forall name :: !Knows(s'.mappings, span, name)
    ensures forall r :: r in result ==> r.span != span
  {
    forall r | r in result ensures r.span != span {
      ReturnedIsRight(s, batch, expireTime, s', result, r);
    }
  }

  lemma StillUnknown(s: System, size: nat, hold: nat, p: ResourceSpan)
    requires Reachable(s, size, hold) && p in s.state.pending
    ensures AnswerFor(s.state.mappings, p) == ""
    ensures forall name :: !Knows(s.state.mappings, p.span, name)
  {
    var i :| 0 <= i < |s.state.pending| && s.state.pending[i] == p;
    NoPendingSpanIsResolvable(s, size, hold, i);
    AnswerForIsTheName(s.state.mappings, p);
  }
}
