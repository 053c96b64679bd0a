// The order of the spans: neither what a call returns nor what it leaves waiting is ever out of order.
module EntryUrlOrder {
  import opened EntryUrlMatching
  import opened EntryUrlRuns

  // These spans are at these places, in order.
  ghost predicate InOrder(kept: seq<Span>, all: seq<Span>, at: seq<nat>) {
    && |at| == |kept|
    && (forall i :: 0 <= i < |at| ==> at[i] < |all| && kept[i] == all[at[i]])
    && (forall i, j :: 0 <= i < j < |at| ==> at[i] < at[j])
  }

  function ShiftedBy(at: seq<nat>, n: nat): seq<nat> {
    seq(|at|, i requires 0 <= i < |at| => at[i] + n)
  }

  lemma InOrderConcat(a: seq<Span>, all: seq<Span>, at: seq<nat>, b: seq<Span>, more: seq<Span>, bt: seq<nat>)
    requires InOrder(a, all, at) && InOrder(b, more, bt)
    ensures InOrder(a + b, all + more, at + ShiftedBy(bt, |all|))
  {
  }

  lemma InOrderOne(rs: seq<ResourceSpan>, span: Span) returns (at: seq<nat>)
    requires rs == [] || (|rs| == 1 && rs[0].span == span)
    ensures InOrder(SpansIn(rs), [span], at)
  {
    at := if rs == [] then [] else [0];
  }

  lemma SpansInTwo(a: seq<ResourceSpan>, b: seq<ResourceSpan>)
    ensures SpansIn(a + b) == SpansIn(a) + SpansIn(b)
  {
  }

  lemma {:induction false} JudgedInOrder(ms: Mappings, rss: ResourceSpans, n: nat, expireTime: int)
    returns (out: seq<nat>, stay: seq<nat>)
    requires n <= |rss.spans|
    ensures InOrder(SpansIn(EmittedFrom(ms, rss, n, expireTime)), rss.spans[..n], out)
    ensures InOrder(SpansIn(ParkedFrom(ms, rss, n, expireTime)), rss.spans[..n], stay)
  {
    if n == 0 {
      out, stay := [], [];
    } else {
      var m, span := n - 1, rss.spans[n - 1];
      var emitted, parked := EmittedFrom(ms, rss, m, expireTime), ParkedFrom(ms, rss, m, expireTime);
      var v := Judge(ms, rss, span, expireTime);
      var out0, stay0 := JudgedInOrder(ms, rss, m, expireTime);
      assert rss.spans[..n] == rss.spans[..m] + [span];
      out := OneMoreInOrder(emitted, rss.spans[..m], out0, Emitted(v), span);
      stay := OneMoreInOrder(parked, rss.spans[..m], stay0, Parked(v), span);
    }
  }

  lemma OneMoreInOrder(rs: seq<ResourceSpan>, all: seq<Span>, at: seq<nat>, more: seq<ResourceSpan>, span: Span)
    returns (now: seq<nat>)
    requires InOrder(SpansIn(rs), all, at) && (more == [] || (|more| == 1 && more[0].span == span))
    ensures InOrder(SpansIn(rs + more), all + [span], now)
  {
    var last := InOrderOne(more, span);
    InOrderConcat(SpansIn(rs), all, at, SpansIn(more), [span], last);
    SpansInTwo(rs, more);
    now := at + ShiftedBy(last, |all|);
  }

  lemma {:induction false} BatchInOrder(ms: Mappings, batch: seq<ResourceSpans>, n: nat, expireTime: int)
    returns (out: seq<nat>, stay: seq<nat>)
    requires n <= |batch|
    ensures InOrder(SpansIn(AllEmitted(ms, batch, n, expireTime)), AllSpans(batch[..n]), out)
    ensures InOrder(SpansIn(AllParked(ms, batch, n, expireTime)), AllSpans(batch[..n]), stay)
  {
    if n == 0 {
      out, stay := [], [];
    } else {
      var rss := batch[n - 1];
      var k := |rss.spans|;
      var out0, stay0 := BatchInOrder(ms, batch, n - 1, expireTime);
      var out1, stay1 := JudgedInOrder(ms, rss, k, expireTime);
      assert rss.spans[..k] == rss.spans && batch[..n][..n - 1] == batch[..n - 1];
      var all := AllSpans(batch[..n - 1]);
      assert AllSpans(batch[..n]) == all + rss.spans;
      out := BothInOrder(AllEmitted(ms, batch, n - 1, expireTime), all, out0, EmittedFrom(ms, rss, k, expireTime),
                         rss.spans, out1);
      stay := BothInOrder(AllParked(ms, batch, n - 1, expireTime), all, stay0, ParkedFrom(ms, rss, k, expireTime),
                          rss.spans, stay1);
    }
  }

  lemma BothInOrder(a: seq<ResourceSpan>, all: seq<Span>, at: seq<nat>, b: seq<ResourceSpan>, more: seq<Span>,
                    bt: seq<nat>) returns (now: seq<nat>)
    requires InOrder(SpansIn(a), all, at) && InOrder(SpansIn(b), more, bt)
    ensures InOrder(SpansIn(a + b), all + more, now)
  {
    InOrderConcat(SpansIn(a), all, at, SpansIn(b), more, bt);
    SpansInTwo(a, b);
    now := at + ShiftedBy(bt, |all|);
  }

  lemma {:induction false} PendingInOrder(pending: seq<ResourceSpan>, ms: Mappings, touched: set<TraceId>)
    returns (out: seq<nat>, stay: seq<nat>)
    ensures InOrder(SpansIn(Resolved(pending, ms, touched)), SpansIn(pending), out)
    ensures InOrder(SpansIn(Unresolved(pending, ms, touched)), SpansIn(pending), stay)
  {
    if pending == [] {
      out, stay := [], [];
    } else {
      var n := |pending| - 1;
      var p, before := pending[n], pending[..n];
      var out0, stay0 := PendingInOrder(before, ms, touched);
      assert pending == before + [p];
      assert SpansIn(pending) == SpansIn(before) + [p.span];
      var found := p.span.traceId in touched && AnswerFor(ms, p) != "";
      out := OneMoreInOrder(Resolved(before, ms, touched), SpansIn(before), out0,
                            if found then [p.(entryUrl := AnswerFor(ms, p))] else [], p.span);
      stay := OneMoreInOrder(Unresolved(before, ms, touched), SpansIn(before), stay0, if found then [] else [p],
                             p.span);
    }
  }

  // What a call returns and what it leaves waiting are each in the order of the spans that waited, followed
  // by those of the batch.
  lemma CallKeepsOrder(s: State, batch: seq<ResourceSpans>, expireTime: int, s': State, result: seq<ResourceSpan>)
    returns (out: seq<nat>, stay: seq<nat>)
    requires MatchStep(s, batch, expireTime, s', result)
    ensures InOrder(SpansIn(result), SpansIn(s.pending) + AllSpans(batch), out)
    ensures InOrder(SpansIn(s'.pending), SpansIn(s.pending) + AllSpans(batch), stay)
  {
    var ms, touched, n := s'.mappings, Traces(AllSpans(batch)), |batch|;
    var out0, stay0 := PendingInOrder(s.pending, ms, touched);
    var out1, stay1 := BatchInOrder(ms, batch, n, expireTime);
    assert batch[..n] == batch;
    out := BothInOrder(Resolved(s.pending, ms, touched), SpansIn(s.pending), out0,
                       AllEmitted(ms, batch, n, expireTime), AllSpans(batch), out1);
    stay := BothInOrder(Unresolved(s.pending, ms, touched), SpansIn(s.pending), stay0,
                        AllParked(ms, batch, n, expireTime), AllSpans(batch), stay1);
  }
}
