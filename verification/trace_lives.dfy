// How long a trace is known to the blocker, in terms of the spans and sweeps alone, and which spans of a
// batch go on.
module TraceLives {
  import opened TraceBlocking

  // ---------------------------------------------------------------- when a trace is forgotten

  // A sweep at event m spares a trace last seen at event l, given its idle time.
  predicate Spared(events: seq<Event>, l: nat, m: nat, ttl: int)
    requires l < |events| && m < |events|
  {
    events[m].Sweep? ==> events[m].now - events[l].now < ttl
  }

  // The idle time of a trace is that of blocked ones if its last span, event l, was dropped.
  function IdleTime(cfg: Config, events: seq<Event>, id: TraceId, l: nat): int
    requires l < |events|
  {
    if Drops(cfg, Before(cfg, events, l), id, events[l].now) then cfg.blockedIdleTTL else cfg.idleTTL
  }

  // What is held of a trace whose last span was event l: all of it, until a sweep finds it idle for too long.
  ghost predicate HeldSince(cfg: Config, events: seq<Event>, id: TraceId, l: nat, i: nat)
    requires l < i <= |events|
  {
    var traces, after := Before(cfg, events, i), Before(cfg, events, l + 1);
    && id in after
    && (id in traces <==> forall m: nat :: l < m < i ==> Spared(events, l, m, IdleTime(cfg, events, id, l)))
    && (id in traces ==> traces[id] == after[id])
  }

  lemma SpanIsHeld(cfg: Config, events: seq<Event>, id: TraceId, l: nat)
    requires l < |events| && IsSpan(events[l], id) && id.text != ""
    ensures var after := Before(cfg, events, l + 1);
            && id in after && after[id].lastSeen == events[l].now
            && (after[id].isBlocked <==> Drops(cfg, Before(cfg, events, l), id, events[l].now))
  {
    BeforeStep(cfg, events, l);
  }

  lemma OtherSpansKeep(cfg: Config, traces: Traces, e: Event, id: TraceId)
    requires e.Span? && e.id != id
    ensures id in Step(cfg, traces, e) <==> id in traces
    ensures id in traces ==> Step(cfg, traces, e)[id] == traces[id]
  {
  }

  // A sweep forgets a trace exactly if it was last seen its idle time ago or longer.
  lemma SweptExactly(cfg: Config, traces: Traces, now: int, id: TraceId)
    requires id in traces
    ensures id in Step(cfg, traces, Sweep(now))
            <==> now - traces[id].lastSeen < if traces[id].isBlocked then cfg.blockedIdleTTL else cfg.idleTTL
    ensures id in Step(cfg, traces, Sweep(now)) ==> Step(cfg, traces, Sweep(now))[id] == traces[id]
  {
  }

  lemma ForgottenStays(cfg: Config, traces: Traces, e: Event, id: TraceId)
    requires id !in traces && !IsSpan(e, id)
    ensures id !in Step(cfg, traces, e)
  {
  }

  // A trace is held exactly as long as every sweep since its last span came before its idle time was over.
  lemma {:induction false} HeldExactly(cfg: Config, events: seq<Event>, id: TraceId, l: nat, i: nat)
    requires l < i <= |events| && IsSpan(events[l], id) && id.text != ""
    requires forall m :: l < m < i ==> !IsSpan(events[m], id)
    ensures HeldSince(cfg, events, id, l, i)
  {
    SpanIsHeld(cfg, events, id, l);
    if l + 1 < i {
      HeldExactly(cfg, events, id, l, i - 1);
      HeldOneMore(cfg, events, id, l, i - 1);
    }
  }

  lemma StepSpares(cfg: Config, events: seq<Event>, id: TraceId, l: nat, i: nat)
    requires l < i < |events| && IsSpan(events[l], id) && id.text != ""
    requires !IsSpan(events[i], id) && HeldSince(cfg, events, id, l, i)
    ensures id in Before(cfg, events, i + 1)
            <==> id in Before(cfg, events, i) && Spared(events, l, i, IdleTime(cfg, events, id, l))
    ensures id in Before(cfg, events, i + 1) ==> Before(cfg, events, i + 1)[id] == Before(cfg, events, i)[id]
  {
    BeforeStep(cfg, events, i);
    var traces, e := Before(cfg, events, i), events[i];
    if id !in traces {
      ForgottenStays(cfg, traces, e, id);
    } else {
      SpanIsHeld(cfg, events, id, l);
      match e
      case Span(_, _) => OtherSpansKeep(cfg, traces, e, id);
      case Sweep(now) => SweptExactly(cfg, traces, now, id);
    }
  }

  lemma HeldOneMore(cfg: Config, events: seq<Event>, id: TraceId, l: nat, i: nat)
    requires l < i < |events| && IsSpan(events[l], id) && id.text != ""
    requires !IsSpan(events[i], id) && HeldSince(cfg, events, id, l, i)
    ensures HeldSince(cfg, events, id, l, i + 1)
  {
    StepSpares(cfg, events, id, l, i);
    var ttl := IdleTime(cfg, events, id, l);
    assert (forall m: nat :: l < m < i + 1 ==> Spared(events, l, m, ttl))
           <==> Spared(events, l, i, ttl) && forall m: nat :: l < m < i ==> Spared(events, l, m, ttl);
  }

  // ---------------------------------------------------------------- when a span is dropped

  // Event a is the span of the trace that began what is held of it at event b.
  ghost predicate BeganAt(cfg: Config, events: seq<Event>, id: TraceId, a: nat, b: nat)
    requires a < b <= |events|
  {
    && IsSpan(events[a], id) && id !in Before(cfg, events, a)
    && forall m: nat :: a < m <= b ==> id in Before(cfg, events, m)
  }

  lemma {:induction false} FirstSeenIs(cfg: Config, events: seq<Event>, id: TraceId, a: nat, b: nat)
    requires a < b <= |events| && BeganAt(cfg, events, id, a, b) && id.text != ""
    ensures id in Before(cfg, events, b) && Before(cfg, events, b)[id].firstSeen == events[a].now
  {
    BeforeStep(cfg, events, b - 1);
    if a < b - 1 {
      FirstSeenIs(cfg, events, id, a, b - 1);
    }
  }

  lemma {:induction false} HeldHasBegun(cfg: Config, events: seq<Event>, id: TraceId, b: nat) returns (a: nat)
    requires b <= |events| && id in Before(cfg, events, b)
    ensures a < b && BeganAt(cfg, events, id, a, b)
  {
    assert events[..0] == [];
    BeforeStep(cfg, events, b - 1);
    if id in Before(cfg, events, b - 1) {
      a := HeldHasBegun(cfg, events, id, b - 1);
    } else {
      a := b - 1;
      assert IsSpan(events[a], id);
    }
  }

  // A span is dropped exactly if what is held of its trace began the threshold or more before it.
  lemma DroppedIff(cfg: Config, events: seq<Event>, id: TraceId, b: nat)
    requires 0 < cfg.blockThreshold && Clocked(events) && b < |events| && IsSpan(events[b], id) && id.text != ""
    ensures Drops(cfg, Before(cfg, events, b), id, events[b].now)
            <==> exists a: nat :: a < b && BeganAt(cfg, events, id, a, b)
                                  && events[b].now - events[a].now >= cfg.blockThreshold
  {
    if id in Before(cfg, events, b) {
      BlockedExactly(cfg, events[..b], events[b].now);
      var a := HeldHasBegun(cfg, events, id, b);
      FirstSeenIs(cfg, events, id, a, b);
      forall c: nat | c < b && BeganAt(cfg, events, id, c, b) ensures events[c].now == events[a].now {
        FirstSeenIs(cfg, events, id, c, b);
      }
    }
  }

  // Spans without a trace id are neither held nor dropped.
  lemma NamelessIsLetThrough(cfg: Config, traces: Traces, id: TraceId, now: int)
    requires id.text == ""
    ensures Step(cfg, traces, Span(id, now)) == traces && !Drops(cfg, traces, id, now)
  {
  }

  // ---------------------------------------------------------------- batches

  function EventsOf(spans: seq<BatchSpan>): seq<Event> {
    seq(|spans|, i requires 0 <= i < |spans| => Span(spans[i].id, spans[i].seenAt))
  }

  // What a batch leaves is what its spans leave, one event each.
  lemma {:induction false} BatchIsEvents(cfg: Config, events: seq<Event>, spans: seq<BatchSpan>)
    ensures TracesAfter(cfg, After(cfg, events), spans) == After(cfg, events + EventsOf(spans))
  {
    if spans == [] {
      assert events + EventsOf(spans) == events;
    } else {
      var n := |spans| - 1;
      BatchIsEvents(cfg, events, spans[..n]);
      var all := events + EventsOf(spans);
      assert all[..|all| - 1] == events + EventsOf(spans[..n]);
    }
  }

  // The span at this place of the batch is dropped.
  predicate DropsAt(cfg: Config, traces: Traces, spans: seq<BatchSpan>, i: nat)
    requires i < |spans|
  {
    Drops(cfg, TracesAfter(cfg, traces, spans[..i]), spans[i].id, spans[i].seenAt)
  }

  // The places of a batch, in order, that hold these spans.
  ghost predicate Places(spans: seq<BatchSpan>, part: seq<BatchSpan>, at: seq<nat>) {
    && |at| == |part|
    && (forall k :: 0 <= k < |at| ==> at[k] < |spans| && part[k] == spans[at[k]])
    && forall j, k :: 0 <= j < k < |at| ==> at[j] < at[k]
  }

  lemma PlacesOneMore(spans: seq<BatchSpan>, part: seq<BatchSpan>, at: seq<nat>)
    requires spans != [] && Places(spans[..|spans| - 1], part, at)
    ensures Places(spans, part, at) && Places(spans, part + [spans[|spans| - 1]], at + [|spans| - 1])
    ensures forall k :: 0 <= k < |at| ==> at[k] < |spans| - 1
  {
  }

  lemma DropsAtPrefix(cfg: Config, traces: Traces, spans: seq<BatchSpan>, n: nat, i: nat)
    requires i < n <= |spans|
    ensures DropsAt(cfg, traces, spans[..n], i) <==> DropsAt(cfg, traces, spans, i)
  {
    assert spans[..n][..i] == spans[..i];
  }

  // The spans that go on are those at the places where nothing is dropped, in order, the dropped ones the others.
  lemma {:induction false} KeptAre(cfg: Config, traces: Traces, spans: seq<BatchSpan>)
    returns (kept: seq<nat>, dropped: seq<nat>)
    ensures Places(spans, Kept(cfg, traces, spans), kept) && Places(spans, Dropped(cfg, traces, spans), dropped)
    ensures forall i: nat :: i < |spans| ==> (i in kept <==> !DropsAt(cfg, traces, spans, i))
    ensures forall i: nat :: i < |spans| ==> (i in dropped <==> DropsAt(cfg, traces, spans, i))
  {
    if spans == [] {
      kept, dropped := [], [];
    } else {
      var n := |spans| - 1;
      var before := spans[..n];
      kept, dropped := KeptAre(cfg, traces, before);
      PlacesOneMore(spans, Kept(cfg, traces, before), kept);
      PlacesOneMore(spans, Dropped(cfg, traces, before), dropped);
      forall i: nat | i < n ensures DropsAt(cfg, traces, before, i) <==> DropsAt(cfg, traces, spans, i) {
        DropsAtPrefix(cfg, traces, spans, n, i);
      }
      if DropsAt(cfg, traces, spans, n) {
        dropped := dropped + [n];
      } else {
        kept := kept + [n];
      }
    }
  }
}
