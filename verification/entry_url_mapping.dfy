// Exit spans and the entry span each belongs to: the per-trace mapping and the matching of a batch.
module EntryUrlMatching {
  import opened Wrappers

  datatype TraceId = TraceId(text: string)
  datatype SpanId = SpanId(id: nat)

  const EMPTY_SPAN_ID := SpanId(0)

  datatype Kind = Unspecified | Internal | Server | Client | Producer | Consumer

  datatype Span = Span(traceId: TraceId, spanId: SpanId, parentSpanId: SpanId, name: string, kind: Kind) {
    predicate IsEntry() {
      kind == Server || kind == Consumer
    }

    predicate IsExit() {
      kind == Client || kind == Producer
    }
  }

  // One ResourceSpans, with what GetResourceAttribute finds; the scopes' spans one after the other.
  datatype ResourceSpans = ResourceSpans(pid: string, serviceName: string, containerId: string, spans: seq<Span>) {
    predicate Attributed() {
      pid != "" && serviceName != ""
    }
  }

  datatype ResourceSpan = ResourceSpan(
    expireTime: int, pid: string, containerId: string, serviceName: string, entryUrl: string, span: Span)

  // ---------------------------------------------------------------- one trace's mapping

  datatype Mapping = Mapping(names: map<SpanId, string>, parents: map<SpanId, SpanId>)

  function AddSpan(m: Mapping, span: Span): Mapping {
    if span.IsEntry() then m.(names := m.names[span.spanId := span.name])
    else if !span.IsExit() then m.(parents := m.parents[span.spanId := span.parentSpanId])
    else m
  }

  // AddMapping
  function Added(m: Mapping, spans: seq<Span>): Mapping {
    if spans == [] then m else AddSpan(Added(m, spans[..|spans| - 1]), spans[|spans| - 1])
  }

  // GetEntrySpanName with at most `fuel` calls; None when these are not enough.
  function LookUp(m: Mapping, id: SpanId, fuel: nat): Option<string>
    decreases fuel
  {
    if fuel == 0 then None
    else if id in m.names then Some(m.names[id])
    else if id in m.parents then LookUp(m, m.parents[id], fuel - 1)
    else Some("")
  }

  // The recursion comes to an end.
  ghost predicate Ends(m: Mapping, id: SpanId) {
    exists fuel: nat :: LookUp(m, id, fuel).Some?
  }

  lemma {:induction false} MoreFuel(m: Mapping, id: SpanId, f: nat, g: nat)
    requires f <= g && LookUp(m, id, f).Some?
    ensures LookUp(m, id, g) == LookUp(m, id, f)
    decreases f
  {
    if id !in m.names && id in m.parents {
      MoreFuel(m, m.parents[id], f - 1, g - 1);
    }
  }

  ghost function Least(m: Mapping, id: SpanId, f: nat): (l: nat)
    requires LookUp(m, id, f).Some?
    ensures LookUp(m, id, l).Some? && forall g: nat :: g < l ==> LookUp(m, id, g).None?
  {
    if f > 0 && LookUp(m, id, f - 1).Some? then Least(m, id, f - 1)
    else
      assert forall g: nat :: g < f ==> LookUp(m, id, g).None? by {
        forall g: nat | g < f ensures LookUp(m, id, g).None? {
          if LookUp(m, id, g).Some? {
            MoreFuel(m, id, g, f - 1);
          }
        }
      }
      f
  }

  // How many calls the look-up takes.
  ghost function Calls(m: Mapping, id: SpanId): (n: nat)
    requires Ends(m, id)
    ensures LookUp(m, id, n).Some? && forall g: nat :: g < n ==> LookUp(m, id, g).None?
  {
    var f: nat :| LookUp(m, id, f).Some?;
    Least(m, id, f)
  }

  lemma ParentEnds(m: Mapping, id: SpanId)
    requires Ends(m, id) && id !in m.names && id in m.parents
    ensures Ends(m, m.parents[id]) && Calls(m, m.parents[id]) < Calls(m, id)
  {
    var n := Calls(m, id);
    assert LookUp(m, m.parents[id], n - 1).Some?;
  }

  // ---------------------------------------------------------------- when look-ups end

  // A rank that falls from every inner span to its parent: no parent cycle but through entry spans.
  ghost predicate Ranked(m: Mapping, rank: SpanId -> nat) {
    forall id :: id in m.parents && id !in m.names ==> rank(m.parents[id]) < rank(id)
  }

  lemma {:induction false} RankedEnds(m: Mapping, rank: SpanId -> nat, id: SpanId)
    requires Ranked(m, rank)
    ensures LookUp(m, id, rank(id) + 1).Some?
    decreases rank(id)
  {
    if id !in m.names && id in m.parents {
      RankedEnds(m, rank, m.parents[id]);
      MoreFuel(m, m.parents[id], rank(m.parents[id]) + 1, rank(id));
    }
  }

  // Every look-up in a mapping ends if and only if some rank falls along the parents of its inner spans.
  lemma EveryLookUpEndsExactly(m: Mapping)
    ensures (forall id :: Ends(m, id)) <==> exists rank: SpanId -> nat :: Ranked(m, rank)
  {
    if forall id :: Ends(m, id) {
      ghost var rank: SpanId -> nat := id => if Ends(m, id) then Calls(m, id) else 0;
      forall id | id in m.parents && id !in m.names ensures rank(m.parents[id]) < rank(id) {
        ParentEnds(m, id);
      }
      assert Ranked(m, rank);
    }
    if rank: SpanId -> nat :| Ranked(m, rank) {
      forall id ensures Ends(m, id) {
        RankedEnds(m, rank, id);
      }
    }
  }

  // A chain of parents through spans that are no entry spans, up to the last one.
  ghost predicate Chain(m: Mapping, path: seq<SpanId>) {
    && path != []
    && forall i {:trigger path[i]} :: 0 <= i < |path| - 1 ==>
         path[i] !in m.names && path[i] in m.parents && path[i + 1] == m.parents[path[i]]
  }

  // Somewhere the chain comes by an id for the second time.
  ghost predicate Repeats(path: seq<SpanId>) {
    exists i, j :: 0 <= i < j < |path| && path[i] == path[j]
  }

  lemma {:induction false} ChainFalls(m: Mapping, path: seq<SpanId>, k: nat)
    requires Chain(m, path) && k < |path| && Ends(m, path[0])
    ensures Ends(m, path[k])
    ensures forall i :: 0 <= i < k ==> Ends(m, path[i]) && Calls(m, path[k]) < Calls(m, path[i])
  {
    if k > 0 {
      ChainFalls(m, path, k - 1);
      assert path[k - 1] !in m.names && path[k - 1] in m.parents && path[k] == m.parents[path[k - 1]];
      ParentEnds(m, path[k - 1]);
    }
  }

  lemma ParentLoops(m: Mapping, id: SpanId)
    requires !Ends(m, id)
    ensures id !in m.names && id in m.parents && !Ends(m, m.parents[id])
  {
    assert LookUp(m, id, 1).None?;
    forall fuel: nat ensures LookUp(m, m.parents[id], fuel).None? {
      assert LookUp(m, id, fuel + 1).None?;
    }
  }

  lemma {:induction false} LongChain(m: Mapping, id: SpanId, n: nat) returns (path: seq<SpanId>)
    requires !Ends(m, id)
    ensures |path| == n + 1 && path[0] == id && Chain(m, path) && forall i :: 0 <= i <= n ==> path[i] in m.parents
    decreases n
  {
    ParentLoops(m, id);
    if n == 0 {
      path := [id];
    } else {
      var rest := LongChain(m, m.parents[id], n - 1);
      path := [id] + rest;
      forall i | 0 <= i < n
        ensures path[i] !in m.names && path[i] in m.parents && path[i + 1] == m.parents[path[i]]
      {
        if i > 0 {
          assert path[i] == rest[i - 1];
        }
      }
    }
  }

  lemma {:induction false} DistinctFits(path: seq<SpanId>, all: set<SpanId>)
    requires !Repeats(path) && forall i :: 0 <= i < |path| ==> path[i] in all
    ensures |path| <= |all|
    decreases |path|
  {
    if path != [] {
      var n := |path| - 1;
      DistinctFits(path[..n], all - {path[n]});
    }
  }

  // A look-up does not end if and only if the parents of its id come by some id twice.
  lemma LookUpLoopsExactly(m: Mapping, id: SpanId)
    ensures !Ends(m, id) <==> exists path :: Chain(m, path) && path[0] == id && Repeats(path)
  {
    if path :| Chain(m, path) && path[0] == id && Repeats(path) {
      var i, j :| 0 <= i < j < |path| && path[i] == path[j];
      if Ends(m, id) {
        ChainFalls(m, path, j);
      }
    }
    if !Ends(m, id) {
      var path := LongChain(m, id, |m.parents.Keys|);
      if !Repeats(path) {
        DistinctFits(path, m.parents.Keys);
      }
    }
  }

  lemma CutChain(m: Mapping, path: seq<SpanId>, i: nat, j: nat)
    requires Chain(m, path) && i < j < |path|
    ensures var cut := path[i..j + 1]; Chain(m, cut) && |cut| > 1 && cut[0] == path[i] && cut[|cut| - 1] == path[j]
  {
    var cut := path[i..j + 1];
    forall k | 0 <= k < |cut| - 1
      ensures cut[k] !in m.names && cut[k] in m.parents && cut[k + 1] == m.parents[cut[k]]
    {
      assert cut[k] == path[i + k];
    }
  }

  // Some look-up does not end if and only if some chain of parents ends where it began.
  lemma SomeLookUpLoopsExactly(m: Mapping)
    ensures (exists id :: !Ends(m, id))
       <==> exists cycle :: Chain(m, cycle) && |cycle| > 1 && cycle[|cycle| - 1] == cycle[0]
  {
    if id :| !Ends(m, id) {
      LookUpLoopsExactly(m, id);
      var path :| Chain(m, path) && path[0] == id && Repeats(path);
      var i, j :| 0 <= i < j < |path| && path[i] == path[j];
      CutChain(m, path, i, j);
    }
    if cycle :| Chain(m, cycle) && |cycle| > 1 && cycle[|cycle| - 1] == cycle[0] {
      assert Repeats(cycle);
      LookUpLoopsExactly(m, cycle[0]);
    }
  }

  // One inner span that names itself as parent is enough: a look-up from it never ends.
  lemma {:induction false} SelfParentNeverAnswers(m: Mapping, span: Span, fuel: nat)
    requires span.parentSpanId == span.spanId && !span.IsEntry() && !span.IsExit() && span.spanId !in m.names
    ensures LookUp(AddSpan(m, span), span.spanId, fuel).None?
  {
    if fuel > 0 {
      SelfParentNeverAnswers(m, span, fuel - 1);
    }
  }

  // ---------------------------------------------------------------- the answer

  // The walk to the nearest entry span, through span ids in `left` only.
  function Walk(m: Mapping, id: SpanId, left: set<SpanId>): string
    decreases left
  {
    if id in m.names then m.names[id]
    else if id in m.parents && id in left then Walk(m, m.parents[id], left - {id})
    else ""
  }

  // What GetEntrySpanName answers if it ends; "" when there is no answer.
  function EntryName(m: Mapping, id: SpanId): string {
    Walk(m, id, m.parents.Keys)
  }

  // A walk with enough ids left finds what the look-up finds.
  lemma {:induction false} WalkIsLookUp(m: Mapping, id: SpanId, left: set<SpanId>)
    requires Ends(m, id)
    requires forall k :: k in m.parents && Ends(m, k) && Calls(m, k) <= Calls(m, id) ==> k in left
    ensures LookUp(m, id, Calls(m, id)) == Some(Walk(m, id, left))
    decreases Calls(m, id)
  {
    if id !in m.names && id in m.parents {
      ParentEnds(m, id);
      WalkIsLookUp(m, m.parents[id], left - {id});
      MoreFuel(m, m.parents[id], Calls(m, m.parents[id]), Calls(m, id) - 1);
    }
  }

  lemma EntryNameIsLookUp(m: Mapping, id: SpanId)
    requires Ends(m, id)
    ensures LookUp(m, id, Calls(m, id)) == Some(EntryName(m, id))
  {
    WalkIsLookUp(m, id, m.parents.Keys);
  }

  // The recursive equation the code follows.
  lemma EntryNameStep(m: Mapping, id: SpanId)
    requires Ends(m, id) && id !in m.names && id in m.parents
    ensures Ends(m, m.parents[id]) && EntryName(m, id) == EntryName(m, m.parents[id])
  {
    ParentEnds(m, id);
    EntryNameIsLookUp(m, id);
    EntryNameIsLookUp(m, m.parents[id]);
    MoreFuel(m, m.parents[id], Calls(m, m.parents[id]), Calls(m, id) - 1);
  }

  // An answer is only found by a look-up that ends.
  lemma {:induction false} FoundEnds(m: Mapping, id: SpanId, left: set<SpanId>)
    requires Walk(m, id, left) != ""
    ensures LookUp(m, id, |left| + 1) == Some(Walk(m, id, left))
    decreases left
  {
    if id !in m.names {
      FoundEnds(m, m.parents[id], left - {id});
    }
  }

  // The answer is the name of the first entry span on the parent chain, or "" if the chain leaves
  // the mapping first.
  lemma {:induction false} NearestEntryAncestor(m: Mapping, id: SpanId) returns (path: seq<SpanId>)
    requires Ends(m, id)
    ensures Chain(m, path) && path[0] == id
    ensures var top := path[|path| - 1];
            || (top in m.names && EntryName(m, id) == m.names[top])
            || (top !in m.names && top !in m.parents && EntryName(m, id) == "")
    decreases Calls(m, id)
  {
    if id in m.names || id !in m.parents {
      path := [id];
    } else {
      ParentEnds(m, id);
      EntryNameStep(m, id);
      var rest := NearestEntryAncestor(m, m.parents[id]);
      path := [id] + rest;
      forall i | 0 <= i < |path| - 1
        ensures path[i] !in m.names && path[i] in m.parents && path[i + 1] == m.parents[path[i]]
      {
        if i > 0 {
          assert path[i] == rest[i - 1];
        }
      }
    }
  }

  // The span ids a mapping knows.
  function Known(m: Mapping): set<SpanId> {
    m.names.Keys + m.parents.Keys
  }

  lemma {:induction false} AddedKeepsKnown(m: Mapping, spans: seq<Span>, id: SpanId)
    requires forall s :: s in spans ==> s.IsExit() || s.spanId != id
    ensures id in Added(m, spans).names <==> id in m.names
    ensures id in m.names ==> Added(m, spans).names[id] == m.names[id]
    ensures id in Added(m, spans).parents <==> id in m.parents
    ensures id in m.parents ==> Added(m, spans).parents[id] == m.parents[id]
  {
    if spans != [] {
      AddedKeepsKnown(m, spans[..|spans| - 1], id);
    }
  }

  lemma {:induction false} FoundIsStable(m: Mapping, spans: seq<Span>, id: SpanId, fuel: nat)
    requires forall s :: s in spans && !s.IsExit() ==> s.spanId !in Known(m)
    requires LookUp(m, id, fuel).Some? && LookUp(m, id, fuel).value != ""
    ensures LookUp(Added(m, spans), id, fuel) == LookUp(m, id, fuel)
    decreases fuel
  {
    AddedKeepsKnown(m, spans, id);
    if id !in m.names {
      FoundIsStable(m, spans, m.parents[id], fuel - 1);
    }
  }

  // With unique span ids, an answer once found stays the answer whatever is added later.
  lemma AnswersAreStable(m: Mapping, spans: seq<Span>, id: SpanId)
    requires forall s :: s in spans && !s.IsExit() ==> s.spanId !in Known(m)
    requires EntryName(m, id) != ""
    ensures Ends(Added(m, spans), id) && EntryName(Added(m, spans), id) == EntryName(m, id)
  {
    var m', fuel := Added(m, spans), |m.parents.Keys| + 1;
    FoundEnds(m, id, m.parents.Keys);
    FoundIsStable(m, spans, id, fuel);
    EntryNameIsLookUp(m', id);
    MoreFuel(m', id, Calls(m', id), fuel);
  }

  lemma {:induction false} AddedConcat(m: Mapping, a: seq<Span>, b: seq<Span>)
    ensures Added(Added(m, a), b) == Added(m, a + b)
  {
    if b == [] {
      assert a + b == a;
    } else {
      AddedConcat(m, a, b[..|b| - 1]);
      assert (a + b)[..|a + b| - 1] == a + b[..|b| - 1];
    }
  }

  // ---------------------------------------------------------------- all traces' mappings

  type Mappings = map<TraceId, Mapping>

  function MappingOf(ms: Mappings, t: TraceId): Mapping {
    if t in ms then ms[t] else Mapping(map[], map[])
  }

  function SpansOf(spans: seq<Span>, t: TraceId): seq<Span> {
    if spans == [] then []
    else SpansOf(spans[..|spans| - 1], t) + if spans[|spans| - 1].traceId == t then [spans[|spans| - 1]] else []
  }

  function Traces(spans: seq<Span>): set<TraceId> {
    set s | s in spans :: s.traceId
  }

  function Mapped(ms: Mappings, spans: seq<Span>): Mappings {
    map t | t in ms.Keys + Traces(spans) :: Added(MappingOf(ms, t), SpansOf(spans, t))
  }

  function AllSpans(batch: seq<ResourceSpans>): seq<Span> {
    if batch == [] then [] else AllSpans(batch[..|batch| - 1]) + batch[|batch| - 1].spans
  }

  lemma {:induction false} SpansOfConcat(a: seq<Span>, b: seq<Span>, t: TraceId)
    ensures SpansOf(a + b, t) == SpansOf(a, t) + SpansOf(b, t)
  {
    if b == [] {
      assert a + b == a;
    } else {
      SpansOfConcat(a, b[..|b| - 1], t);
      assert (a + b)[..|a + b| - 1] == a + b[..|b| - 1];
    }
  }

  lemma SpansOfTraceOneMore(spans: seq<Span>, span: Span, t: TraceId)
    ensures SpansOf(spans + [span], t) == SpansOf(spans, t) + if span.traceId == t then [span] else []
    ensures Traces(spans + [span]) == Traces(spans) + {span.traceId}
  {
    assert (spans + [span])[..|spans|] == spans;
  }

  lemma {:induction false} SpansOfTrace(spans: seq<Span>, t: TraceId)
    ensures forall s :: s in SpansOf(spans, t) <==> s in spans && s.traceId == t
    ensures SpansOf(spans, t) == [] <==> t !in Traces(spans)
  {
    if spans != [] {
      var n := |spans| - 1;
      SpansOfTrace(spans[..n], t);
      SpansOfTraceOneMore(spans[..n], spans[n], t);
      assert spans == spans[..n] + [spans[n]];
    }
  }

  lemma MappedEntry(ms: Mappings, spans: seq<Span>, t: TraceId)
    ensures MappingOf(Mapped(ms, spans), t) == Added(MappingOf(ms, t), SpansOf(spans, t))
  {
    SpansOfTrace(spans, t);
  }

  lemma MappedTwice(ms: Mappings, a: seq<Span>, b: seq<Span>, t: TraceId)
    ensures Added(MappingOf(Mapped(ms, a), t), SpansOf(b, t)) == Added(MappingOf(ms, t), SpansOf(a + b, t))
  {
    MappedEntry(ms, a, t);
    SpansOfConcat(a, b, t);
    AddedConcat(MappingOf(ms, t), SpansOf(a, t), SpansOf(b, t));
  }

  lemma MappedConcat(ms: Mappings, a: seq<Span>, b: seq<Span>)
    ensures Mapped(Mapped(ms, a), b) == Mapped(ms, a + b)
  {
    assert Traces(a + b) == Traces(a) + Traces(b);
    forall t ensures Added(MappingOf(Mapped(ms, a), t), SpansOf(b, t)) == Added(MappingOf(ms, t), SpansOf(a + b, t)) {
      MappedTwice(ms, a, b, t);
    }
  }

  // ---------------------------------------------------------------- matching a batch

  function AnswerFor(ms: Mappings, p: ResourceSpan): string {
    if p.span.traceId in ms then EntryName(ms[p.span.traceId], p.span.parentSpanId) else ""
  }

  // The pending spans of the touched traces that now have an answer, with it; and the others.
  function Resolved(pending: seq<ResourceSpan>, ms: Mappings, touched: set<TraceId>): seq<ResourceSpan> {
    if pending == [] then []
    else
      var p := pending[|pending| - 1];
      Resolved(pending[..|pending| - 1], ms, touched)
      + if p.span.traceId in touched && AnswerFor(ms, p) != "" then [p.(entryUrl := AnswerFor(ms, p))] else []
  }

  function Unresolved(pending: seq<ResourceSpan>, ms: Mappings, touched: set<TraceId>): seq<ResourceSpan> {
    if pending == [] then []
    else
      var p := pending[|pending| - 1];
      Unresolved(pending[..|pending| - 1], ms, touched)
      + if p.span.traceId in touched && AnswerFor(ms, p) != "" then [] else [p]
  }

  datatype Verdict = Skip | Emit(out: ResourceSpan) | Park(parked: ResourceSpan)

  // What becomes of one span of the batch, once the whole batch is mapped.
  function Judge(ms: Mappings, rss: ResourceSpans, span: Span, expireTime: int): Verdict {
    var labelled := ResourceSpan(expireTime, rss.pid, rss.containerId, rss.serviceName, "", span);
    if !rss.Attributed() then Skip
    else if span.IsExit() then
      if span.parentSpanId == EMPTY_SPAN_ID then Emit(labelled.(entryUrl := span.name))
      else if AnswerFor(ms, labelled) == "" then Park(labelled)
      else Emit(labelled.(entryUrl := AnswerFor(ms, labelled)))
    else if span.IsEntry() then Emit(labelled.(entryUrl := span.name))
    else Skip
  }

  function Emitted(v: Verdict): seq<ResourceSpan> {
    if v.Emit? then [v.out] else []
  }

  function Parked(v: Verdict): seq<ResourceSpan> {
    if v.Park? then [v.parked] else []
  }

  function EmittedFrom(ms: Mappings, rss: ResourceSpans, n: nat, expireTime: int): seq<ResourceSpan>
    requires n <= |rss.spans|
  {
    if n == 0 then []
    else EmittedFrom(ms, rss, n - 1, expireTime) + Emitted(Judge(ms, rss, rss.spans[n - 1], expireTime))
  }

  function ParkedFrom(ms: Mappings, rss: ResourceSpans, n: nat, expireTime: int): seq<ResourceSpan>
    requires n <= |rss.spans|
  {
    if n == 0 then []
    else ParkedFrom(ms, rss, n - 1, expireTime) + Parked(Judge(ms, rss, rss.spans[n - 1], expireTime))
  }

  function AllEmitted(ms: Mappings, batch: seq<ResourceSpans>, n: nat, expireTime: int): seq<ResourceSpan>
    requires n <= |batch|
  {
    if n == 0 then []
    else AllEmitted(ms, batch, n - 1, expireTime)
         + EmittedFrom(ms, batch[n - 1], |batch[n - 1].spans|, expireTime)
  }

  function AllParked(ms: Mappings, batch: seq<ResourceSpans>, n: nat, expireTime: int): seq<ResourceSpan>
    requires n <= |batch|
  {
    if n == 0 then []
    else AllParked(ms, batch, n - 1, expireTime)
         + ParkedFrom(ms, batch[n - 1], |batch[n - 1].spans|, expireTime)
  }

  // The look-ups of a call end: those of the pending spans it re-checks ...
  ghost predicate PendingEnds(ms: Mappings, pending: seq<ResourceSpan>, touched: set<TraceId>) {
    forall i :: 0 <= i < |pending| && pending[i].span.traceId in touched && pending[i].span.traceId in ms ==>
      Ends(ms[pending[i].span.traceId], pending[i].span.parentSpanId)
  }

  // ... and those of the exit spans of the batch.
  ghost predicate SpanEnds(ms: Mappings, rss: ResourceSpans, span: Span) {
    rss.Attributed() && span.IsExit() && span.parentSpanId != EMPTY_SPAN_ID && span.traceId in ms ==>
      Ends(ms[span.traceId], span.parentSpanId)
  }

  ghost predicate BatchEnds(ms: Mappings, batch: seq<ResourceSpans>) {
    forall i, k :: 0 <= i < |batch| && 0 <= k < |batch[i].spans| ==> SpanEnds(ms, batch[i], batch[i].spans[k])
  }

  // Without parent cycles every call ends.
  lemma AcyclicCallsEnd(ms: Mappings, pending: seq<ResourceSpan>, touched: set<TraceId>, batch: seq<ResourceSpans>)
    requires forall t :: t in ms ==> exists rank: SpanId -> nat :: Ranked(ms[t], rank)
    ensures PendingEnds(ms, pending, touched) && BatchEnds(ms, batch)
  {
    forall t, id | t in ms ensures Ends(ms[t], id) {
      EveryLookUpEndsExactly(ms[t]);
    }
  }

  // ---------------------------------------------------------------- incremental matching is full matching

  // No pending span has an answer under its trace's current mapping.
  ghost predicate NoneResolvable(ms: Mappings, pending: seq<ResourceSpan>) {
    forall i :: 0 <= i < |pending| ==> AnswerFor(ms, pending[i]) == ""
  }

  // What re-checking every pending span would give.
  function EveryTrace(pending: seq<ResourceSpan>): set<TraceId> {
    set p | p in pending :: p.span.traceId
  }

  lemma MappedKeepsOthers(ms: Mappings, spans: seq<Span>, t: TraceId)
    requires t !in Traces(spans)
    ensures t in Mapped(ms, spans) <==> t in ms
    ensures t in ms ==> Mapped(ms, spans)[t] == ms[t]
  {
    SpansOfTrace(spans, t);
  }

  // Checking only the traces of the batch resolves the same pending spans as checking all of them.
  lemma {:induction false} IncrementalIsFull(ms: Mappings, pending: seq<ResourceSpan>, spans: seq<Span>,
                                             all: set<TraceId>)
    requires NoneResolvable(ms, pending)
    requires forall i :: 0 <= i < |pending| ==> pending[i].span.traceId in all
    ensures Resolved(pending, Mapped(ms, spans), Traces(spans)) == Resolved(pending, Mapped(ms, spans), all)
    ensures Unresolved(pending, Mapped(ms, spans), Traces(spans)) == Unresolved(pending, Mapped(ms, spans), all)
  {
    if pending != [] {
      var n := |pending| - 1;
      var p := pending[n];
      IncrementalIsFull(ms, pending[..n], spans, all);
      if p.span.traceId !in Traces(spans) {
        MappedKeepsOthers(ms, spans, p.span.traceId);
        assert AnswerFor(ms, p) == "";
      }
    }
  }

  lemma {:induction false} UnresolvedAreUnresolvable(ms: Mappings, pending: seq<ResourceSpan>, all: set<TraceId>)
    requires forall i :: 0 <= i < |pending| ==> pending[i].span.traceId in all
    ensures NoneResolvable(ms, Unresolved(pending, ms, all))
  {
    if pending != [] {
      UnresolvedAreUnresolvable(ms, pending[..|pending| - 1], all);
    }
  }

  lemma {:induction false} ParkedAreUnresolvable(ms: Mappings, rss: ResourceSpans, n: nat, expireTime: int)
    requires n <= |rss.spans|
    ensures NoneResolvable(ms, ParkedFrom(ms, rss, n, expireTime))
  {
    if n > 0 {
      ParkedAreUnresolvable(ms, rss, n - 1, expireTime);
      var v := Judge(ms, rss, rss.spans[n - 1], expireTime);
      if v.Park? {
        assert AnswerFor(ms, v.parked) == "";
      }
    }
  }

  lemma {:induction false} AllParkedAreUnresolvable(ms: Mappings, batch: seq<ResourceSpans>, n: nat, expireTime: int)
    requires n <= |batch|
    ensures NoneResolvable(ms, AllParked(ms, batch, n, expireTime))
  {
    if n > 0 {
      AllParkedAreUnresolvable(ms, batch, n - 1, expireTime);
      ParkedAreUnresolvable(ms, batch[n - 1], |batch[n - 1].spans|, expireTime);
    }
  }
}
