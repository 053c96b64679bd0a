// The objects of the entry-URL cache, updated in place.
module EntryUrlCaching {
  import opened EntryUrlMatching
  import opened EntryUrlRuns

  class WriteableBatch {
    var batch: seq<TraceId>

    constructor ()
      ensures batch == []
    {
      batch := [];
    }

    method AddToBatch(data: TraceId)
      modifies this
      ensures batch == old(batch) + [data]
    {
      batch := batch + [data];
    }

    method PickBatch() returns (result: seq<TraceId>)
      modifies this
      ensures result == old(batch) && batch == []
    {
      result := batch;
      batch := [];
    }
  }

  // A ring of size + 1 slots, the slot at writeIndex always empty.
  class Buckets {
    const buckets: array<seq<TraceId>>
    var writeIndex: nat

    ghost predicate Valid()
      reads this, buckets
    {
      writeIndex < buckets.Length && buckets[writeIndex] == []
    }

    static function Slot(from: nat, i: nat, length: nat): nat {
      if from + 1 + i < length then from + 1 + i else from + 1 + i - length
    }

    // The batches waiting in the ring, the next to come out first.
    static function LineOf(slots: seq<seq<TraceId>>, w: nat): (line: seq<seq<TraceId>>)
      requires w < |slots|
      ensures |line| == |slots| - 1
    {
      seq(|slots| - 1, i requires 0 <= i < |slots| - 1 => slots[Slot(w, i, |slots|)])
    }

    ghost function Line(): (line: seq<seq<TraceId>>)
      requires Valid()
      reads this, buckets
      ensures |line| == buckets.Length - 1
    {
      LineOf(buckets[..], writeIndex)
    }

    constructor (size: nat)
      ensures Valid() && fresh(buckets) && Line() == seq(size, i => [])
    {
      buckets := new seq<TraceId>[size + 1](i => []);
      writeIndex := size;
      new;
      assert buckets[..] == seq(size + 1, i => []);
    }

    method CopyAndGetBatch(batch: seq<TraceId>) returns (result: seq<TraceId>)
      requires Valid()
      modifies this, buckets
      ensures Valid()
      ensures [result] + Line() == old(Line()) + [batch]
    {
      ghost var slots, w := buckets[..], writeIndex;
      buckets[writeIndex] := batch;
      writeIndex := writeIndex + 1;
      if writeIndex >= buckets.Length {
        writeIndex := 0;
      }
      result := buckets[writeIndex];
      buckets[writeIndex] := [];
      Advance(slots, w, batch);
    }

    // One call moves every waiting batch one place on.
    static lemma Advance(slots: seq<seq<TraceId>>, w: nat, batch: seq<TraceId>)
      requires w < |slots|
      ensures var w' := if w + 1 >= |slots| then 0 else w + 1;
              var slots' := slots[w := batch][w' := []];
              [slots[w := batch][w']] + LineOf(slots', w') == LineOf(slots, w) + [batch]
    {
      var n := |slots|;
      var w' := if w + 1 >= n then 0 else w + 1;
      var slots' := slots[w := batch][w' := []];
      var left, right := [slots[w := batch][w']] + LineOf(slots', w'), LineOf(slots, w) + [batch];
      forall i | 0 <= i < n ensures left[i] == right[i] {
        if i > 0 {
          assert Slot(w', i - 1, n) == if i == n - 1 then w else Slot(w, i, n);
        }
      }
    }
  }

  class EntryUrlMapping {
    var entrySpanNames: map<SpanId, string>
    var pspanIds: map<SpanId, SpanId>

    ghost function View(): Mapping
      reads this
    {
      Mapping(entrySpanNames, pspanIds)
    }

    constructor ()
      ensures View() == Mapping(map[], map[])
    {
      entrySpanNames, pspanIds := map[], map[];
    }

    method AddMapping(spans: seq<Span>)
      modifies this
      ensures View() == Added(old(View()), spans)
    {
      for i := 0 to |spans|
        invariant View() == Added(old(View()), spans[..i])
      {
        var span := spans[i];
        assert spans[..i + 1][..i] == spans[..i];
        if span.kind == Server || span.kind == Consumer {
          entrySpanNames := entrySpanNames[span.spanId := span.name];
        } else if span.kind != Client && span.kind != Producer {
          pspanIds := pspanIds[span.spanId := span.parentSpanId];
        }
      }
      assert spans[..|spans|] == spans;
    }

    // Called where the recursion ends.
    function GetEntrySpanName(spanId: SpanId): (name: string)
      requires Ends(View(), spanId)
      reads this
      ensures name == EntryName(View(), spanId)
      decreases Calls(View(), spanId)
    {
      if spanId in entrySpanNames then entrySpanNames[spanId]
      else if spanId in pspanIds then
        ParentEnds(View(), spanId);
        EntryNameStep(View(), spanId);
        GetEntrySpanName(pspanIds[spanId])
      else ""
    }
  }

  ghost predicate Grouped(groups: map<TraceId, seq<Span>>, spans: seq<Span>) {
    && groups.Keys == Traces(spans)
    && forall t :: t in groups ==> groups[t] == SpansOf(spans, t)
  }

  lemma OneSpanMore(spans: seq<Span>, i: nat, t: TraceId)
    requires i < |spans|
    ensures SpansOf(spans[..i + 1], t) == SpansOf(spans[..i], t) + if spans[i].traceId == t then [spans[i]] else []
    ensures t !in Traces(spans[..i]) ==> SpansOf(spans[..i], t) == []
    ensures t in Traces(spans[..i + 1]) <==> t in Traces(spans[..i]) || t == spans[i].traceId
  {
    assert spans[..i + 1][..i] == spans[..i];
    assert spans[..i + 1] == spans[..i] + [spans[i]];
    SpansOfTrace(spans[..i], t);
  }

  lemma GroupedOneMore(groups: map<TraceId, seq<Span>>, spans: seq<Span>, i: nat)
    requires i < |spans| && Grouped(groups, spans[..i])
    ensures var key := spans[i].traceId;
            Grouped(groups[key := (if key in groups then groups[key] else []) + [spans[i]]], spans[..i + 1])
  {
    forall t: TraceId
      ensures SpansOf(spans[..i + 1], t) == SpansOf(spans[..i], t) + if spans[i].traceId == t then [spans[i]] else []
      ensures t !in Traces(spans[..i]) ==> SpansOf(spans[..i], t) == []
      ensures t in Traces(spans[..i + 1]) <==> t in Traces(spans[..i]) || t == spans[i].traceId
    {
      OneSpanMore(spans, i, t);
    }
  }

  method GroupSpansByTraceId(spans: seq<Span>) returns (idToSpans: map<TraceId, seq<Span>>)
    ensures Grouped(idToSpans, spans)
  {
    idToSpans := map[];
    for i := 0 to |spans|
      invariant Grouped(idToSpans, spans[..i])
    {
      var key := spans[i].traceId;
      GroupedOneMore(idToSpans, spans, i);
      idToSpans := idToSpans[key := (if key in idToSpans then idToSpans[key] else []) + [spans[i]]];
    }
    assert spans[..|spans|] == spans;
  }

  class EntryUrlCache {
    var entryUrlMap: map<TraceId, EntryUrlMapping>
    var unMatchedSpans: seq<ResourceSpan>
    const idBatch: WriteableBatch
    const idBuckets: Buckets
    var toCleanIds: seq<TraceId>  // the local variable of a CleanExpireBuckets under way
    const expireUnMatcheTime: nat

    // The mapping objects; no two traces share one.
    ghost function Objects(): set<EntryUrlMapping>
      reads this`entryUrlMap
    {
      set t | t in entryUrlMap :: entryUrlMap[t]
    }

    ghost predicate Distinct()
      reads this`entryUrlMap
    {
      forall t, u :: t in entryUrlMap && u in entryUrlMap && t != u ==> entryUrlMap[t] != entryUrlMap[u]
    }

    ghost function Views(): Mappings
      reads this`entryUrlMap, Objects()
    {
      map t | t in entryUrlMap :: entryUrlMap[t].View()
    }

    ghost predicate Valid()
      reads this`entryUrlMap, Objects(), idBuckets, idBuckets.buckets
    {
      Distinct() && idBuckets.Valid()
    }

    ghost function State(): State
      requires idBuckets.Valid()
      reads this, Objects(), idBatch, idBuckets, idBuckets.buckets
    {
      EntryUrlRuns.State(Views(), unMatchedSpans, idBatch.batch, idBuckets.Line(), toCleanIds)
    }

    constructor (cacheUrlTime: nat, expireTime: nat)
      ensures Valid() && expireUnMatcheTime == expireTime
      ensures State() == EntryUrlRuns.State(map[], [], [], seq(cacheUrlTime, i => []), [])
    {
      entryUrlMap, unMatchedSpans, toCleanIds := map[], [], [];
      idBatch := new WriteableBatch();
      idBuckets := new Buckets(cacheUrlTime);
      expireUnMatcheTime := expireTime;
    }

    // The mapping of a trace, created and recorded if there was none.
    method MappingFor(id: TraceId) returns (mapping: EntryUrlMapping)
      requires Distinct()
      modifies this`entryUrlMap, idBatch
      ensures Distinct() && fresh(Objects() - old(Objects()))
      ensures id in entryUrlMap && mapping == entryUrlMap[id]
      ensures Views() == old(Views())[id := MappingOf(old(Views()), id)]
      ensures forall t :: t in old(entryUrlMap) ==> t in entryUrlMap && entryUrlMap[t] == old(entryUrlMap)[t]
      ensures idBatch.batch == if id in old(entryUrlMap) then old(idBatch.batch) else old(idBatch.batch) + [id]
    {
      if id in entryUrlMap {
        mapping := entryUrlMap[id];
      } else {
        mapping := new EntryUrlMapping();
        entryUrlMap := entryUrlMap[id := mapping];
        idBatch.AddToBatch(id);
      }
    }

    method Extend(id: TraceId, mapping: EntryUrlMapping, spans: seq<Span>)
      requires Distinct() && id in entryUrlMap && mapping == entryUrlMap[id]
      modifies mapping
      ensures Views() == old(Views())[id := Added(old(mapping.View()), spans)]
    {
      mapping.AddMapping(spans);
      forall t | t in entryUrlMap && t != id ensures entryUrlMap[t].View() == old(entryUrlMap[t].View()) {
        assert entryUrlMap[t] != mapping;
      }
    }

    // One trace of one ResourceSpans.
    method MapTrace(id: TraceId, spans: seq<Span>) returns (mapping: EntryUrlMapping)
      requires Distinct()
      modifies this`entryUrlMap, Objects(), idBatch
      ensures Distinct() && fresh(Objects() - old(Objects()))
      ensures Views() == old(Views())[id := Added(MappingOf(old(Views()), id), spans)]
      ensures id in entryUrlMap && mapping == entryUrlMap[id]
      ensures forall t :: t in old(entryUrlMap) ==> t in entryUrlMap && entryUrlMap[t] == old(entryUrlMap)[t]
      ensures idBatch.batch == if id in old(entryUrlMap) then old(idBatch.batch) else old(idBatch.batch) + [id]
    {
      mapping := MappingFor(id);
      ghost var before := Views();
      assert mapping.View() == before[id];
      Extend(id, mapping, spans);
    }

    // Where the inner loop stands when the groups in `rest` are still to be mapped.
    ghost predicate MappedSoFar(was: Mappings, ids: seq<TraceId>, groups: map<TraceId, seq<Span>>, rest: set<TraceId>,
                                cached: map<TraceId, EntryUrlMapping>, cachedTraces: map<TraceId, EntryUrlMapping>)
      reads this`entryUrlMap, Objects(), idBatch
    {
      && Views() == MappedExcept(was, groups, rest)
      && Aliased(cachedTraces) && cachedTraces.Keys == cached.Keys + (groups.Keys - rest)
      && Recorded(ids, idBatch.batch, groups.Keys - rest - was.Keys)
    }

    // One round of the inner loop: the trace's mapping is extended and remembered.
    method MapOneGroup(id: TraceId, ghost was: Mappings, ghost ids: seq<TraceId>, groups: map<TraceId, seq<Span>>,
                       ghost rest: set<TraceId>, ghost cached: map<TraceId, EntryUrlMapping>,
                       before: map<TraceId, EntryUrlMapping>)
      returns (cachedTraces: map<TraceId, EntryUrlMapping>)
      requires Distinct() && id in rest && id in groups && MappedSoFar(was, ids, groups, rest, cached, before)
      modifies this`entryUrlMap, Objects(), idBatch
      ensures Distinct() && fresh(Objects() - old(Objects()))
      ensures MappedSoFar(was, ids, groups, rest - {id}, cached, cachedTraces)
    {
      MappedOneMore(was, groups, rest, id);
      RecordedOneMore(ids, idBatch.batch, groups.Keys, rest, was, id);
      var mapping := MapTrace(id, groups[id]);
      cachedTraces := before[id := mapping];
      KeysOneMore(cached.Keys, groups.Keys, rest, id);
      assert cachedTraces.Keys == before.Keys + {id};
    }

    // The grouped traces, in the order the grouping map is ranged over.
    method MapGroups(groups: map<TraceId, seq<Span>>, cached: map<TraceId, EntryUrlMapping>)
      returns (cachedTraces: map<TraceId, EntryUrlMapping>)
      requires Distinct() && Aliased(cached)
      modifies this`entryUrlMap, Objects(), idBatch
      ensures Distinct() && fresh(Objects() - old(Objects()))
      ensures MappedSoFar(old(Views()), old(idBatch.batch), groups, {}, cached, cachedTraces)
    {
      cachedTraces := cached;
      var rest := groups.Keys;
      ghost var was, ids := Views(), idBatch.batch;
      MappedExceptAll(was, groups);
      assert groups.Keys - rest - was.Keys == {};
      while rest != {}
        invariant rest <= groups.Keys
        invariant Distinct() && fresh(Objects() - old(Objects()))
        invariant MappedSoFar(was, ids, groups, rest, cached, cachedTraces)
      {
        var id :| id in rest;
        cachedTraces := MapOneGroup(id, was, ids, groups, rest, cached, cachedTraces);
        rest := rest - {id};
      }
    }

    // One ResourceSpans.
    method MapResource(spans: seq<Span>, cached: map<TraceId, EntryUrlMapping>)
      returns (cachedTraces: map<TraceId, EntryUrlMapping>)
      requires Distinct() && Aliased(cached)
      modifies this`entryUrlMap, Objects(), idBatch
      ensures Distinct() && fresh(Objects() - old(Objects()))
      ensures Views() == Mapped(old(Views()), spans)
      ensures Aliased(cachedTraces) && cachedTraces.Keys == cached.Keys + Traces(spans)
      ensures Recorded(old(idBatch.batch), idBatch.batch, NewTraces(spans, old(Views())))
    {
      var idToSpans := GroupSpansByTraceId(spans);
      MappedForAll(Views(), spans, idToSpans);
      MappedExceptNone(Views(), idToSpans);
      cachedTraces := MapGroups(idToSpans, cached);
    }

    // Where the first loop stands after some of the spans.
    ghost predicate BatchMapped(was: Mappings, ids: seq<TraceId>, done: seq<Span>,
                                cachedTraces: map<TraceId, EntryUrlMapping>)
      reads this`entryUrlMap, Objects(), idBatch
    {
      && Views() == Mapped(was, done)
      && Aliased(cachedTraces) && cachedTraces.Keys == Traces(done)
      && Recorded(ids, idBatch.batch, NewTraces(done, was))
    }

    method MapOneResource(ghost was: Mappings, ghost ids: seq<TraceId>, ghost done: seq<Span>, spans: seq<Span>,
                          before: map<TraceId, EntryUrlMapping>) returns (cachedTraces: map<TraceId, EntryUrlMapping>)
      requires Distinct() && BatchMapped(was, ids, done, before)
      modifies this`entryUrlMap, Objects(), idBatch
      ensures Distinct() && fresh(Objects() - old(Objects()))
      ensures BatchMapped(was, ids, done + spans, cachedTraces)
    {
      ghost var now := idBatch.batch;
      cachedTraces := MapResource(spans, before);
      MappedConcat(was, done, spans);
      RecordedTwice(ids, now, idBatch.batch, done, spans, was);
    }

    // The first loop of GetMatchedResourceSpans.
    method MapBatch(batch: seq<ResourceSpans>) returns (cachedTraces: map<TraceId, EntryUrlMapping>)
      requires Distinct()
      modifies this`entryUrlMap, Objects(), idBatch
      ensures Distinct() && fresh(Objects() - old(Objects()))
      ensures BatchMapped(old(Views()), old(idBatch.batch), AllSpans(batch), cachedTraces)
    {
      cachedTraces := map[];
      ghost var was, ids := Views(), idBatch.batch;
      MappedNothing(was);
      for i := 0 to |batch|
        invariant Distinct() && fresh(Objects() - old(Objects()))
        invariant BatchMapped(was, ids, AllSpans(batch[..i]), cachedTraces)
      {
        assert batch[..i + 1][..i] == batch[..i];
        cachedTraces := MapOneResource(was, ids, AllSpans(batch[..i]), batch[i].spans, cachedTraces);
      }
      assert batch[..|batch|] == batch;
    }

    // Where the second loop stands once it has looked at the first `seen` spans of the list it found.
    ghost predicate Rechecked(was: seq<ResourceSpan>, ms: Mappings, touched: set<TraceId>, seen: nat, index: nat,
                              result: seq<ResourceSpan>)
      reads this`unMatchedSpans
    {
      && seen <= |was|
      && index == |Unresolved(was[..seen], ms, touched)|
      && unMatchedSpans == Unresolved(was[..seen], ms, touched) + was[seen..]
      && result == Resolved(was[..seen], ms, touched)
    }

    // What the mapping of a pending span's trace answers for it; "" if this call did not look at the trace.
    method Answer(cachedTraces: map<TraceId, EntryUrlMapping>, p: ResourceSpan) returns (entryUrl: string)
      requires Valid() && Aliased(cachedTraces)
      requires p.span.traceId in cachedTraces ==> Ends(Views()[p.span.traceId], p.span.parentSpanId)
      ensures entryUrl == if p.span.traceId in cachedTraces then AnswerFor(Views(), p) else ""
    {
      if p.span.traceId in cachedTraces {
        entryUrl := cachedTraces[p.span.traceId].GetEntrySpanName(p.span.parentSpanId);
      } else {
        entryUrl := "";
      }
    }

    // One round of the second loop: a pending span that now has an answer is taken out in place.
    method RecheckOne(cachedTraces: map<TraceId, EntryUrlMapping>, ghost was: seq<ResourceSpan>, ghost seen: nat,
                      index: nat,
                      before: seq<ResourceSpan>)
      returns (result: seq<ResourceSpan>, next: nat)
      requires Valid() && Aliased(cachedTraces) && seen < |was| && PendingEnds(Views(), was, cachedTraces.Keys)
      requires Rechecked(was, Views(), cachedTraces.Keys, seen, index, before)
      modifies this`unMatchedSpans
      ensures Views() == old(Views())
      ensures Rechecked(was, Views(), cachedTraces.Keys, seen + 1, next, result)
    {
      ghost var ms := Views();
      RemovedAt(was, ms, cachedTraces.Keys, seen);
      var unMatchedSpan := unMatchedSpans[index];
      var entryUrl := Answer(cachedTraces, unMatchedSpan);
      if entryUrl != "" {
        result := before + [unMatchedSpan.(entryUrl := entryUrl)];
        unMatchedSpans := unMatchedSpans[..index] + unMatchedSpans[index + 1..];
        next := index;
      } else {
        result := before;
        next := index + 1;
      }
      assert Views() == ms;
    }

    // The second loop: pending spans of the traces looked at that now have an answer are taken out of
    // the list in place.
    method RecheckPending(cachedTraces: map<TraceId, EntryUrlMapping>) returns (result: seq<ResourceSpan>)
      requires Valid() && Aliased(cachedTraces) && PendingEnds(Views(), unMatchedSpans, cachedTraces.Keys)
      modifies this`unMatchedSpans
      ensures Views() == old(Views())
      ensures result == Resolved(old(unMatchedSpans), Views(), cachedTraces.Keys)
      ensures unMatchedSpans == Unresolved(old(unMatchedSpans), Views(), cachedTraces.Keys)
    {
      result := [];
      ghost var was, ms := unMatchedSpans, Views();
      ghost var seen: nat := 0;
      var index: nat := 0;
      RecheckStarts(was, ms, cachedTraces.Keys);
      while index < |unMatchedSpans|
        invariant Views() == ms
        invariant Rechecked(was, ms, cachedTraces.Keys, seen, index, result)
        decreases |was| - seen
      {
        result, index := RecheckOne(cachedTraces, was, seen, index, result);
        seen := seen + 1;
      }
      assert was[..seen] == was;
    }

    // The third loop, for one span.
    method JudgeSpan(rss: ResourceSpans, span: Span, expireTime: int) returns (result: seq<ResourceSpan>)
      requires Valid() && rss.Attributed() && span.traceId in entryUrlMap && SpanEnds(Views(), rss, span)
      modifies this`unMatchedSpans
      ensures Views() == old(Views())
      ensures result == Emitted(Judge(Views(), rss, span, expireTime))
      ensures unMatchedSpans == old(unMatchedSpans) + Parked(Judge(Views(), rss, span, expireTime))
    {
      result := [];
      var labelled := ResourceSpan(expireTime, rss.pid, rss.containerId, rss.serviceName, "", span);
      if span.kind == Client || span.kind == Producer {
        if span.traceId in entryUrlMap {
          var mapping := entryUrlMap[span.traceId];
          if span.parentSpanId == EMPTY_SPAN_ID {
            result := [labelled.(entryUrl := span.name)];
          } else {
            var entryUrl := mapping.GetEntrySpanName(span.parentSpanId);
            assert entryUrl == AnswerFor(Views(), labelled);
            if entryUrl == "" {
              unMatchedSpans := unMatchedSpans + [labelled];
            } else {
              result := [labelled.(entryUrl := entryUrl)];
            }
          }
        } else {
          assert false;
        }
      } else if span.kind == Consumer || span.kind == Server {
        result := [labelled.(entryUrl := span.name)];
      }
    }

    method JudgeResource(rss: ResourceSpans, expireTime: int) returns (result: seq<ResourceSpan>)
      requires Valid() && Traces(rss.spans) <= entryUrlMap.Keys
      requires forall k :: 0 <= k < |rss.spans| ==> SpanEnds(Views(), rss, rss.spans[k])
      modifies this`unMatchedSpans
      ensures Views() == old(Views())
      ensures result == EmittedFrom(Views(), rss, |rss.spans|, expireTime)
      ensures unMatchedSpans == old(unMatchedSpans) + ParkedFrom(Views(), rss, |rss.spans|, expireTime)
    {
      result := [];
      if rss.pid == "" || rss.serviceName == "" {
        NothingFrom(Views(), rss, |rss.spans|, expireTime);
        return;
      }
      ghost var ms := Views();
      for k := 0 to |rss.spans|
        invariant Views() == ms && result == EmittedFrom(ms, rss, k, expireTime)
        invariant unMatchedSpans == old(unMatchedSpans) + ParkedFrom(ms, rss, k, expireTime)
      {
        assert rss.spans[k].traceId in Traces(rss.spans);
        var more := JudgeSpan(rss, rss.spans[k], expireTime);
        result := result + more;
      }
    }

    // Where the third loop stands after the first i ResourceSpans.
    ghost predicate Judged(was: seq<ResourceSpan>, ms: Mappings, batch: seq<ResourceSpans>, i: nat, expireTime: int,
                           result: seq<ResourceSpan>)
      reads this`unMatchedSpans
    {
      && i <= |batch|
      && result == AllEmitted(ms, batch, i, expireTime)
      && unMatchedSpans == was + AllParked(ms, batch, i, expireTime)
    }

    method JudgeOne(ghost was: seq<ResourceSpan>, batch: seq<ResourceSpans>, i: nat, expireTime: int,
                    before: seq<ResourceSpan>)
      returns (result: seq<ResourceSpan>)
      requires Valid() && i < |batch| && Traces(batch[i].spans) <= entryUrlMap.Keys && BatchEnds(Views(), batch)
      requires Judged(was, Views(), batch, i, expireTime, before)
      modifies this`unMatchedSpans
      ensures Views() == old(Views())
      ensures Judged(was, Views(), batch, i + 1, expireTime, result)
    {
      var more := JudgeResource(batch[i], expireTime);
      result := before + more;
    }

    // The third loop.
    method JudgeBatch(batch: seq<ResourceSpans>, expireTime: int) returns (result: seq<ResourceSpan>)
      requires Valid() && BatchEnds(Views(), batch)
      requires forall i :: 0 <= i < |batch| ==> Traces(batch[i].spans) <= entryUrlMap.Keys
      modifies this`unMatchedSpans
      ensures Views() == old(Views())
      ensures result == AllEmitted(Views(), batch, |batch|, expireTime)
      ensures unMatchedSpans == old(unMatchedSpans) + AllParked(Views(), batch, |batch|, expireTime)
    {
      result := [];
      ghost var was, ms := unMatchedSpans, Views();
      for i := 0 to |batch|
        invariant Views() == ms
        invariant Judged(was, ms, batch, i, expireTime, result)
      {
        result := JudgeOne(was, batch, i, expireTime, result);
      }
    }

    // The second and third loop.
    method MatchMapped(batch: seq<ResourceSpans>, cachedTraces: map<TraceId, EntryUrlMapping>, expireTime: int)
      returns (result: seq<ResourceSpan>)
      requires Valid() && Aliased(cachedTraces)
      requires PendingEnds(Views(), unMatchedSpans, cachedTraces.Keys) && BatchEnds(Views(), batch)
      requires forall i :: 0 <= i < |batch| ==> Traces(batch[i].spans) <= entryUrlMap.Keys
      modifies this`unMatchedSpans
      ensures Views() == old(Views())
      ensures result == Resolved(old(unMatchedSpans), Views(), cachedTraces.Keys)
              + AllEmitted(Views(), batch, |batch|, expireTime)
      ensures unMatchedSpans
           == Unresolved(old(unMatchedSpans), Views(), cachedTraces.Keys)
               + AllParked(Views(), batch, |batch|, expireTime)
    {
      result := RecheckPending(cachedTraces);
      var more := JudgeBatch(batch, expireTime);
      result := result + more;
    }

    // Called where every look-up it makes ends; the code does not return otherwise.
    method GetMatchedResourceSpans(batch: seq<ResourceSpans>, now: int) returns (result: seq<ResourceSpan>)
      requires Valid()
      requires PendingEnds(Mapped(Views(), AllSpans(batch)), unMatchedSpans, Traces(AllSpans(batch)))
      requires BatchEnds(Mapped(Views(), AllSpans(batch)), batch)
      modifies this`entryUrlMap, this`unMatchedSpans, Objects(), idBatch
      ensures Valid() && fresh(Objects() - old(Objects()))
      ensures MatchStep(old(State()), batch, now + expireUnMatcheTime, State(), result)
    {
      ghost var was := State();
      var cachedTraces := MapBatch(batch);
      result := MatchOnceMapped(was, batch, cachedTraces, now + expireUnMatcheTime);
    }

    // What is left of a call once the batch is mapped.
    method MatchOnceMapped(ghost was: State, batch: seq<ResourceSpans>, cachedTraces: map<TraceId, EntryUrlMapping>,
                           expireTime: int) returns (result: seq<ResourceSpan>)
      requires Valid() && BatchMapped(was.mappings, was.idBatch, AllSpans(batch), cachedTraces)
      requires State() == was.(mappings := Views(), idBatch := idBatch.batch)
      requires PendingEnds(Mapped(was.mappings, AllSpans(batch)), was.pending, Traces(AllSpans(batch)))
      requires BatchEnds(Mapped(was.mappings, AllSpans(batch)), batch)
      modifies this`unMatchedSpans
      ensures MatchStep(was, batch, expireTime, State(), result)
    {
      ghost var ms, ids := Views(), idBatch.batch;
      EachInAll(batch);
      result := MatchMapped(batch, cachedTraces, expireTime);
      IsMatchStep(was, batch, expireTime, ms, unMatchedSpans, ids, result);
      assert State() == was.(mappings := ms, pending := unMatchedSpans, idBatch := ids);
    }

    // CleanExpireBuckets: the part before the lock ...
    method PickBatchToClean()
      requires Valid() && toCleanIds == []
      modifies this`toCleanIds, idBatch, idBuckets, idBuckets.buckets
      ensures Valid() && PickStep(old(State()), State())
    {
      var batch := idBatch.PickBatch();
      ghost var line := idBuckets.Line() + [batch];
      toCleanIds := idBuckets.CopyAndGetBatch(batch);
      assert [toCleanIds] + idBuckets.Line() == line;
      assert line[1..] == idBuckets.Line() && line[0] == toCleanIds;
    }

    method Delete(id: TraceId)
      requires Distinct()
      modifies this`entryUrlMap
      ensures Distinct() && Objects() <= old(Objects())
      ensures Views() == old(Views()) - {id}
    {
      entryUrlMap := entryUrlMap - {id};
    }

    // ... and the locked deletions.
    method DeleteCleaned()
      requires Valid()
      modifies this`entryUrlMap, this`toCleanIds
      ensures Valid() && DeleteStep(old(State()), State())
    {
      ghost var was := Views();
      for i := 0 to |toCleanIds|
        invariant toCleanIds == old(toCleanIds) && Distinct() && idBuckets.Valid()
        invariant Objects() <= old(Objects())
        invariant Views() == was - SetOf(toCleanIds[..i])
      {
        SetOfOneMore(toCleanIds, i);
        Delete(toCleanIds[i]);
      }
      assert toCleanIds[..|toCleanIds|] == toCleanIds;
      toCleanIds := [];
    }

    method CleanUnMatchedSpans(now: int) returns (unknownSpans: seq<ResourceSpan>)
      requires idBuckets.Valid()
      modifies this`unMatchedSpans
      ensures ExpireStep(old(State()), now, State(), unknownSpans)
    {
      if |unMatchedSpans| == 0 {
        return [];
      }
      var expireIndex := 0;
      var size := |unMatchedSpans|;
      for index := 0 to size
        invariant expireIndex == index
        invariant unMatchedSpans == old(unMatchedSpans) && size == |unMatchedSpans|
        invariant forall i :: 0 <= i < index ==> unMatchedSpans[i].expireTime < now
      {
        if unMatchedSpans[index].expireTime < now {
          expireIndex := expireIndex + 1;
        } else {
          break;
        }
      }
      assert expireIndex == ExpiredCount(unMatchedSpans, now);
      if expireIndex == 0 {
        return [];
      }
      unknownSpans := unMatchedSpans[..expireIndex];
      unMatchedSpans := unMatchedSpans[expireIndex..];
    }

    // The traces looked at in this call hold the very objects of the cache.
    ghost predicate Aliased(cached: map<TraceId, EntryUrlMapping>)
      reads this`entryUrlMap
    {
      forall t :: t in cached ==> t in entryUrlMap && cached[t] == entryUrlMap[t]
    }
  }

  lemma {:induction false} EachInAll(batch: seq<ResourceSpans>)
    ensures forall i :: 0 <= i < |batch| ==> Traces(batch[i].spans) <= Traces(AllSpans(batch))
  {
    if batch != [] {
      EachInAll(batch[..|batch| - 1]);
    }
  }

  lemma {:induction false} NothingFrom(ms: Mappings, rss: ResourceSpans, n: nat, expireTime: int)
    requires !rss.Attributed() && n <= |rss.spans|
    ensures EmittedFrom(ms, rss, n, expireTime) == [] && ParkedFrom(ms, rss, n, expireTime) == []
  {
    if n > 0 {
      NothingFrom(ms, rss, n - 1, expireTime);
    }
  }

  lemma SetOfOneMore(ids: seq<TraceId>, i: nat)
    requires i < |ids|
    ensures SetOf(ids[..i + 1]) == SetOf(ids[..i]) + {ids[i]}
  {
  }

  // The list while the second loop is at its span number `seen`, and after that round.
  lemma RemovedAt(was: seq<ResourceSpan>, ms: Mappings, touched: set<TraceId>, seen: nat)
    requires seen < |was|
    ensures var kept, p := Unresolved(was[..seen], ms, touched), was[seen];
            var list := kept + was[seen..];
            var hit := p.span.traceId in touched && AnswerFor(ms, p) != "";
            && list[|kept|] == p
            && list[..|kept|] + list[|kept| + 1..] == kept + was[seen + 1..]
            && list == kept + [p] + was[seen + 1..]
            && Unresolved(was[..seen + 1], ms, touched) == kept + (if hit then [] else [p])
            && Resolved(was[..seen + 1], ms, touched)
               == Resolved(was[..seen], ms, touched) + if hit then [p.(entryUrl := AnswerFor(ms, p))] else []
  {
    assert was[..seen + 1][..seen] == was[..seen];
  }

  lemma RecheckStarts(was: seq<ResourceSpan>, ms: Mappings, touched: set<TraceId>)
    ensures Unresolved(was[..0], ms, touched) == [] && Resolved(was[..0], ms, touched) == []
    ensures was == Unresolved(was[..0], ms, touched) + was[0..]
  {
  }

  // The ids recorded are the old ones and, after them, those of a set in some order.
  ghost predicate Recorded(was: seq<TraceId>, now: seq<TraceId>, added: set<TraceId>) {
    was <= now && ListsIds(now[|was|..], added)
  }

  // The mappings once all groups but the ones in `rest` are added.
  function MappedExcept(ms: Mappings, groups: map<TraceId, seq<Span>>, rest: set<TraceId>): Mappings {
    map t | t in ms.Keys + (groups.Keys - rest) ::
      if t in groups && t !in rest then Added(MappingOf(ms, t), groups[t]) else ms[t]
  }

  lemma MappedExceptAll(ms: Mappings, groups: map<TraceId, seq<Span>>)
    ensures MappedExcept(ms, groups, groups.Keys) == ms
  {
  }

  lemma MappedExceptNone(ms: Mappings, groups: map<TraceId, seq<Span>>)
    ensures MappedExcept(ms, groups, {}).Keys == ms.Keys + groups.Keys
    ensures groups.Keys - {} == groups.Keys
  {
  }

  lemma MappedForAll(ms: Mappings, spans: seq<Span>, groups: map<TraceId, seq<Span>>)
    requires Grouped(groups, spans)
    ensures MappedExcept(ms, groups, {}) == Mapped(ms, spans)
  {
    forall t | t in ms && t !in Traces(spans) ensures Mapped(ms, spans)[t] == ms[t] {
      MappedKeepsOthers(ms, spans, t);
    }
  }

  lemma MappedNothing(ms: Mappings)
    ensures Mapped(ms, []) == ms
  {
    MappedForAll(ms, [], map[]);
    MappedExceptAll(ms, map[]);
  }

  // The traces of some spans that have no mapping yet.
  function NewTraces(spans: seq<Span>, ms: Mappings): set<TraceId> {
    Traces(spans) - ms.Keys
  }

  lemma RecordedTwice(was: seq<TraceId>, mid: seq<TraceId>, now: seq<TraceId>, a: seq<Span>, b: seq<Span>, ms: Mappings)
    requires Recorded(was, mid, NewTraces(a, ms)) && Recorded(mid, now, NewTraces(b, Mapped(ms, a)))
    ensures Recorded(was, now, NewTraces(a + b, ms))
    ensures Traces(a + b) == Traces(a) + Traces(b)
  {
    assert Traces(a + b) == Traces(a) + Traces(b);
    assert NewTraces(a + b, ms) == NewTraces(a, ms) + NewTraces(b, Mapped(ms, a));
    ListsBoth(was, mid, now, NewTraces(a, ms), NewTraces(b, Mapped(ms, a)));
  }

  lemma ListsBoth(was: seq<TraceId>, mid: seq<TraceId>, now: seq<TraceId>, a: set<TraceId>, b: set<TraceId>)
    requires Recorded(was, mid, a) && Recorded(mid, now, b) && a !! b
    ensures Recorded(was, now, a + b)
  {
    var first, second := mid[|was|..], now[|mid|..];
    assert now == mid + second && mid == was + first;
    assert now[|was|..] == first + second;
  }

  lemma MappedOneMore(ms: Mappings, groups: map<TraceId, seq<Span>>, rest: set<TraceId>, id: TraceId)
    requires id in groups && id in rest
    ensures MappedExcept(ms, groups, rest - {id})
         == MappedExcept(ms, groups, rest)[id := Added(MappingOf(MappedExcept(ms, groups, rest), id), groups[id])]
    ensures id in MappedExcept(ms, groups, rest) <==> id in ms
  {
  }

  lemma IsMatchStep(s: State, batch: seq<ResourceSpans>, expireTime: int,
                    ms: Mappings, pending: seq<ResourceSpan>, ids: seq<TraceId>, result: seq<ResourceSpan>)
    requires ms == Mapped(s.mappings, AllSpans(batch))
    requires Recorded(s.idBatch, ids, NewTraces(AllSpans(batch), s.mappings))
    requires result == Resolved(s.pending, ms, Traces(AllSpans(batch))) + AllEmitted(ms, batch, |batch|, expireTime)
    requires pending == Unresolved(s.pending, ms, Traces(AllSpans(batch))) + AllParked(ms, batch, |batch|, expireTime)
    ensures MatchStep(s, batch, expireTime, s.(mappings := ms, pending := pending, idBatch := ids), result)
  {
  }

  lemma KeysOneMore(cached: set<TraceId>, groups: set<TraceId>, rest: set<TraceId>, id: TraceId)
    requires id in rest && id in groups
    ensures cached + (groups - rest) + {id} == cached + (groups - (rest - {id}))
  {
  }

  lemma RecordedOneMore(was: seq<TraceId>, now: seq<TraceId>, all: set<TraceId>, rest: set<TraceId>, ms: Mappings,
                        id: TraceId)
    requires Recorded(was, now, all - rest - ms.Keys) && id in rest && id in all
    ensures Recorded(was, if id in ms then now else now + [id], all - (rest - {id}) - ms.Keys)
  {
    if id in ms {
      assert all - (rest - {id}) - ms.Keys == all - rest - ms.Keys;
    } else {
      assert all - (rest - {id}) - ms.Keys == (all - rest - ms.Keys) + {id};
      assert (now + [id])[|was|..] == now[|was|..] + [id];
    }
  }
}
