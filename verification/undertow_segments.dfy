// Which segments are the halves of one request, read off their spans, and that the two meet.
module UndertowSegments {
  import opened UndertowJoining
  import opened UndertowRuns

  // ---------------------------------------------------------------- what the spans say

  // A first span of the Undertow component.
  predicate IsFirstOfUndertow(s: SwSpan) {
    s.spanId == 0 && s.componentId == 84
  }

  predicate IsDispatch(s: SwSpan) {
    s.spanId == 0 && s.componentId == 84 && s.operationName == "UndertowDispatch"
  }

  predicate IsSpringEntry(s: SwSpan) {
    s.spanType.Entry? && s.componentId == 14
  }

  ghost predicate LastOf(spans: seq<SwSpan>, p: SwSpan -> bool, i: int) {
    0 <= i < |spans| && p(spans[i]) && forall j :: i < j < |spans| ==> !p(spans[j])
  }

  ghost predicate NoneOf(spans: seq<SwSpan>, p: SwSpan -> bool) {
    forall i :: 0 <= i < |spans| ==> !p(spans[i])
  }

  // The route is the name of the last Spring entry span, the parent what the last dispatch span refers to.
  ghost predicate RouteIs(spans: seq<SwSpan>, route: string) {
    || (NoneOf(spans, IsSpringEntry) && route == "")
    || (exists i :: LastOf(spans, IsSpringEntry, i) && spans[i].operationName == route)
  }

  ghost predicate ParentIs(spans: seq<SwSpan>, parent: string) {
    || (NoneOf(spans, IsDispatch) && parent == "")
    || (exists i :: LastOf(spans, IsDispatch, i) && spans[i].refs != [] && spans[i].refs[0] == parent)
  }

  // Every dispatch span refers to a segment.
  ghost predicate Refers(spans: seq<SwSpan>) {
    forall i :: 0 <= i < |spans| && IsDispatch(spans[i]) ==> spans[i].refs != []
  }

  lemma LastOfOneMore(spans: seq<SwSpan>, s: SwSpan, p: SwSpan -> bool)
    ensures p(s) ==> LastOf(spans + [s], p, |spans|)
    ensures !p(s) ==> NoneOf(spans, p) ==> NoneOf(spans + [s], p)
    ensures !p(s) ==> forall i :: LastOf(spans, p, i) ==> LastOf(spans + [s], p, i)
  {
    var more := spans + [s];
    assert more[|spans|] == s && forall i :: 0 <= i < |spans| ==> more[i] == spans[i];
  }

  lemma RouteOneMore(spans: seq<SwSpan>, s: SwSpan, route: string)
    requires RouteIs(spans, route)
    ensures RouteIs(spans + [s], if IsSpringEntry(s) then s.operationName else route)
  {
    LastOfOneMore(spans, s, IsSpringEntry);
    assert (spans + [s])[|spans|] == s;
    if !IsSpringEntry(s) && !NoneOf(spans, IsSpringEntry) {
      var i :| LastOf(spans, IsSpringEntry, i) && spans[i].operationName == route;
      assert (spans + [s])[i] == spans[i];
    }
  }

  lemma ParentOneMore(spans: seq<SwSpan>, s: SwSpan, parent: string)
    requires ParentIs(spans, parent) && (IsDispatch(s) ==> s.refs != [])
    ensures ParentIs(spans + [s], if IsDispatch(s) then s.refs[0] else parent)
  {
    LastOfOneMore(spans, s, IsDispatch);
    assert (spans + [s])[|spans|] == s;
    if !IsDispatch(s) && !NoneOf(spans, IsDispatch) {
      var i :| LastOf(spans, IsDispatch, i) && spans[i].refs != [] && spans[i].refs[0] == parent;
      assert (spans + [s])[i] == spans[i];
    }
  }

  // What the scan finds.
  ghost predicate FindsRight(spans: seq<SwSpan>, f: Found) {
    && f.Found?
    && (f.isUndertow <==> !NoneOf(spans, IsFirstOfUndertow))
    && ParentIs(spans, f.parentSegmentId) && RouteIs(spans, f.routeUrl)
  }

  lemma {:induction false} ScanFindsRight(spans: seq<SwSpan>)
    requires Refers(spans)
    ensures FindsRight(spans, Scan(spans))
  {
    if spans != [] {
      var n := |spans| - 1;
      var before, s := spans[..n], spans[n];
      assert spans == before + [s];
      ScanFindsRight(before);
      RouteOneMore(before, s, Scan(before).routeUrl);
      ParentOneMore(before, s, Scan(before).parentSegmentId);
      LastOfOneMore(before, s, IsFirstOfUndertow);
      assert forall i :: 0 <= i < n ==> spans[i] == before[i];
    }
  }

  lemma OneRoute(spans: seq<SwSpan>, r: string, t: string)
    requires RouteIs(spans, r) && RouteIs(spans, t)
    ensures r == t
  {
  }

  lemma OneParent(spans: seq<SwSpan>, r: string, t: string)
    requires ParentIs(spans, r) && ParentIs(spans, t)
    ensures r == t
  {
  }

  // ---------------------------------------------------------------- which half a segment is

  // The I/O half: it began in Undertow and has no Spring entry span with a name.
  ghost predicate IsIoHalf(g: Segment) {
    Refers(g.spans) && !NoneOf(g.spans, IsFirstOfUndertow) && RouteIs(g.spans, "")
  }

  // The task half of the segment with id `parent`: it began in Undertow and has the route.
  ghost predicate IsTaskHalf(g: Segment, parent: string, route: string) {
    && Refers(g.spans) && !NoneOf(g.spans, IsFirstOfUndertow)
    && route != "" && RouteIs(g.spans, route) && ParentIs(g.spans, parent)
  }

  ghost predicate IsPlain(g: Segment) {
    Refers(g.spans) && NoneOf(g.spans, IsFirstOfUndertow)
  }

  // A segment meets its other half under the id of its trace and of the I/O segment.
  lemma HalvesExactly(g: Segment)
    ensures HalfOf(g) == Plain <==> IsPlain(g)
    ensures HalfOf(g).Io? <==> IsIoHalf(g)
    ensures IsIoHalf(g) ==> HalfOf(g) == Io(Key(g.traceId + "-" + g.segmentId))
    ensures forall parent, route :: IsTaskHalf(g, parent, route) ==>
              HalfOf(g) == Task(Key(g.traceId + "-" + parent), route)
    ensures HalfOf(g).Task? ==> exists parent, route :: IsTaskHalf(g, parent, route)
  {
    BrokenExactly(g.spans);
    if Refers(g.spans) {
      ScanFindsRight(g.spans);
      var f := Scan(g.spans);
      forall parent, route | IsTaskHalf(g, parent, route) ensures f.parentSegmentId == parent && f.routeUrl == route {
        OneRoute(g.spans, f.routeUrl, route);
        OneParent(g.spans, f.parentSegmentId, parent);
      }
      if RouteIs(g.spans, "") {
        OneRoute(g.spans, f.routeUrl, "");
      }
      if f.isUndertow && f.routeUrl != "" {
        assert IsTaskHalf(g, f.parentSegmentId, f.routeUrl);
      }
    }
  }

  // Within a trace different segment ids make different keys.
  lemma KeysTellSegments(trace: string, a: string, b: string)
    ensures Key(trace + "-" + a) == Key(trace + "-" + b) <==> a == b
  {
    var p := trace + "-";
    assert (p + a)[|p|..] == a && (p + b)[|p|..] == b;
  }

  // ---------------------------------------------------------------- the two meet

  // The same spans, but for the name of the first.
  ghost predicate FirstNamed(spans: seq<OtSpan>, was: seq<OtSpan>, name: string) {
    && |spans| == |was| > 0
    && spans[0].name == name && spans[0].body == was[0].body
    && forall k :: 0 < k < |was| ==> spans[k] == was[k]
  }

  ghost predicate Request(io: Arrival, task: Arrival, route: string) {
    && Translated(io) && Translated(task)
    && io.segment.traceId == task.segment.traceId
    && IsIoHalf(io.segment) && IsTaskHalf(task.segment, io.segment.segmentId, route)
  }

  lemma IoHasSpans(io: Arrival)
    requires Translated(io) && IsIoHalf(io.segment)
    ensures |io.ptd| == 1 && io.ptd[0] != []
  {
    var i :| 0 <= i < |io.segment.spans| && IsFirstOfUndertow(io.segment.spans[i]);
  }

  lemma RenamedIsFirstNamed(spans: seq<OtSpan>, name: string)
    requires spans != []
    ensures FirstNamed(Renamed(spans, name), spans, name)
  {
  }

  // The I/O half first: it is held, and the task half gives both out.
  lemma IoThenTask(c: Cache, io: Arrival, task: Arrival, route: string)
    requires Request(io, task, route)
    requires var key := Key(io.segment.traceId + "-" + io.segment.segmentId); key !in c.ioTraces && key !in c.routeUrls
    ensures var (c1, first) := Join(c, io);
            var (c2, second) := Join(c1, task);
            && first == HeldBack && c2 == c
            && second.Emitted? && |second.ptd| == |task.ptd| + 1 && second.ptd[..|task.ptd|] == task.ptd
            && FirstNamed(second.ptd[|task.ptd|], io.ptd[0], route)
  {
    var key := Key(io.segment.traceId + "-" + io.segment.segmentId);
    HalvesExactly(io.segment);
    HalvesExactly(task.segment);
    IoHasSpans(io);
    RenamedIsFirstNamed(io.ptd[0], route);
    assert c.ioTraces[key := io.ptd] - {key} == c.ioTraces;
  }

  // The task half first: it is given out, and the I/O half takes its route.
  lemma TaskThenIo(c: Cache, io: Arrival, task: Arrival, route: string)
    requires Request(io, task, route)
    requires var key := Key(io.segment.traceId + "-" + io.segment.segmentId); key !in c.ioTraces && key !in c.routeUrls
    ensures var (c1, first) := Join(c, task);
            var (c2, second) := Join(c1, io);
            && first == Emitted(task.ptd) && c2 == c
            && second.Emitted? && |second.ptd| == 1 && FirstNamed(second.ptd[0], io.ptd[0], route)
  {
    var key := Key(io.segment.traceId + "-" + io.segment.segmentId);
    HalvesExactly(io.segment);
    HalvesExactly(task.segment);
    IoHasSpans(io);
    RenamedIsFirstNamed(io.ptd[0], route);
    assert c.routeUrls[key := route] - {key} == c.routeUrls;
  }

  // The task half of another segment leaves it where it is.
  lemma OthersDoNotTake(c: Cache, io: Arrival, task: Arrival, parent: string, route: string)
    requires IsIoHalf(io.segment) && IsTaskHalf(task.segment, parent, route)
    requires task.segment.traceId + "-" + parent != io.segment.traceId + "-" + io.segment.segmentId
    ensures var key := Key(io.segment.traceId + "-" + io.segment.segmentId);
            var held := Join(Join(c, io).0, task).0;
            key !in c.routeUrls ==> key in held.ioTraces && held.ioTraces[key] == io.ptd
  {
    HalvesExactly(io.segment);
    HalvesExactly(task.segment);
  }

  // Over a run: when both halves came, both were given out, the first I/O span named by the route, and
  // nothing waits under their key.
  lemma RequestIsJoined(run: seq<Arrival>, i: nat, j: nat, route: string) returns (named: seq<OtSpan>)
    requires DistinctKeys(run) && i < |run| && j < |run| && Request(run[i], run[j], route)
    ensures |run[i].ptd| == 1 && FirstNamed(named, run[i].ptd[0], route)
    ensures var key := Key(run[i].segment.traceId + "-" + run[i].segment.segmentId);
            && multiset(named) + multiset(SpansIn(run[j].ptd)) <= GivenOut(run)
            && key !in After(run).ioTraces && key !in After(run).routeUrls
  {
    HalvesExactly(run[i].segment);
    HalvesExactly(run[j].segment);
    PairIsJoined(run, i, j);
    IoHasSpans(run[i]);
    named := Renamed(run[i].ptd[0], route);
    RenamedIsFirstNamed(run[i].ptd[0], route);
    assert RenamedFirst(run[i].ptd, route) == [] + [named];
    SpansInOne([], named);
  }
}
