// The Undertow rendezvous: a request handled by an I/O thread and a task thread reports two segments,
// and the task thread alone knows the route.
module UndertowJoining {

  const COMPONENT_UNDERTOW := 84
  const COMPONENT_SPRING_MVC := 14
  const OPERATE_NAME_UNDERTOW := "UndertowDispatch"

  datatype SpanType = Entry | Exit | Local
  datatype SwSpan = SwSpan(spanId: int, componentId: int, spanType: SpanType, operationName: string, refs: seq<string>)
  datatype Segment = Segment(traceId: string, segmentId: string, spans: seq<SwSpan>)

  // A translated span; its body is what the join never touches.
  datatype OtSpan = OtSpan(name: string, body: int)

  // The scopes of the one resource of a translated trace.
  type Scopes = seq<seq<OtSpan>>

  datatype Key = Key(text: string)
  function KeyOf(traceId: string, segmentId: string): Key {
    Key(traceId + "-" + segmentId)
  }

  // ---------------------------------------------------------------- what a segment is

  // What the scan of the spans finds; the last one found counts.
  datatype Found = Found(isUndertow: bool, parentSegmentId: string, routeUrl: string) | Panicked

  predicate IsUndertowSpan(s: SwSpan) {
    s.componentId == COMPONENT_UNDERTOW && s.spanId == 0
  }

  function ScanSpan(f: Found, s: SwSpan): Found {
    if f.Panicked? then f
    else if IsUndertowSpan(s) && s.operationName == OPERATE_NAME_UNDERTOW && s.refs == [] then Panicked
    else
      Found(f.isUndertow || IsUndertowSpan(s),
            if IsUndertowSpan(s) && s.operationName == OPERATE_NAME_UNDERTOW then s.refs[0] else f.parentSegmentId,
            if s.spanType == Entry && s.componentId == COMPONENT_SPRING_MVC then s.operationName else f.routeUrl)
  }

  function Scan(spans: seq<SwSpan>): Found {
    if spans == [] then Found(false, "", "") else ScanSpan(Scan(spans[..|spans| - 1]), spans[|spans| - 1])
  }

  // The halves of a request, with the key they meet under.
  datatype Half = Plain | Io(key: Key) | Task(key: Key, routeUrl: string) | Broken

  function HalfOf(segment: Segment): Half {
    match Scan(segment.spans)
    case Panicked => Broken
    case Found(isUndertow, parentSegmentId, routeUrl) =>
      if !isUndertow then Plain
      else if routeUrl == "" then Io(KeyOf(segment.traceId, segment.segmentId))
      else Task(KeyOf(segment.traceId, parentSegmentId), routeUrl)
  }

  // ---------------------------------------------------------------- one segment

  datatype Cache = Cache(ioTraces: map<Key, Scopes>, routeUrls: map<Key, string>)

  datatype Outcome = Emitted(ptd: Scopes) | HeldBack | Panics

  datatype Arrival = Arrival(segment: Segment, ptd: Scopes)

  // A segment is translated into one scope with a span for each of its spans, or, without spans, into
  // no scope.
  ghost predicate Translated(a: Arrival) {
    || (|a.ptd| == 1 && |a.ptd[0]| == |a.segment.spans|)
    || (a.ptd == [] && a.segment.spans == [])
  }

  // A segment is broken, and the code panics on it, exactly if it has an Undertow dispatch span with
  // span id 0 and no reference.
  lemma {:induction false} BrokenExactly(spans: seq<SwSpan>)
    ensures Scan(spans).Panicked?
       <==> exists i :: 0 <= i < |spans| && IsUndertowSpan(spans[i]) && spans[i].operationName == OPERATE_NAME_UNDERTOW
                        && spans[i].refs == []
  {
    if spans != [] {
      var n := |spans| - 1;
      BrokenExactly(spans[..n]);
      assert spans == spans[..n] + [spans[n]];
      if Scan(spans[..n]).Panicked? {
        var i :| 0 <= i < n && IsUndertowSpan(spans[..n][i]) && spans[..n][i].operationName == OPERATE_NAME_UNDERTOW
                 && spans[..n][i].refs == [];
        assert spans[i] == spans[..n][i];
      } else {
        assert forall i :: 0 <= i < n ==> spans[..n][i] == spans[i];
      }
    }
  }

  function Renamed(spans: seq<OtSpan>, name: string): seq<OtSpan> {
    if spans == [] then [] else [spans[0].(name := name)] + spans[1..]
  }

  function RenamedFirst(ptd: Scopes, name: string): Scopes {
    if ptd == [] then ptd else [Renamed(ptd[0], name)] + ptd[1..]
  }

  // The scope that a held I/O half adds to its task half.
  function JoinedTo(held: Scopes, routeUrl: string): Scopes {
    if held == [] then [] else [Renamed(held[0], routeUrl)]
  }

  function Join(c: Cache, a: Arrival): (Cache, Outcome) {
    match HalfOf(a.segment)
    case Plain => (c, Emitted(a.ptd))
    case Broken => (c, Panics)
    case Io(key) =>
      if key in c.routeUrls then
        (c.(routeUrls := c.routeUrls - {key}), Emitted(RenamedFirst(a.ptd, c.routeUrls[key])))
      else (c.(ioTraces := c.ioTraces[key := a.ptd]), HeldBack)
    case Task(key, routeUrl) =>
      if key in c.ioTraces then
        (c.(ioTraces := c.ioTraces - {key}),
         Emitted(a.ptd + JoinedTo(c.ioTraces[key], routeUrl)))
      else (c.(routeUrls := c.routeUrls[key := routeUrl]), Emitted(a.ptd))
  }

  class UndertowCache {
    var ioTraceMap: map<Key, Scopes>
    var routeUrlMap: map<Key, string>

    ghost function View(): Cache
      reads this
    {
      Cache(ioTraceMap, routeUrlMap)
    }

    constructor ()
      ensures View() == Cache(map[], map[])
    {
      ioTraceMap, routeUrlMap := map[], map[];
    }

    method CheckUndertow(segment: Segment, ptd: Scopes) returns (out: Outcome)
      requires Translated(Arrival(segment, ptd))
      requires forall k :: k in ioTraceMap ==> |ioTraceMap[k]| == 1 && ioTraceMap[k][0] != []
      modifies this
      ensures (View(), out) == Join(old(View()), Arrival(segment, ptd))
      ensures forall k :: k in ioTraceMap ==> |ioTraceMap[k]| == 1 && ioTraceMap[k][0] != []
    {
      var isUndertow, routeUrl, parentSegmentId := false, "", "";
      for i := 0 to |segment.spans|
        invariant Scan(segment.spans[..i]) == Found(isUndertow, parentSegmentId, routeUrl)
      {
        var span := segment.spans[i];
        assert segment.spans[..i + 1][..i] == segment.spans[..i];
        if span.componentId == COMPONENT_UNDERTOW && span.spanId == 0 {
          isUndertow := true;
          if span.operationName == OPERATE_NAME_UNDERTOW {
            if span.refs == [] {
              PanicStays(segment.spans, i + 1);
              return Panics;
            }
            parentSegmentId := span.refs[0];
          }
        }
        if span.spanType == Entry && span.componentId == COMPONENT_SPRING_MVC {
          routeUrl := span.operationName;
        }
      }
      assert segment.spans[..|segment.spans|] == segment.spans;

      if !isUndertow {
        return Emitted(ptd);
      }
      if routeUrl == "" {
        var key := KeyOf(segment.traceId, segment.segmentId);
        if key in routeUrlMap {
          var cachedRouteUrl := routeUrlMap[key];
          routeUrlMap := routeUrlMap - {key};
          var first := ptd[0][0].(name := cachedRouteUrl);
          return Emitted([[first] + ptd[0][1..]] + ptd[1..]);
        } else {
          ioTraceMap := ioTraceMap[key := ptd];
          return HeldBack;
        }
      } else {
        var key := KeyOf(segment.traceId, parentSegmentId);
        if key in ioTraceMap {
          var spans := ioTraceMap[key][0];
          ioTraceMap := ioTraceMap - {key};
          spans := [spans[0].(name := routeUrl)] + spans[1..];
          return Emitted(ptd + [spans]);
        } else {
          routeUrlMap := routeUrlMap[key := routeUrl];
        }
        return Emitted(ptd);
      }
    }
  }

  lemma {:induction false} PanicStays(spans: seq<SwSpan>, i: nat)
    requires i <= |spans| && Scan(spans[..i]) == Panicked
    ensures Scan(spans) == Panicked
    decreases |spans| - i
  {
    if i < |spans| {
      assert spans[..i + 1][..i] == spans[..i];
      PanicStays(spans, i + 1);
    } else {
      assert spans[..i] == spans;
    }
  }
}
