// The answer for one span: thresholds, the limit per URL, then the samplers that remember trace ids.
module SampleCaching {
  import opened Silencing
  import opened TailbaseSampling
  import opened TimeWheel
  import opened Wrappers

  datatype Settings = Settings(
    normalTopSampling: bool, openNormal: bool, openSlow: bool, openError: bool, ignoreThreshold: nat,
    slowThreshold: nat)

  // What the answer for a span depends on; the process and URL are the key of the limit.
  datatype Span = Span(
    labels: TraceLabels, pidUrl: PidUrl, url: string, duration: nat, isError: bool, isSampled: bool, topSpan: bool)

  datatype Threshold = Threshold(kind: string, range: string, value: real, multiple: real)
  type Thresholds = map<string, Threshold>

  // The threshold of the URL, or the default one.
  function ThresholdOf(on: Settings, thresholds: Thresholds, url: string): Threshold {
    if url in thresholds then thresholds[url] else Threshold("P90", "default", on.slowThreshold as real, 1.0)
  }

  // At least the threshold, and not ignored.
  predicate IsSlow(on: Settings, thresholds: Thresholds, x: Span) {
    ThresholdOf(on, thresholds, x.url).value.Floor <= x.duration && on.ignoreThreshold <= x.duration
  }

  // A span is slow from the threshold of its URL on, of which the fraction does not count, or from the
  // configured one on if the URL has none; one shorter than what is ignored never is.
  lemma SlowExactly(on: Settings, thresholds: Thresholds, x: Span)
    ensures x.duration < on.ignoreThreshold ==> !IsSlow(on, thresholds, x)
    ensures x.url in thresholds && on.ignoreThreshold <= x.duration ==>
              (IsSlow(on, thresholds, x) <==> thresholds[x.url].value < (x.duration + 1) as real)
    ensures x.url !in thresholds && on.ignoreThreshold <= x.duration ==>
              (IsSlow(on, thresholds, x) <==> on.slowThreshold <= x.duration)
  {
  }

  function Entry(thresholds: Thresholds, url: string): Option<Threshold> {
    if url in thresholds then Some(thresholds[url]) else None
  }

  // The last positive threshold sent for the URL.
  function Latest(datas: seq<(string, Threshold)>, url: string): Option<Threshold> {
    if datas == [] then None
    else
      var (u, threshold) := datas[|datas| - 1];
      if u == url && threshold.value > 0.0 then Some(threshold) else Latest(datas[..|datas| - 1], url)
  }

  ghost predicate TakenOver(was: Thresholds, datas: seq<(string, Threshold)>, now: Thresholds) {
    forall url :: Entry(now, url) == if Latest(datas, url).Some? then Latest(datas, url) else Entry(was, url)
  }

  lemma OneMoreTaken(was: Thresholds, datas: seq<(string, Threshold)>, before: Thresholds, url: string,
                     threshold: Threshold)
    requires TakenOver(was, datas, before)
    ensures TakenOver(was, datas + [(url, threshold)],
                      if threshold.value > 0.0 then before[url := threshold] else before)
  {
    var more, now := datas + [(url, threshold)], if threshold.value > 0.0 then before[url := threshold] else before;
    assert more[..|more| - 1] == datas;
    forall u ensures Entry(now, u) == if Latest(more, u).Some? then Latest(more, u) else Entry(was, u) {
      assert Entry(before, u) == if Latest(datas, u).Some? then Latest(datas, u) else Entry(was, u);
    }
  }

  // Spans no sampler is asked about.
  predicate Ignored(on: Settings, x: Span) {
    || (!on.openNormal && !on.openSlow && !on.openError)
    || (!x.isError && !x.topSpan && x.duration < on.ignoreThreshold)
  }

  predicate Asks(on: Settings, x: Span, slow: bool) {
    && !Ignored(on, x) && x.isSampled
    && ((on.openSlow && slow) || (on.openError && x.isError))
  }

  // Whether the span is sampled, given what the limit and the normal sampler answer.
  predicate Sampled(on: Settings, x: Span, slow: bool, silent: bool, normalPick: bool) {
    if slow || x.isError then Asks(on, x, slow) && !silent
    else on.openNormal && x.isSampled && (!on.normalTopSampling || x.topSpan) && normalPick
  }

  datatype Samples = Samples(silent: Silencing.State, marks: Marks)

  // What the limit answers: it is asked only where the code asks it.
  function AskLimit(limit: Config, on: Settings, s: Silencing.State, x: Span, slow: bool,
                    now: int): (Silencing.State, bool) {
    if Asks(on, x, slow) then Asked(limit, s, x.pidUrl, now) else (s, true)
  }

  // GetSampleResult
  function Answer(limit: Config, on: Settings, s: Samples, x: Span, slow: bool, normalPick: bool, now: int)
    : (Samples, TraceLabels, SampleResult)
  {
    if Ignored(on, x) then (s, x.labels, NoOp)
    else
      var (limited, silent) := AskLimit(limit, on, s.silent, x, slow, now);
      var (marks, labelled, result) :=
        Decide(s.marks, x.labels, on.openSlow && slow, on.openError && x.isError,
               Sampled(on, x, slow, silent, normalPick));
      (Samples(limited, marks), labelled, result)
  }

  // ---------------------------------------------------------------- the answer, case by case

  // No sampler is asked about a span if all kinds are off, or if it is short, did not fail and is not the
  // first of its trace.
  lemma IgnoredExactly(limit: Config, on: Settings, s: Samples, x: Span, slow: bool, normalPick: bool, now: int)
    ensures var (s', labelled, result) := Answer(limit, on, s, x, slow, normalPick, now);
            && (result == NoOp
                <==> (!on.openNormal && !on.openSlow && !on.openError)
                     || (!x.isError && !x.topSpan && x.duration < on.ignoreThreshold))
            && (result == NoOp ==> s' == s && labelled == x.labels)
  {
  }

  // The limit is asked about the slow and failed spans of a kind that is on, if the head sampler picked
  // them; an answer of `not silent` and nothing else makes such a span a sampled one.
  lemma ProfiledExactly(limit: Config, on: Settings, s: Samples, x: Span, slow: bool, normalPick: bool, now: int)
    requires slow || x.isError
    ensures var (s', labelled, result) := Answer(limit, on, s, x, slow, normalPick, now);
            var (limited, silent) := Asked(limit, s.silent, x.pidUrl, now);
            var asked := result != NoOp && x.isSampled && ((on.openSlow && slow) || (on.openError && x.isError));
            && s'.silent == (if asked then limited else s.silent)
            && (result != NoOp ==>
                  (s'.marks, labelled, result)
                  == Decide(s.marks, x.labels, on.openSlow && slow, on.openError && x.isError, asked && !silent))
            && (result == TraceProfile <==> on.openSlow && slow && x.isSampled && !silent && result != NoOp)
  {
  }

  // Any other span never asks the limit; it is sampled as a normal one if normal sampling is on, the head
  // sampler picked it, it is the first of its trace where only those count, and the normal sampler picks it.
  lemma NormalExactly(limit: Config, on: Settings, s: Samples, x: Span, slow: bool, normalPick: bool, now: int)
    requires !slow && !x.isError
    ensures var (s', labelled, result) := Answer(limit, on, s, x, slow, normalPick, now);
            && s'.silent == s.silent
            && (result == Normal <==>
                result != NoOp && on.openNormal && x.isSampled && (on.normalTopSampling ==> x.topSpan) && normalPick)
            && (result != NoOp && result != Normal ==>
                  (s'.marks, labelled, result) == Decide(s.marks, x.labels, false, false, false))
  {
  }

  ghost predicate QueuedIfNew(id: Key, was: Held, now: Held, ids: seq<string>, ids': seq<string>) {
    ids' == ids + if id in now && id !in was then [id.text] else []
  }

  class SampleCache {
    const settings: Settings
    const silent: Silent
    const tailbaseSamplers: TailbaseSamplers
    var thresholdValues: Thresholds
    var updateTime: int

    ghost function View(): Samples
      reads silent, tailbaseSamplers.slowSampler, tailbaseSamplers.errorSampler, tailbaseSamplers.normalSampler
    {
      Samples(silent.View(), tailbaseSamplers.State())
    }

    constructor (settings: Settings, silent: Silent, tailbaseSamplers: TailbaseSamplers)
      ensures this.settings == settings && this.silent == silent && this.tailbaseSamplers == tailbaseSamplers
      ensures thresholdValues == map[]
    {
      this.settings, this.silent, this.tailbaseSamplers := settings, silent, tailbaseSamplers;
      thresholdValues := map[];
    }

    // Only positive thresholds are taken over; a later one of a URL replaces an earlier one.
    method UpdateSlowThreshold(datas: seq<(string, Threshold)>, now: int)
      modifies this
      ensures TakenOver(old(thresholdValues), datas, thresholdValues)
      ensures updateTime == if forall i :: 0 <= i < |datas| ==> datas[i].1.value <= 0.0 then old(updateTime) else now
    {
      for i := 0 to |datas|
        invariant TakenOver(old(thresholdValues), datas[..i], thresholdValues)
        invariant updateTime == if forall j :: 0 <= j < i ==> datas[j].1.value <= 0.0 then old(updateTime) else now
      {
        var (url, threshold) := datas[i];
        OneMoreTaken(old(thresholdValues), datas[..i], thresholdValues, url, threshold);
        assert datas[..i + 1] == datas[..i] + [(url, threshold)];
        if threshold.value > 0.0 {
          thresholdValues := thresholdValues[url := threshold];
          updateTime := now;
        }
      }
      assert datas[..|datas|] == datas;
    }

    // The threshold is what the span is labelled with.
    method CheckSlow(x: Span) returns (isSlow: bool, threshold: Threshold)
      ensures threshold == ThresholdOf(settings, thresholdValues, x.url)
      ensures x.url !in thresholdValues ==>
                threshold == Threshold("P90", "default", settings.slowThreshold as real, 1.0)
      ensures isSlow <==> threshold.value.Floor <= x.duration && settings.ignoreThreshold <= x.duration
    {
      if x.url in thresholdValues {
        threshold := thresholdValues[x.url];
      } else {
        threshold := Threshold("P90", "default", settings.slowThreshold as real, 1.0);
      }
      isSlow := threshold.value.Floor <= x.duration;
      if x.duration < settings.ignoreThreshold {
        isSlow := false;
      }
    }

    // normalPick is what the normal sampler would answer for the span.
    method GetSampleResult(x: Span, normalPick: bool, now: int) returns (labelled: TraceLabels, result: SampleResult)
      requires tailbaseSamplers.Valid()
      modifies silent, tailbaseSamplers.slowSampler, tailbaseSamplers.errorSampler, tailbaseSamplers.normalSampler
      modifies tailbaseSamplers.slowSampler.unSendIds, tailbaseSamplers.errorSampler.unSendIds
      modifies tailbaseSamplers.normalSampler.unSendIds
      ensures (View(), labelled, result)
           == Answer(silent.Settings(), settings, old(View()), x, IsSlow(settings, thresholdValues, x), normalPick, now)
      // A sampler that begins to hold the id has it queued to be sent, once; the others queue nothing.
      ensures QueuedIfNew(x.labels.traceId, old(tailbaseSamplers.slowSampler.sampledTraceIds),
                          tailbaseSamplers.slowSampler.sampledTraceIds,
                          old(tailbaseSamplers.slowSampler.unSendIds.toSendIds),
                          tailbaseSamplers.slowSampler.unSendIds.toSendIds)
      ensures QueuedIfNew(x.labels.traceId, old(tailbaseSamplers.errorSampler.sampledTraceIds),
                          tailbaseSamplers.errorSampler.sampledTraceIds,
                          old(tailbaseSamplers.errorSampler.unSendIds.toSendIds),
                          tailbaseSamplers.errorSampler.unSendIds.toSendIds)
      ensures QueuedIfNew(x.labels.traceId, old(tailbaseSamplers.normalSampler.sampledTraceIds),
                          tailbaseSamplers.normalSampler.sampledTraceIds,
                          old(tailbaseSamplers.normalSampler.unSendIds.toSendIds),
                          tailbaseSamplers.normalSampler.unSendIds.toSendIds)
    {
      var isSlow, _ := CheckSlow(x);
      if !settings.openNormal && !settings.openSlow && !settings.openError {
        return x.labels, NoOp;
      }
      if !x.isError && !x.topSpan && x.duration < settings.ignoreThreshold {
        return x.labels, NoOp;
      }
      var hasSlow, hasError, isSampled := false, false, false;
      if isSlow || x.isError {
        hasSlow := settings.openSlow && isSlow;
        hasError := settings.openError && x.isError;
        if (hasSlow || hasError) && x.isSampled {
          var isSilent := silent.IsSilent(x.pidUrl, now);
          isSampled := !isSilent;
        }
      } else if settings.openNormal && x.isSampled && (!settings.normalTopSampling || x.topSpan) {
        isSampled := normalPick;
      }
      labelled, result := tailbaseSamplers.Sample(x.labels, hasSlow, hasError, isSampled);
    }
  }

  // ---------------------------------------------------------------- runs

  datatype Call = Sample(x: Span, slow: bool, normalPick: bool, now: int) | CheckWindow(now: int)

  function AfterCall(limit: Config, on: Settings, s: Samples, call: Call): Samples {
    match call
    case Sample(x, slow, normalPick, now) => Answer(limit, on, s, x, slow, normalPick, now).0
    case CheckWindow(now) => s.(silent := Reset(limit, s.silent, now))
  }

  function After(limit: Config, on: Settings, marks: Marks, calls: seq<Call>): Samples {
    if calls == [] then Samples(Silencing.State(map[], 0), marks)
    else AfterCall(limit, on, After(limit, on, marks, calls[..|calls| - 1]), calls[|calls| - 1])
  }

  // What a call means for the limit.
  function EventOf(on: Settings, call: Call): seq<Event> {
    match call
    case Sample(x, slow, _, now) => if Asks(on, x, slow) then [Ask(x.pidUrl, now)] else []
    case CheckWindow(now) => [Check(now)]
  }

  function EventsOf(on: Settings, calls: seq<Call>): (events: seq<Event>)
    ensures |events| <= |calls|
  {
    if calls == [] then [] else EventsOf(on, calls[..|calls| - 1]) + EventOf(on, calls[|calls| - 1])
  }

  lemma CallIsEvent(limit: Config, on: Settings, s: Samples, call: Call)
    ensures AfterCall(limit, on, s, call).silent
         == if EventOf(on, call) == [] then s.silent else Step(limit, s.silent, EventOf(on, call)[0])
  {
  }

  lemma LimitAfterOneMore(limit: Config, before: seq<Event>, more: seq<Event>)
    requires |more| <= 1
    ensures Silencing.After(limit, before + more)
         == if more == [] then Silencing.After(limit, before) else Step(limit, Silencing.After(limit, before), more[0])
  {
    if more == [] {
      assert before + more == before;
    } else {
      assert (before + more)[..|before|] == before;
    }
  }

  lemma {:induction false} LimitSeesEvents(limit: Config, on: Settings, marks: Marks, calls: seq<Call>)
    ensures After(limit, on, marks, calls).silent == Silencing.After(limit, EventsOf(on, calls))
  {
    if calls != [] {
      var n := |calls| - 1;
      LimitSeesEvents(limit, on, marks, calls[..n]);
      CallIsEvent(limit, on, After(limit, on, marks, calls[..n]), calls[n]);
      LimitAfterOneMore(limit, EventsOf(on, calls[..n]), EventOf(on, calls[n]));
    }
  }

  ghost predicate ClockedCalls(calls: seq<Call>) {
    && (forall i :: 0 <= i < |calls| ==> 0 < calls[i].now)
    && (forall i, j :: 0 <= i < j < |calls| ==> calls[i].now <= calls[j].now)
  }

  // Call i samples a slow or failed span of the URL.
  predicate Profiles(limit: Config, on: Settings, marks: Marks, calls: seq<Call>, i: nat, url: PidUrl)
    requires i < |calls|
  {
    match calls[i]
    case Sample(x, slow, normalPick, now) =>
      var s := After(limit, on, marks, calls[..i]);
      && x.pidUrl == url && (slow || x.isError) && !Ignored(on, x)
      && Sampled(on, x, slow, AskLimit(limit, on, s.silent, x, slow, now).1, normalPick)
    case CheckWindow(_) => false
  }

  function Profiled(limit: Config, on: Settings, marks: Marks, calls: seq<Call>, url: PidUrl, a: nat, b: nat): nat
    requires a <= b <= |calls|
    decreases b - a
  {
    if a == b then 0
    else
      Profiled(limit, on, marks, calls, url, a, b - 1)
      + if Profiles(limit, on, marks, calls, b - 1, url) then 1 else 0
  }

  // The number of limit events before call i.
  function At(on: Settings, calls: seq<Call>, i: nat): nat
    requires i <= |calls|
  {
    |EventsOf(on, calls[..i])|
  }

  lemma {:induction false} EventsPrefix(on: Settings, calls: seq<Call>, a: nat, b: nat)
    requires a <= b <= |calls|
    ensures EventsOf(on, calls[..a]) <= EventsOf(on, calls[..b])
    decreases b - a
  {
    if a < b {
      EventsPrefix(on, calls, a, b - 1);
      assert calls[..b][..b - 1] == calls[..b - 1];
    }
  }

  // The events of some calls carry times between those of the first and the last of them.
  lemma {:induction false} EventTimes(on: Settings, calls: seq<Call>, a: nat, b: nat, k: nat)
    requires ClockedCalls(calls) && a < b <= |calls| && At(on, calls, a) <= k < At(on, calls, b)
    ensures calls[a].now <= EventsOf(on, calls[..b])[k].now <= calls[b - 1].now
    decreases b - a
  {
    assert calls[..b][..b - 1] == calls[..b - 1];
    if k < At(on, calls, b - 1) {
      EventTimes(on, calls, a, b - 1, k);
    } else {
      assert EventsOf(on, calls[..b])[k] == EventOf(on, calls[b - 1])[0];
    }
  }

  lemma {:induction false} EventsAreClocked(on: Settings, calls: seq<Call>)
    requires ClockedCalls(calls)
    ensures Clocked(EventsOf(on, calls))
  {
    if calls != [] {
      var n := |calls| - 1;
      EventsAreClocked(on, calls[..n]);
      forall k | 0 <= k < At(on, calls, n) ensures EventsOf(on, calls[..n])[k].now <= calls[n].now {
        if n > 0 {
          EventTimes(on, calls, 0, n, k);
        }
      }
    }
  }

  // The event of call i, if it is one, is the next one after those of the calls before it.
  lemma EventOfCall(on: Settings, calls: seq<Call>, i: nat)
    requires i < |calls|
    ensures At(on, calls, i + 1) == At(on, calls, i) + |EventOf(on, calls[i])| <= |EventsOf(on, calls)|
    ensures EventsOf(on, calls)[..At(on, calls, i)] == EventsOf(on, calls[..i])
    ensures EventOf(on, calls[i]) != [] ==> EventsOf(on, calls)[At(on, calls, i)] == EventOf(on, calls[i])[0]
  {
    EventsPrefix(on, calls, i, |calls|);
    EventsPrefix(on, calls, i + 1, |calls|);
    assert calls[..|calls|] == calls && calls[..i + 1][..i] == calls[..i];
    assert EventsOf(on, calls[..i + 1]) == EventsOf(on, calls[..i]) + EventOf(on, calls[i]);
  }

  // A slow or failed span is sampled exactly when the limit is asked and allows it.
  lemma ProfilesWhenAllowed(limit: Config, on: Settings, marks: Marks, calls: seq<Call>, i: nat, url: PidUrl)
    requires i < |calls|
    ensures At(on, calls, i) <= At(on, calls, i + 1) <= At(on, calls, i) + 1
            && At(on, calls, i + 1) <= |EventsOf(on, calls)|
    ensures Profiles(limit, on, marks, calls, i, url)
       <==> At(on, calls, i) < At(on, calls, i + 1) && Allows(limit, EventsOf(on, calls), At(on, calls, i), url)
  {
    EventOfCall(on, calls, i);
    LimitSeesEvents(limit, on, marks, calls[..i]);
  }

  lemma {:induction false} ProfiledIsAllowed(limit: Config, on: Settings, marks: Marks, calls: seq<Call>, url: PidUrl,
                                             a: nat, b: nat)
    requires a <= b <= |calls|
    ensures At(on, calls, a) <= At(on, calls, b) <= |EventsOf(on, calls)|
    ensures Profiled(limit, on, marks, calls, url, a, b)
         == Allowed(limit, EventsOf(on, calls), url, At(on, calls, a), At(on, calls, b))
    decreases b - a
  {
    if a == b {
      EventsPrefix(on, calls, a, |calls|);
      assert calls[..|calls|] == calls;
    } else {
      ProfiledIsAllowed(limit, on, marks, calls, url, a, b - 1);
      ProfilesWhenAllowed(limit, on, marks, calls, b - 1, url);
    }
  }

  lemma DivMonotone(x: int, y: int, p: int)
    requires 0 < p && x <= y
    ensures x / p <= y / p
  {
    if y / p < x / p {
      assert x == p * (x / p) + x % p && y == p * (y / p) + y % p;
      MulMonotone(p, y / p + 1, x / p);
      assert false;
    }
  }

  lemma BoundGrows(count: int, period: int, s: int, t: int)
    requires 0 < count && 0 < period && s <= t
    ensures count * (s / period + 2) <= count * (t / period + 2)
  {
    DivMonotone(s, t, period);
    MulMonotone(count, s / period + 2, t / period + 2);
  }

  lemma MulMonotone(c: int, x: int, y: int)
    requires 0 <= c && x <= y
    ensures c * x <= c * y
  {
  }

  // The limit holds for what is sampled: in window mode at most count * (T / period + 2) slow or
  // failed spans of one process and URL are sampled within a time span T, whatever else is called.
  lemma ProfiledRateBound(limit: Config, on: Settings, marks: Marks, calls: seq<Call>, url: PidUrl, a: nat, b: nat)
    requires limit.count > 0 && limit.period > 0 && limit.mode == Window && ClockedCalls(calls) && a < b <= |calls|
    ensures Profiled(limit, on, marks, calls, url, a, b)
         <= limit.count * ((calls[b - 1].now - calls[a].now) / limit.period + 2)
  {
    var events, i, j := EventsOf(on, calls), At(on, calls, a), At(on, calls, b);
    var t := calls[b - 1].now - calls[a].now;
    ProfiledIsAllowed(limit, on, marks, calls, url, a, b);
    if i == j {
      BoundGrows(limit.count, limit.period, 0, t);
      assert 0 / limit.period == 0;
    } else {
      EventsAreClocked(on, calls);
      EventsPrefix(on, calls, b, |calls|);
      assert calls[..|calls|] == calls;
      EventTimes(on, calls, a, b, i);
      EventTimes(on, calls, a, b, j - 1);
      RateBound(limit, events, url, i, j);
      BoundGrows(limit.count, limit.period, events[j - 1].now - events[i].now, t);
    }
  }
}
