// The samplers that remember which trace ids were sampled lately, and the answer they give for a span.
module TailbaseSampling {
  import opened TimeWheel
  import opened Wrappers
  import RetryQueue

  // The labels of one span; uid stands for the identity of the Go object.
  datatype TraceLabels = TraceLabels(uid: nat, traceId: Key, isProfiled: bool, reportType: nat)

  datatype SampleResult = NoOp | Cache | Trace | TraceProfile | TraceLog | Normal

  // ---------------------------------------------------------------- one sampler

  // The sampled ids and how many ticks each has been returned or held for.
  type Held = map<Key, nat>

  // notifyTailbase
  function Notified(held: Held, id: Key): Held {
    if id in held then held else held[id := 0]
  }

  // What one cleanSampledIds keeps, and which ids it returns: those on their first two ticks.
  function Cleaned(held: Held, holdTime: nat): Held {
    map id | id in held && held[id] < holdTime :: Older(held, id)
  }

  function Returned(held: Held, holdTime: nat): set<Key> {
    set id | id in held && held[id] < holdTime && held[id] + 1 <= 2
  }

  function Refreshed(held: Held, id: Key): Held {
    held[id := 0]
  }

  // updateSampledTraceIds
  function RefreshedAll(held: Held, ids: seq<Key>): Held
    decreases |ids|
  {
    if ids == [] then held else RefreshedAll(Refreshed(held, ids[0]), ids[1..])
  }

  class TailbaseSampler {
    const unSendIds: RetryQueue.UnSendIds
    var sampledTraceIds: Held
    const traceHoldTime: nat

    constructor (holdTime: nat, retryNum: int)
      ensures sampledTraceIds == map[] && traceHoldTime == holdTime
      ensures fresh(unSendIds) && (unSendIds.retry != null ==> fresh(unSendIds.retry))
      ensures unSendIds.Valid() && unSendIds.State(0) == RetryQueue.NewQueue(retryNum)
    {
      sampledTraceIds := map[];
      traceHoldTime := holdTime;
      unSendIds := new RetryQueue.UnSendIds(retryNum);
    }

    method IsTailBaseSampled(id: Key) returns (found: bool)
      ensures found <==> id in sampledTraceIds
    {
      found := id in sampledTraceIds;
    }

    method NotifyTailbase(trace: TraceLabels) returns (marked: TraceLabels)
      modifies this, unSendIds
      ensures marked == trace.(isProfiled := true)
      ensures sampledTraceIds == Notified(old(sampledTraceIds), trace.traceId)
      ensures unSendIds.toSendIds
           == old(unSendIds.toSendIds) + if trace.traceId in old(sampledTraceIds) then [] else [trace.traceId.text]
    {
      marked := trace.(isProfiled := true);
      if trace.traceId !in sampledTraceIds {
        sampledTraceIds := sampledTraceIds[trace.traceId := 0];
        unSendIds.toSendIds := unSendIds.toSendIds + [trace.traceId.text];
      }
    }

    method CleanSampledIds() returns (result: seq<Key>)
      modifies this
      ensures sampledTraceIds == Cleaned(old(sampledTraceIds), traceHoldTime)
      ensures Lists(result, Returned(old(sampledTraceIds), traceHoldTime))
    {
      result := [];
      var rest := sampledTraceIds.Keys;
      ghost var was := sampledTraceIds;
      while rest != {}
        invariant rest <= was.Keys
        invariant forall id :: id in sampledTraceIds <==> id in was && (id in rest || was[id] < traceHoldTime)
        invariant forall id :: id in sampledTraceIds ==>
                    sampledTraceIds[id] == if id in rest then was[id] else was[id] + 1
        invariant Lists(result, set id | id in was && id !in rest && was[id] < traceHoldTime && was[id] + 1 <= 2)
      {
        var id :| id in rest;
        var count := sampledTraceIds[id];
        if count >= traceHoldTime {
          sampledTraceIds := sampledTraceIds - {id};
        } else {
          sampledTraceIds := sampledTraceIds[id := count + 1];
          if count + 1 <= 2 {
            result := result + [id];
          }
        }
        rest := rest - {id};
      }
    }

    // Not ok when the queue's slice expression is out of range.
    method UpdateSampledTraceIds(traceIds: seq<Key>, count: nat) returns (ok: bool)
      requires unSendIds.Valid()
      modifies this, unSendIds, unSendIds.retry
      ensures unSendIds.Valid()
      ensures RetryQueue.Step(old(unSendIds.State(count)), RetryQueue.Sent)
           == if ok then Some(unSendIds.State(0)) else None
      ensures sampledTraceIds == if ok then RefreshedAll(old(sampledTraceIds), traceIds) else old(sampledTraceIds)
    {
      ok := true;
      if count > 0 {
        ok := unSendIds.MarkSent(count);
      }
      if !ok {
        return;
      }
      for i := 0 to |traceIds|
        invariant RefreshedAll(old(sampledTraceIds), traceIds) == RefreshedAll(sampledTraceIds, traceIds[i..])
        invariant unSendIds.Valid()
        invariant RetryQueue.Step(old(unSendIds.State(count)), RetryQueue.Sent) == Some(unSendIds.State(0))
      {
        assert traceIds[i..][0] == traceIds[i] && traceIds[i..][1..] == traceIds[i + 1..];
        sampledTraceIds := sampledTraceIds[traceIds[i] := 0];
      }
    }

    method UpdateUnSentCount(count: nat) returns (ok: bool)
      requires unSendIds.Valid()
      modifies unSendIds, unSendIds.retry
      ensures unSendIds.Valid()
      ensures RetryQueue.Step(old(unSendIds.State(count)), RetryQueue.Failed)
           == if ok then Some(unSendIds.State(0)) else None
    {
      ok := true;
      if count > 0 {
        ok := unSendIds.MarkUnSent(count);
      }
    }
  }

  // ---------------------------------------------------------------- the three samplers

  datatype Marks = Marks(error: Held, slow: Held, normal: Held)

  // Sample: what the samplers remember afterwards, the labels written to the span, and the answer.
  function Decide(m: Marks, trace: TraceLabels, hasSlow: bool, hasError: bool, isSampled: bool)
    : (Marks, TraceLabels, SampleResult)
  {
    var id := trace.traceId;
    if isSampled then
      var profiled := trace.(isProfiled := true);
      if hasSlow && hasError then
        (m.(slow := Notified(m.slow, id), error := Notified(m.error, id)), profiled.(reportType := 4), TraceProfile)
      else if hasSlow then (m.(slow := Notified(m.slow, id)), profiled.(reportType := 1), TraceProfile)
      else if hasError then (m.(error := Notified(m.error, id)), profiled.(reportType := 3), TraceLog)
      else (m.(normal := Notified(m.normal, id)), profiled.(reportType := 2), Normal)
    else if id in m.error then (m, trace, if hasError then TraceLog else Trace)
    else if id in m.slow || id in m.normal then (m, trace, Trace)
    else (m, trace, Cache)
  }

  class TailbaseSamplers {
    const traceCache: WriteableCache<TraceLabels>
    const slowSampler: TailbaseSampler
    const errorSampler: TailbaseSampler
    const normalSampler: TailbaseSampler

    ghost predicate Valid() {
      && slowSampler != errorSampler && slowSampler != normalSampler && errorSampler != normalSampler
      && slowSampler.unSendIds != errorSampler.unSendIds
      && slowSampler.unSendIds != normalSampler.unSendIds
      && errorSampler.unSendIds != normalSampler.unSendIds
      && slowSampler.traceHoldTime == errorSampler.traceHoldTime == normalSampler.traceHoldTime
    }

    ghost function State(): Marks
      reads slowSampler, errorSampler, normalSampler
    {
      Marks(errorSampler.sampledTraceIds, slowSampler.sampledTraceIds, normalSampler.sampledTraceIds)
    }

    constructor (holdTime: nat, retryNum: int)
      ensures Valid() && traceCache.cache == map[] && State() == Marks(map[], map[], map[])
      ensures errorSampler.traceHoldTime == holdTime
      ensures fresh(traceCache) && fresh(slowSampler) && fresh(errorSampler) && fresh(normalSampler)
    {
      traceCache := new WriteableCache<TraceLabels>();
      var slow := new TailbaseSampler(holdTime, retryNum);
      var error := new TailbaseSampler(holdTime, retryNum);
      var normal := new TailbaseSampler(holdTime, retryNum);
      slowSampler, errorSampler, normalSampler := slow, error, normal;
    }

    method Sample(trace: TraceLabels, hasSlow: bool, hasError: bool, isSampled: bool)
      returns (labelled: TraceLabels, result: SampleResult)
      requires Valid()
      modifies slowSampler, errorSampler, normalSampler
      modifies slowSampler.unSendIds, errorSampler.unSendIds, normalSampler.unSendIds
      ensures (State(), labelled, result) == Decide(old(State()), trace, hasSlow, hasError, isSampled)
      ensures slowSampler.unSendIds.toSendIds
           == old(slowSampler.unSendIds.toSendIds)
              + if isSampled && hasSlow && trace.traceId !in old(slowSampler.sampledTraceIds) then
                  [trace.traceId.text]
                else []
      ensures errorSampler.unSendIds.toSendIds
           == old(errorSampler.unSendIds.toSendIds)
              + if isSampled && hasError && trace.traceId !in old(errorSampler.sampledTraceIds) then
                  [trace.traceId.text]
                else []
      ensures normalSampler.unSendIds.toSendIds
           == old(normalSampler.unSendIds.toSendIds)
              + if isSampled && !hasSlow && !hasError && trace.traceId !in old(normalSampler.sampledTraceIds) then
                  [trace.traceId.text]
                else []
    {
      labelled := trace;
      if isSampled {
        if hasSlow && hasError {
          labelled := slowSampler.NotifyTailbase(labelled);
          labelled := errorSampler.NotifyTailbase(labelled);
          labelled := labelled.(reportType := 4);
          return labelled, TraceProfile;
        } else if hasSlow {
          labelled := slowSampler.NotifyTailbase(labelled);
          labelled := labelled.(reportType := 1);
          return labelled, TraceProfile;
        } else if hasError {
          labelled := errorSampler.NotifyTailbase(labelled);
          labelled := labelled.(reportType := 3);
          return labelled, TraceLog;
        } else {
          labelled := normalSampler.NotifyTailbase(labelled);
          labelled := labelled.(reportType := 2);
          return labelled, Normal;
        }
      }
      var inError := errorSampler.IsTailBaseSampled(trace.traceId);
      if inError {
        if hasError {
          return labelled, TraceLog;
        }
        return labelled, Trace;
      }
      var inSlow := slowSampler.IsTailBaseSampled(trace.traceId);
      if inSlow {
        return labelled, Trace;
      }
      var inNormal := normalSampler.IsTailBaseSampled(trace.traceId);
      if inNormal {
        return labelled, Trace;
      }
      return labelled, Cache;
    }
  }
}
