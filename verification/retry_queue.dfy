// The queue of sampled trace ids still to be reported (unSendIds) and the ring of
// batch sizes (RetryList) that decides how many ids a failed report drops.
module RetryQueue {
  import opened Wrappers

  // ---------------------------------------------------------------- the ring of counts

  datatype Ring = Ring(counts: seq<int>, fromIndex: nat, lastNum: int, size: nat) {
    ghost predicate Valid() {
      0 < |counts| && fromIndex < |counts| && size <= |counts|
    }

    // getToRemoveSize: the ring after a failed report of `num` ids, and how many of them to drop.
    function Record(num: int): (Ring, int)
      requires 0 < |counts| && fromIndex < |counts|
    {
      if size < |counts| then
        var index := if fromIndex + size >= |counts| then fromIndex + size - |counts| else fromIndex + size;
        (Ring(counts[index := num - lastNum], fromIndex, num, size + 1), 0)
      else
        var remove := counts[fromIndex];
        var shifted := counts[fromIndex := num - lastNum][1..] + [num - lastNum];
        var from := if fromIndex == |counts| - 1 then 0 else fromIndex + 1;
        (Ring(shifted, from, num - remove, size), remove)
    }

    function Reset(): Ring {
      this.(size := 0, lastNum := 0)
    }
  }

  class RetryList {
    var counts: seq<int>
    var fromIndex: nat
    var lastNum: int
    var size: nat

    ghost function State(): Ring
      reads this
    {
      Ring(counts, fromIndex, lastNum, size)
    }

    constructor (retryNum: int)
      requires retryNum > 0
      ensures State() == NewRing(retryNum)
    {
      counts := seq(retryNum, i => 0);
      fromIndex, lastNum, size := 0, 0, 0;
    }

    method GetToRemoveSize(num: int) returns (toRemoveSize: int)
      requires State().Valid()
      modifies this
      ensures (State(), toRemoveSize) == old(State()).Record(num)
      ensures State().Valid()
    {
      if size < |counts| {
        var index := fromIndex + size;
        if index >= |counts| {
          index := index - |counts|;
        }
        counts := counts[index := num - lastNum];
        size := size + 1;
        lastNum := num;
        return 0;
      } else {
        toRemoveSize := counts[fromIndex];
        counts := counts[fromIndex := num - lastNum];
        counts := counts[1..] + [num - lastNum];
        lastNum := num - toRemoveSize;
        if fromIndex == |counts| - 1 {
          fromIndex := 0;
        } else {
          fromIndex := fromIndex + 1;
        }
      }
    }

    method Reset()
      requires State().Valid()
      modifies this
      ensures State() == old(State()).Reset() && State().Valid()
    {
      size := 0;
      lastNum := 0;
    }
  }

  function NewRing(retryNum: int): Ring
    requires retryNum > 0
  {
    Ring(seq(retryNum, i => 0), 0, 0, 0)
  }

  // ---------------------------------------------------------------- the queue

  // `taken` is the length of the snapshot a report in flight was built from; 0 when there is none.
  datatype Queue = Queue(ids: seq<string>, ring: Option<Ring>, taken: nat)

  datatype Event =
    | Cache(id: string)  // cacheIds
    | Take               // GetToSendIds at the start of a report
    | Sent               // the report succeeded: markSent
    | Failed             // the report failed: markUnSent

  // How many ids a failed report of `num` ids drops, and the ring afterwards.
  function Drop(q: Queue, num: int): (Option<Ring>, int)
    requires q.ring.Some? ==> q.ring.value.Valid()
  {
    if q.ring.None? then (None, num)
    else var (ring, remove) := q.ring.value.Record(num); (Some(ring), remove)
  }

  // One step; None when the slice expression `toSendIds[k:]` is out of range.
  function Step(q: Queue, e: Event): Option<Queue>
    requires q.ring.Some? ==> q.ring.value.Valid()
  {
    match e
    case Cache(id) => Some(q.(ids := q.ids + [id]))
    case Take => Some(q.(taken := |q.ids|))
    case Sent =>
      if q.taken == 0 then Some(q)
      else if q.taken > |q.ids| then None
      else
        Some(Queue(q.ids[q.taken..], if q.ring.Some? then Some(q.ring.value.Reset()) else None, 0))
    case Failed =>
      if q.taken == 0 then Some(q)
      else
        var (ring, remove) := Drop(q, q.taken);
        if remove <= 0 then Some(Queue(q.ids, ring, 0))
        else if remove > |q.ids| then None
        else Some(Queue(q.ids[remove..], ring, 0))
  }

  // A report that succeeded takes its ids off the queue, whatever was queued meanwhile, and the next
  // failed ones start from an empty ring.
  lemma SentTakesItsIds(q: Queue, late: seq<string>, num: int)
    requires q.ring.Some? ==> q.ring.value.Valid()
    requires q.ids != []
    ensures var sent := Step(Queue(q.ids + late, q.ring, |q.ids|), Sent);
            && sent.Some? && sent.value.ids == late && sent.value.taken == 0
            && (sent.value.ring.Some? <==> q.ring.Some?)
            && (q.ring.Some? ==>
                  var ring := sent.value.ring.value;
                  ring.Valid() && ring.lastNum == 0 && ring.size == 0 && ring.Record(num).1 == 0
                  && ring.Record(num).0.lastNum == num && num in ring.Record(num).0.counts)
  {
    assert (q.ids + late)[|q.ids|..] == late;
    if q.ring.Some? {
      var ring := q.ring.value.Reset();
      assert ring.Record(num).0.counts[ring.fromIndex] == num;
    }
  }

  // Without a window a failed report drops the ids it carried, and only those.
  lemma NoWindowDropsAll(q: Queue, late: seq<string>)
    requires q.ring.None?
    ensures Step(Queue(q.ids + late, None, |q.ids|), Failed) == Some(Queue(late, None, 0))
  {
    assert (q.ids + late)[|q.ids|..] == late;
    assert q.ids == [] ==> q.ids + late == late;
  }

  lemma StepKeepsRingValid(q: Queue, e: Event)
    requires q.ring.Some? ==> q.ring.value.Valid()
    ensures Step(q, e).Some? && Step(q, e).value.ring.Some? ==> Step(q, e).value.ring.value.Valid()
  {
  }

  function Run(q: Queue, es: seq<Event>): Option<Queue>
    requires q.ring.Some? ==> q.ring.value.Valid()
    decreases |es|
  {
    if es == [] then Some(q)
    else
      var next := Step(q, es[0]);
      if next.None? then None else (StepKeepsRingValid(q, es[0]); Run(next.value, es[1..]))
  }

  class UnSendIds {
    var toSendIds: seq<string>
    const retry: RetryList?

    ghost predicate Valid()
      reads this, retry
    {
      retry != null ==> retry.State().Valid()
    }

    // The queue as a value; the snapshot length is the caller's local variable.
    ghost function State(taken: nat): Queue
      reads this, retry
    {
      Queue(toSendIds, if retry == null then None else Some(retry.State()), taken)
    }

    constructor (retryNum: int)
      ensures Valid() && State(0) == NewQueue(retryNum)
      ensures retry != null ==> fresh(retry)
    {
      toSendIds := [];
      if retryNum > 0 {
        var list := new RetryList(retryNum);
        retry := list;
      } else {
        retry := null;
      }
    }

    method CacheIds(id: string)
      requires Valid()
      modifies this
      ensures Valid()
      ensures forall taken: nat :: Step(old(State(taken)), Cache(id)) == Some(State(taken))
    {
      toSendIds := toSendIds + [id];
    }

    method GetToSendIds() returns (ids: seq<string>)
      ensures ids == toSendIds
    {
      var size := |toSendIds|;
      ids := toSendIds[0..size];
    }

    // Not ok when the slice expression is out of range, which ends the process.
    method MarkUnSent(num: nat) returns (ok: bool)
      requires Valid()
      modifies this, retry
      ensures Valid()
      ensures Step(old(State(num)), Failed) == if ok then Some(State(0)) else None
    {
      if num <= 0 {
        return true;
      }
      var toRemoveSize := num;
      if retry != null {
        toRemoveSize := retry.GetToRemoveSize(num);
      }
      if toRemoveSize > 0 {
        if toRemoveSize > |toSendIds| {
          return false;
        }
        toSendIds := toSendIds[toRemoveSize..];
      }
      return true;
    }

    // For a num of 0, which its caller never passes, the ring is reset all the same.
    method MarkSent(num: nat) returns (ok: bool)
      requires Valid()
      modifies this, retry
      ensures Valid()
      ensures 0 < num ==> Step(old(State(num)), Sent) == if ok then Some(State(0)) else None
      ensures ok <==> num <= |old(toSendIds)|
      ensures ok ==> toSendIds == old(toSendIds)[num..]
      ensures ok && retry != null ==> retry.State() == old(retry.State()).Reset()
    {
      if num > |toSendIds| {
        return false;
      }
      toSendIds := toSendIds[num..];
      if retry != null {
        retry.Reset();
      }
      return true;
    }
  }

  function NewQueue(retryNum: int): Queue {
    Queue([], if retryNum > 0 then Some(NewRing(retryNum)) else None, 0)
  }

  // ---------------------------------------------------------------- masked sums

  // The sum of the first n counts at the positions the mask selects.
  function MaskedSum(c: seq<int>, mask: seq<bool>, n: nat): int
    requires n <= |c| == |mask|
  {
    if n == 0 then 0 else MaskedSum(c, mask, n - 1) + if mask[n - 1] then c[n - 1] else 0
  }

  lemma {:induction false} MaskedSumGrows(c: seq<int>, small: seq<bool>, large: seq<bool>, n: nat)
    requires n <= |c| == |small| == |large|
    requires forall i :: 0 <= i < n ==> small[i] ==> large[i] && 0 <= c[i]
    requires forall i :: 0 <= i < n ==> large[i] ==> 0 <= c[i]
    ensures MaskedSum(c, small, n) <= MaskedSum(c, large, n)
  {
    if n != 0 {
      MaskedSumGrows(c, small, large, n - 1);
    }
  }

  // Two sums that agree except that position i is selected in the first only, or with another count.
  lemma {:induction false} MaskedSumOff(c: seq<int>, mask: seq<bool>, c': seq<int>, mask': seq<bool>, i: nat, n: nat)
    requires i < n <= |c| == |mask| == |c'| == |mask'| && mask[i]
    requires forall p :: 0 <= p < n && p != i ==> c[p] == c'[p] && mask[p] == mask'[p]
    ensures MaskedSum(c, mask, n) - c[i] == MaskedSum(c', mask', n) - if mask'[i] then c'[i] else 0
  {
    if i == n - 1 {
      MaskedSumSame(c, mask, c', mask', i);
    } else {
      MaskedSumOff(c, mask, c', mask', i, n - 1);
    }
  }

  lemma {:induction false} MaskedSumSame(c: seq<int>, mask: seq<bool>, c': seq<int>, mask': seq<bool>, n: nat)
    requires n <= |c| == |mask| == |c'| == |mask'|
    requires forall p :: 0 <= p < n ==> c[p] == c'[p] && mask[p] == mask'[p]
    ensures MaskedSum(c, mask, n) == MaskedSum(c', mask', n)
  {
    if n != 0 {
      MaskedSumSame(c, mask, c', mask', n - 1);
    }
  }

  // Shifting the counts one to the left.
  lemma {:induction false} MaskedSumShift(c: seq<int>, mask: seq<bool>, c': seq<int>, mask': seq<bool>, n: nat)
    requires n < |c| == |mask| == |c'| == |mask'|
    requires forall p :: 0 <= p < n ==> c'[p] == c[p + 1]
    requires forall p :: 0 <= p < n ==> mask'[p] ==> mask[p + 1]
    requires forall p :: 0 <= p <= n ==> mask[p] ==> 0 <= c[p]
    ensures MaskedSum(c', mask', n) <= MaskedSum(c, mask, n + 1)
  {
    if n != 0 {
      MaskedSumShift(c, mask, c', mask', n - 1);
    }
  }

  // ---------------------------------------------------------------- odd windows and window 2

  // Position p of a full ring will be read by a later eviction, k evictions from now, iff
  // p - k == fromIndex + k (mod n) for some k <= p.
  predicate Readable(n: nat, from: nat, p: nat) {
    || (from <= p && (p - from) % 2 == 0)
    || (n <= p + from && (p + n - from) % 2 == 0)
  }

  function ReadableMask(n: nat, from: nat): seq<bool>
    requires from < n
  {
    if n == 2 then seq(n, p => p == from) else seq(n, p requires 0 <= p => Readable(n, from, p))
  }

  // Positions written since the last reset.
  function FilledMask(n: nat, from: nat, size: nat): seq<bool> {
    seq(n, p requires 0 <= p => (from <= p && p - from < size) || (p < from && p + n - from < size))
  }

  ghost predicate RingInv(ring: Ring) {
    && ring.Valid()
    && var n := |ring.counts|;
       var filled := FilledMask(n, ring.fromIndex, ring.size);
       && (forall i :: 0 <= i < n && filled[i] ==> 0 <= ring.counts[i])
       && 0 <= ring.lastNum
       && (ring.size < n ==> MaskedSum(ring.counts, filled, n) == ring.lastNum)
       && (ring.size == n ==> MaskedSum(ring.counts, ReadableMask(n, ring.fromIndex), n) <= ring.lastNum)
  }

  predicate SafeWindow(n: int) {
    n % 2 == 1 || n <= 2
  }

  lemma {:induction false} MaskedSumNone(c: seq<int>, mask: seq<bool>, n: nat)
    requires n <= |c| == |mask| && forall i :: 0 <= i < n ==> !mask[i]
    ensures MaskedSum(c, mask, n) == 0
  {
    if n != 0 {
      MaskedSumNone(c, mask, n - 1);
    }
  }

  lemma {:induction false} MaskedSumPart(c: seq<int>, mask: seq<bool>, i: nat, n: nat)
    requires i < n <= |c| == |mask| && mask[i]
    requires forall j :: 0 <= j < n && mask[j] ==> 0 <= c[j]
    ensures c[i] <= MaskedSum(c, mask, n)
    ensures 0 <= MaskedSum(c, mask, n)
  {
    MaskedSumNone(c, seq(|c|, j => false), n);
    if i < n - 1 {
      MaskedSumPart(c, mask, i, n - 1);
    } else {
      MaskedSumGrows(c, seq(|c|, j => false), mask, n - 1);
      MaskedSumNone(c, seq(|c|, j => false), n - 1);
    }
  }

  // Recording into a ring that is not yet full keeps its filled part adding up to lastNum.
  lemma FillRecord(ring: Ring, num: int)
    requires ring.Valid() && ring.size < |ring.counts|
    requires MaskedSum(ring.counts, FilledMask(|ring.counts|, ring.fromIndex, ring.size), |ring.counts|) == ring.lastNum
    ensures var (next, remove) := ring.Record(num);
            && remove == 0 && next.Valid()
            && MaskedSum(next.counts, FilledMask(|ring.counts|, ring.fromIndex, ring.size + 1), |ring.counts|) == num
  {
    var n := |ring.counts|;
    var next := ring.Record(num).0;
    var index := if ring.fromIndex + ring.size >= n then ring.fromIndex + ring.size - n else ring.fromIndex + ring.size;
    var was, now := FilledMask(n, ring.fromIndex, ring.size), FilledMask(n, ring.fromIndex, ring.size + 1);
    MaskedSumOff(next.counts, now, ring.counts, was, index, n);
  }

  lemma FillStep(ring: Ring, num: int)
    requires RingInv(ring) && ring.size < |ring.counts|
    requires ring.lastNum <= num
    ensures RingInv(ring.Record(num).0) && ring.Record(num).1 == 0
  {
    var n := |ring.counts|;
    var next := ring.Record(num).0;
    FillRecord(ring, num);
    if next.size == n {
      MaskedSumGrows(next.counts, ReadableMask(n, ring.fromIndex), FilledMask(n, ring.fromIndex, n), n);
    }
  }

  // With an odd ring, a position read after an eviction was readable, one to the right, before it.
  lemma ReadableShift(n: nat, from: nat, p: nat)
    requires n % 2 == 1 && from < n && p < n - 1
    requires Readable(n, if from == n - 1 then 0 else from + 1, p)
    ensures Readable(n, from, p + 1) && p + 1 != from
  {
    if from == n - 1 {
      assert p % 2 == 0;
      TwoMore(p);
    } else if from + 1 <= p && (p - from - 1) % 2 == 0 {
      TwoMore(p - from - 1);
    } else {
      TwoMore(p + n - from - 1);
    }
  }

  lemma TwoMore(x: int)
    ensures (x + 2) % 2 == x % 2
  {
  }

  // Dropping count f and shifting in d twice, at f and at the tail.
  lemma ShiftedSum(c: seq<int>, f: nat, d: nat, mask: seq<bool>, mask': seq<bool>, next: seq<int>)
    requires |c| == |mask| == |mask'| == |next| && f < |c| && mask[f]
    requires forall i :: 0 <= i < |c| ==> 0 <= c[i]
    requires forall p :: 0 <= p < |c| - 1 && mask'[p] ==> mask[p + 1] && p + 1 != f
    requires forall p :: 0 <= p < |c| - 1 ==> next[p] == if p + 1 == f then d else c[p + 1]
    requires next[|c| - 1] == d
    ensures MaskedSum(next, mask', |c|) <= MaskedSum(c, mask, |c|) - c[f] + d
  {
    var n := |c|;
    var c', off := c[f := d], mask[f := false];
    MaskedSumOff(c, mask, c', off, f, n);
    assert forall p :: 0 <= p < n - 1 ==> next[p] == c'[p + 1];
    MaskedSumShift(c', off, next, mask', n - 1);
  }

  // An eviction from a full ring of odd size: the count read is never read again.
  lemma OddEvictStep(ring: Ring, num: int)
    requires ring.Valid() && ring.size == |ring.counts| && |ring.counts| % 2 == 1
    requires forall i :: 0 <= i < |ring.counts| ==> 0 <= ring.counts[i]
    requires MaskedSum(ring.counts, ReadableMask(|ring.counts|, ring.fromIndex), |ring.counts|) <= ring.lastNum <= num
    ensures MaskedSum(ring.Record(num).0.counts, ReadableMask(|ring.counts|, ring.Record(num).0.fromIndex),
                      |ring.counts|)
            <= ring.Record(num).0.lastNum
  {
    var n, f := |ring.counts|, ring.fromIndex;
    var f' := if f == n - 1 then 0 else f + 1;
    var mask, mask' := ReadableMask(n, f), ReadableMask(n, f');
    forall p | 0 <= p < n - 1 && mask'[p] ensures mask[p + 1] && p + 1 != f {
      ReadableShift(n, f, p);
    }
    ShiftedSum(ring.counts, f, num - ring.lastNum, mask, mask', ring.Record(num).0.counts);
  }

  lemma PairEvictStep(ring: Ring, num: int)
    requires ring.Valid() && ring.size == |ring.counts| == 2
    requires ring.counts[ring.fromIndex] <= ring.lastNum <= num
    ensures MaskedSum(ring.Record(num).0.counts, ReadableMask(2, ring.Record(num).0.fromIndex), 2)
            <= ring.Record(num).0.lastNum
  {
    var next := ring.Record(num).0;
    assert next.counts[next.fromIndex] == num - ring.lastNum;
    PairSum(next.counts, next.fromIndex);
  }

  lemma PairSum(c: seq<int>, f: nat)
    requires |c| == 2 && f < 2
    ensures MaskedSum(c, ReadableMask(2, f), 2) == c[f]
  {
    assert MaskedSum(c, ReadableMask(2, f), 0) == 0;
    assert MaskedSum(c, ReadableMask(2, f), 1) == if f == 0 then c[0] else 0;
  }

  lemma EvictStep(ring: Ring, num: int)
    requires RingInv(ring) && ring.size == |ring.counts| && SafeWindow(|ring.counts|)
    requires ring.lastNum <= num
    ensures RingInv(ring.Record(num).0)
    ensures 0 <= ring.Record(num).1 <= ring.lastNum
  {
    var n, f := |ring.counts|, ring.fromIndex;
    forall i | 0 <= i < n ensures 0 <= ring.counts[i] {
      assert FilledMask(n, f, n)[i];
    }
    assert ReadableMask(n, f)[f];
    MaskedSumPart(ring.counts, ReadableMask(n, f), f, n);
    if n == 2 {
      PairEvictStep(ring, num);
    } else {
      OddEvictStep(ring, num);
    }
  }

  ghost predicate QueueInv(q: Queue) {
    && q.taken <= |q.ids|
    && (q.ring.Some? ==>
          && RingInv(q.ring.value)
          && SafeWindow(|q.ring.value.counts|)
          && q.ring.value.lastNum <= |q.ids|
          && (0 < q.taken ==> q.ring.value.lastNum <= q.taken))
  }

  lemma ResetKeepsInv(ring: Ring)
    requires ring.Valid()
    ensures RingInv(ring.Reset())
  {
    MaskedSumNone(ring.counts, FilledMask(|ring.counts|, ring.fromIndex, 0), |ring.counts|);
  }

  lemma StepKeepsInv(q: Queue, e: Event)
    requires QueueInv(q)
    ensures Step(q, e).Some? && QueueInv(Step(q, e).value)
  {
    if q.ring.Some? {
      var ring := q.ring.value;
      if e.Sent? {
        ResetKeepsInv(ring);
      } else if e.Failed? && 0 < q.taken {
        if ring.size < |ring.counts| {
          FillStep(ring, q.taken);
        } else {
          EvictStep(ring, q.taken);
        }
      }
    }
  }

  function Cached(es: seq<Event>): seq<string> {
    if es == [] then [] else (if es[0].Cache? then [es[0].id] else []) + Cached(es[1..])
  }

  ghost predicate IsSuffix(s: seq<string>, all: seq<string>) {
    exists k: nat :: k <= |all| && s == all[k..]
  }

  // Each step either appends an id or drops a prefix.
  lemma StepDropsPrefix(q: Queue, e: Event, rest: seq<string>) returns (drop: nat)
    requires QueueInv(q) && Step(q, e).Some?
    ensures var all := q.ids + (if e.Cache? then [e.id] else []) + rest;
            drop <= |all| && Step(q, e).value.ids + rest == all[drop..]
  {
    var next := Step(q, e).value;
    drop := if e.Cache? then 0 else |q.ids| - |next.ids|;
    if !e.Cache? {
      assert next.ids == q.ids[drop..];
    }
  }

  lemma {:induction false} RunKeepsInv(q: Queue, es: seq<Event>)
    requires QueueInv(q)
    ensures Run(q, es).Some? && QueueInv(Run(q, es).value)
    decreases |es|
  {
    if es != [] {
      StepKeepsInv(q, es[0]);
      RunKeepsInv(Step(q, es[0]).value, es[1..]);
    }
  }

  lemma StepKeepsSuffix(q: Queue, e: Event, rest: seq<string>, last: seq<string>)
    requires QueueInv(q)
    ensures Step(q, e).Some? && QueueInv(Step(q, e).value)
    ensures IsSuffix(last, Step(q, e).value.ids + rest)
            ==> IsSuffix(last, q.ids + (if e.Cache? then [e.id] else []) + rest)
  {
    StepKeepsInv(q, e);
    var drop := StepDropsPrefix(q, e, rest);
    if IsSuffix(last, Step(q, e).value.ids + rest) {
      SuffixOfSuffix(last, q.ids + (if e.Cache? then [e.id] else []) + rest, drop);
    }
  }

  lemma {:induction false} RunKeepsSuffix(q: Queue, es: seq<Event>)
    requires QueueInv(q)
    ensures Run(q, es).Some? && IsSuffix(Run(q, es).value.ids, q.ids + Cached(es))
    decreases |es|
  {
    RunKeepsInv(q, es);
    if es == [] {
      assert q.ids == (q.ids + Cached(es))[0..];
    } else {
      StepKeepsSuffix(q, es[0], Cached(es[1..]), Run(q, es).value.ids);
      RunKeepsSuffix(Step(q, es[0]).value, es[1..]);
      CachedFirst(q.ids, es);
    }
  }

  lemma CachedFirst(ids: seq<string>, es: seq<Event>)
    requires es != []
    ensures ids + (if es[0].Cache? then [es[0].id] else []) + Cached(es[1..]) == ids + Cached(es)
  {
  }

  lemma SuffixOfSuffix(s: seq<string>, all: seq<string>, drop: nat)
    requires drop <= |all| && IsSuffix(s, all[drop..])
    ensures IsSuffix(s, all)
  {
    var k: nat :| k <= |all[drop..]| && s == all[drop..][k..];
    assert s == all[drop + k..];
  }

  // Where a queue may stand just after a reset: any ids, any ring contents, any fromIndex.
  ghost predicate JustReset(q: Queue, retryNum: int) {
    && q.taken == 0
    && (q.ring.Some? <==> retryNum > 0)
    && (q.ring.Some? ==>
          q.ring.value.Valid() && |q.ring.value.counts| == retryNum && q.ring.value.size == 0
              && q.ring.value.lastNum == 0)
  }

  // For an odd window, window 2 and no window at all, no run ever slices out of range, and what
  // is queued is always a suffix of everything queued so far.
  lemma NeverOutOfRange(q: Queue, retryNum: int, es: seq<Event>)
    requires JustReset(q, retryNum) && SafeWindow(retryNum)
    ensures Run(q, es).Some?
    ensures IsSuffix(Run(q, es).value.ids, q.ids + Cached(es))
  {
    if q.ring.Some? {
      ResetKeepsInv(q.ring.value);
    }
    RunKeepsSuffix(q, es);
  }

  // ---------------------------------------------------------------- runs of failed reports

  function Caches(ids: seq<string>): seq<Event> {
    seq(|ids|, i requires 0 <= i < |ids| => Cache(ids[i]))
  }

  // A failed report: `before` is queued first, `late` while the report is under way.
  datatype Report = Report(before: seq<string>, late: seq<string>)

  function Events(r: Report): seq<Event> {
    Caches(r.before) + [Take] + Caches(r.late) + [Failed]
  }

  function AllEvents(rs: seq<Report>): seq<Event> {
    if rs == [] then [] else AllEvents(rs[..|rs| - 1]) + Events(rs[|rs| - 1])
  }

  lemma {:induction false} RunConcat(q: Queue, a: seq<Event>, b: seq<Event>)
    requires q.ring.Some? ==> q.ring.value.Valid()
    ensures Run(q, a).None? ==> Run(q, a + b).None?
    ensures Run(q, a).Some? ==> Run(q, a).value.ring.Some? ==> Run(q, a).value.ring.value.Valid()
    ensures Run(q, a).Some? ==> Run(q, a + b) == Run(Run(q, a).value, b)
    decreases |a|
  {
    if a == [] {
      assert a + b == b;
    } else {
      assert (a + b)[0] == a[0] && (a + b)[1..] == a[1..] + b;
      var next := Step(q, a[0]);
      if next.Some? {
        StepKeepsRingValid(q, a[0]);
        RunConcat(next.value, a[1..], b);
      }
    }
  }

  lemma {:induction false} RunCaches(q: Queue, ids: seq<string>)
    requires q.ring.Some? ==> q.ring.value.Valid()
    ensures Run(q, Caches(ids)) == Some(q.(ids := q.ids + ids))
    decreases |ids|
  {
    if ids == [] {
      assert q.ids + ids == q.ids;
    } else {
      assert Caches(ids)[1..] == Caches(ids[1..]);
      RunCaches(q.(ids := q.ids + [ids[0]]), ids[1..]);
      assert q.ids + [ids[0]] + ids[1..] == q.ids + ids;
    }
  }

  lemma RunOne(q: Queue, e: Event)
    requires q.ring.Some? ==> q.ring.value.Valid()
    ensures Run(q, [e]) == Step(q, e)
  {
    StepKeepsRingValid(q, e);
    assert [e][1..] == [];
  }

  // The queue at the moment a failed report is accounted for.
  function AtFailure(q: Queue, r: Report): Queue {
    Queue(q.ids + r.before + r.late, q.ring, |q.ids| + |r.before|)
  }

  lemma RunReport(q: Queue, rs: seq<Report>, r: Report)
    requires q.ring.Some? ==> q.ring.value.Valid()
    requires Run(q, AllEvents(rs)).Some?
    ensures var last := Run(q, AllEvents(rs)).value;
            && (last.ring.Some? ==> last.ring.value.Valid())
            && Run(q, AllEvents(rs + [r])) == Step(AtFailure(last, r), Failed)
  {
    assert (rs + [r])[..|rs|] == rs;
    RunConcat(q, AllEvents(rs), Events(r));
    var q0 := Run(q, AllEvents(rs)).value;
    RunCaches(q0, r.before);
    var q1 := q0.(ids := q0.ids + r.before);
    RunConcat(q0, Caches(r.before), [Take]);
    RunOne(q1, Take);
    var q2 := q1.(taken := |q1.ids|);
    RunConcat(q0, Caches(r.before) + [Take], Caches(r.late));
    RunCaches(q2, r.late);
    RunConcat(q0, Caches(r.before) + [Take] + Caches(r.late), [Failed]);
    RunOne(q2.(ids := q2.ids + r.late), Failed);
    assert q0.ids + r.before + r.late == AtFailure(q0, r).ids;
  }

  // ---------------------------------------------------------------- the first eviction is exact

  function Queued(rs: seq<Report>): seq<string> {
    if rs == [] then [] else Queued(rs[..|rs| - 1]) + rs[|rs| - 1].before + rs[|rs| - 1].late
  }

  // The queue after at most retryNum failed reports in a row since a reset of q: nothing dropped; the
  // ring holds what each of them added, the oldest at fromIndex, adding up to the ids that have
  // already failed once.
  ghost predicate Filling(q: Queue, rs: seq<Report>, now: Queue)
    requires q.ring.Some?
  {
    && now.ids == q.ids + Queued(rs)
    && now.ring.Some?
    && var n, ring := |q.ring.value.counts|, now.ring.value;
       && ring.Valid() && |ring.counts| == n && ring.size == |rs|
       && ring.fromIndex == q.ring.value.fromIndex
       && MaskedSum(ring.counts, FilledMask(n, ring.fromIndex, ring.size), n) == ring.lastNum
       && (rs == [] ==> ring.lastNum == 0)
       && (rs != [] ==> ring.counts[ring.fromIndex] == |q.ids| + |rs[0].before|)
       && (rs != [] ==> ring.lastNum == |now.ids| - |rs[|rs| - 1].late|)
  }

  lemma FillingStep(q: Queue, rs: seq<Report>, now: Queue, r: Report)
    requires q.ring.Some? && q.ring.value.Valid() && |rs| < |q.ring.value.counts|
    requires Filling(q, rs, now)
    requires 0 < |now.ids| + |r.before|
    ensures Step(AtFailure(now, r), Failed).Some?
    ensures Filling(q, rs + [r], Step(AtFailure(now, r), Failed).value)
  {
    FillRecord(now.ring.value, |now.ids| + |r.before|);
    assert (rs + [r])[..|rs|] == rs;
    assert rs == [] ==> now.ids == q.ids;
    assert now.ids + r.before + r.late == q.ids + Queued(rs + [r]);
  }

  lemma {:induction false} FillingDropsNothing(q: Queue, retryNum: int, rs: seq<Report>)
    requires retryNum > 0 && JustReset(q, retryNum)
    requires |rs| <= retryNum
    requires rs != [] ==> q.ids + rs[0].before != []
    ensures Run(q, AllEvents(rs)).Some?
    ensures Filling(q, rs, Run(q, AllEvents(rs)).value)
  {
    if rs == [] {
      assert q.ids + Queued(rs) == q.ids;
      MaskedSumNone(q.ring.value.counts, FilledMask(retryNum, q.ring.value.fromIndex, 0), retryNum);
    } else {
      var k := |rs| - 1;
      assert rs[..k] + [rs[k]] == rs;
      FillingDropsNothing(q, retryNum, rs[..k]);
      RunReport(q, rs[..k], rs[k]);
      if k > 0 {
        QueuedPrefix(rs[..k]);
      }
      FillingStep(q, rs[..k], Run(q, AllEvents(rs[..k])).value, rs[k]);
    }
  }

  lemma {:induction false} QueuedPrefix(rs: seq<Report>)
    requires rs != []
    ensures rs[0].before <= Queued(rs)
  {
    if |rs| > 1 {
      QueuedPrefix(rs[..|rs| - 1]);
    }
  }

  lemma FirstEvictionIsExact(q: Queue, retryNum: int, rs: seq<Report>)
    requires retryNum > 0 && JustReset(q, retryNum)
    requires |rs| == retryNum + 1 && q.ids + rs[0].before != []
    ensures Run(q, AllEvents(rs)).Some?
    ensures var first := q.ids + rs[0].before;
            first + Run(q, AllEvents(rs)).value.ids == q.ids + Queued(rs)
  {
    var r := rs[retryNum];
    assert rs[..retryNum] + [r] == rs;
    FillingDropsNothing(q, retryNum, rs[..retryNum]);
    RunReport(q, rs[..retryNum], r);
    var before := Run(q, AllEvents(rs[..retryNum])).value;
    EvictionDropsFirst(q, rs[..retryNum], before, r);
  }

  lemma EvictionDropsFirst(q: Queue, rs: seq<Report>, now: Queue, r: Report)
    requires q.ring.Some? && q.ring.value.Valid() && |rs| == |q.ring.value.counts|
    requires Filling(q, rs, now) && q.ids + rs[0].before != []
    ensures Step(AtFailure(now, r), Failed).Some?
    ensures q.ids + rs[0].before + Step(AtFailure(now, r), Failed).value.ids == q.ids + Queued(rs + [r])
  {
    QueuedPrefix(rs);
    var first, all := q.ids + rs[0].before, now.ids + r.before + r.late;
    assert Step(AtFailure(now, r), Failed).value.ids == all[|first|..];
    assert first + all[|first|..] == q.ids + Queued(rs + [r]) by {
      assert (rs + [r])[..|rs|] == rs;
      var rest := Queued(rs)[|rs[0].before|..];
      assert Queued(rs) == rs[0].before + rest;
      DropPrefix(q.ids, rs[0].before, rest, r);
    }
  }

  lemma DropPrefix(ids: seq<string>, before: seq<string>, rest: seq<string>, r: Report)
    ensures var all := ids + (before + rest) + r.before + r.late;
            ids + before + all[|ids + before|..] == ids + (before + rest + r.before + r.late)
  {
    var all := ids + (before + rest) + r.before + r.late;
    assert all == (ids + before) + (rest + r.before + r.late);
  }

  // ---------------------------------------------------------------- even windows from 4 on

  function Blank(n: nat): seq<string> {
    seq(n, i => "")
  }

  // Failed reports whose only new ids are news[i] ids queued beforehand.
  function Reports(news: seq<nat>): seq<Report> {
    seq(|news|, i requires 0 <= i < |news| => Report(Blank(news[i]), []))
  }

  // ---------------------------------------------------------------- ids do not matter, their number does

  // Failed reports that bring so many ids, whatever they are.
  ghost predicate Brings(rs: seq<Report>, news: seq<nat>) {
    && |rs| == |news|
    && forall i :: 0 <= i < |rs| ==> |rs[i].before| == news[i] && rs[i].late == []
  }

  ghost predicate Alike(q: Queue, r: Queue) {
    |q.ids| == |r.ids| && q.ring == r.ring && q.taken == r.taken
  }

  ghost predicate AlikeEvents(es: seq<Event>, fs: seq<Event>) {
    && |es| == |fs|
    && forall i :: 0 <= i < |es| ==> es[i] == fs[i] || (es[i].Cache? && fs[i].Cache?)
  }

  lemma {:induction false} RunsAlike(q: Queue, r: Queue, es: seq<Event>, fs: seq<Event>)
    requires q.ring.Some? ==> q.ring.value.Valid()
    requires Alike(q, r) && AlikeEvents(es, fs)
    ensures Run(q, es).None? <==> Run(r, fs).None?
    ensures Run(q, es).Some? ==> Alike(Run(q, es).value, Run(r, fs).value)
    decreases |es|
  {
    if es != [] {
      var next, other := Step(q, es[0]), Step(r, fs[0]);
      assert es[0] == fs[0] || (es[0].Cache? && fs[0].Cache?);
      if next.Some? {
        StepKeepsRingValid(q, es[0]);
        RunsAlike(next.value, other.value, es[1..], fs[1..]);
      }
    }
  }

  lemma {:induction false} ReportsAlike(rs: seq<Report>, news: seq<nat>)
    requires Brings(rs, news)
    ensures AlikeEvents(AllEvents(Reports(news)), AllEvents(rs))
    decreases |rs|
  {
    if rs != [] {
      var n := |rs| - 1;
      ReportsAlike(rs[..n], news[..n]);
      assert Reports(news)[..n] == Reports(news[..n]);
      AlikeConcat(AllEvents(Reports(news[..n])), AllEvents(rs[..n]), Events(Report(Blank(news[n]), [])), Events(rs[n]));
    }
  }

  lemma AlikeConcat(a: seq<Event>, b: seq<Event>, c: seq<Event>, d: seq<Event>)
    requires AlikeEvents(a, b) && AlikeEvents(c, d)
    ensures AlikeEvents(a + c, b + d)
  {
  }

  function RunNews(q: Queue, news: seq<nat>): Option<Queue>
    requires q.ring.Some? ==> q.ring.value.Valid()
  {
    Run(q, AllEvents(Reports(news)))
  }

  lemma RunNewsStep(q: Queue, news: seq<nat>, n: nat)
    requires q.ring.Some? ==> q.ring.value.Valid()
    requires RunNews(q, news).Some?
    ensures var last := RunNews(q, news).value;
            && (last.ring.Some? ==> last.ring.value.Valid())
            && RunNews(q, news + [n]) == Step(Queue(last.ids + Blank(n), last.ring, |last.ids| + n), Failed)
  {
    assert Reports(news + [n]) == Reports(news) + [Report(Blank(n), [])];
    RunReport(q, Reports(news), Report(Blank(n), []));
    var ids := RunNews(q, news).value.ids;
    assert ids + Blank(n) + [] == ids + Blank(n);
  }

  function Zeros(n: nat): (z: seq<nat>)
    ensures |z| == n && forall i :: 0 <= i < n ==> z[i] == 0
  {
    seq(n, i => 0)
  }

  // The first two failed reports bring one id each, the others up to a full ring none.
  function FillNews(k: nat): seq<nat>
  {
    [1, 1] + Zeros(k)
  }

  lemma {:induction false} FillWithOnes(n: nat, k: nat)
    requires 2 + k <= n
    ensures RunNews(NewQueue(n), FillNews(k))
            == Some(Queue(Blank(2), Some(Ring([1, 1] + Zeros(n - 2), 0, 2, 2 + k)), 0))
  {
    if k == 0 {
      FirstTwoOnes(n);
    } else {
      FillWithOnes(n, k - 1);
      assert FillNews(k) == FillNews(k - 1) + [0];
      RunNewsStep(NewQueue(n), FillNews(k - 1), 0);
      var counts := [1, 1] + Zeros(n - 2);
      assert counts[1 + k := 0] == counts;
      assert Blank(2) + Blank(0) == Blank(2);
    }
  }

  lemma FirstTwoOnes(n: nat)
    requires 2 <= n
    ensures RunNews(NewQueue(n), FillNews(0)) == Some(Queue(Blank(2), Some(Ring([1, 1] + Zeros(n - 2), 0, 2, 2)), 0))
  {
    var q := NewQueue(n);
    assert RunNews(q, []) == Some(q);
    RunNewsStep(q, [], 1);
    assert [] + [1] == [1 as nat];
    RunNewsStep(q, [1], 1);
    assert [1] + [1 as nat] == FillNews(0);
    assert q.ring.value.counts[0 := 1][1 := 1] == [1, 1] + Zeros(n - 2);
    assert [] + Blank(1) + Blank(1) == Blank(2);
  }

  ghost predicate FullAt(q: Queue, news: seq<nat>, counts: seq<int>, from: nat, len: nat) {
    && (q.ring.Some? ==> q.ring.value.Valid())
    && from < |counts|
    && RunNews(q, news) == Some(Queue(Blank(len), Some(Ring(counts, from, len, |counts|)), 0))
  }

  // One more failed report on a full ring, bringing `more` ids and dropping the count it reads.
  lemma FullStep(q: Queue, news: seq<nat>, counts: seq<int>, from: nat, len: nat, more: nat, next: seq<int>)
    requires FullAt(q, news, counts, from, len) && 0 < len
    requires 0 <= counts[from] <= len + more
    requires |next| == |counts|
    requires forall p :: 0 <= p < |counts| - 1 ==> next[p] == if p + 1 == from then more else counts[p + 1]
    requires next[|counts| - 1] == more
    ensures FullAt(q, news + [more], next, if from == |counts| - 1 then 0 else from + 1, len + more - counts[from])
  {
    RunNewsStep(q, news, more);
    assert next == counts[from := more][1..] + [more];
    assert Blank(len) + Blank(more) == Blank(len + more);
    assert Blank(len + more)[counts[from]..] == Blank(len + more - counts[from]);
  }

  // Failed reports without new ids, as long as the counts they read are zero.
  lemma {:induction false} QuietReports(q: Queue, news: seq<nat>, k: nat, counts: seq<int>, from: nat, len: nat)
    returns (next: seq<int>)
    requires FullAt(q, news, counts, from, len) && 0 < len && from + k < |counts|
    requires forall p :: from <= p < |counts| && p < from + 2 * k && (p - from) % 2 == 0 ==> counts[p] == 0
    ensures FullAt(q, news + Zeros(k), next, from + k, len) && |next| == |counts|
    ensures forall p :: 0 <= p < |counts| ==> next[p] == if p + k < |counts| then counts[p + k] else 0
    decreases k
  {
    if k == 0 {
      next := counts;
      assert news + Zeros(0) == news;
    } else {
      var c := seq(|counts|, p requires 0 <= p < |counts| => if p + 1 < |counts| then counts[p + 1] else 0);
      FullStep(q, news, counts, from, len, 0, c);
      next := QuietReports(q, news + [0], k - 1, c, from + 1, len);
      assert news + [0] + Zeros(k - 1) == news + Zeros(k);
    }
  }

  function QuietNews(n: nat): seq<nat>
    requires n >= 4
  {
    FillNews(n - 2) + [0] + Zeros(n - 3)
  }

  function BadNews(n: nat): seq<nat>
    requires n >= 4
  {
    QuietNews(n) + [2] + [0] + Zeros(n / 2 - 2) + [0]
  }

  // One id is left, which no later eviction counts; fromIndex has moved to n - 2.
  lemma OneIdLeft(n: nat)
    requires n >= 4
    ensures FullAt(NewQueue(n), QuietNews(n), Zeros(n), n - 2, 1)
  {
    var c1 := OneDropped(n);
    var c2 := QuietReports(NewQueue(n), FillNews(n - 2) + [0], n - 3, c1, 1, 1);
    assert c2 == Zeros(n);
  }

  lemma OneDropped(n: nat) returns (c1: seq<int>)
    requires n >= 2
    ensures |c1| == n && forall p :: 0 <= p < n ==> c1[p] == if p == 0 then 1 else 0
    ensures FullAt(NewQueue(n), FillNews(n - 2) + [0], c1, 1, 1)
  {
    c1 := seq(n, p => if p == 0 then 1 else 0);
    FillWithOnes(n, n - 2);
    FullStep(NewQueue(n), FillNews(n - 2), [1, 1] + Zeros(n - 2), 0, 2, 0, c1);
  }

  lemma BadNewsGoOutOfRange(n: nat)
    requires n >= 4 && n % 2 == 0
    ensures RunNews(NewQueue(n), BadNews(n)).None?
  {
    var q, news := NewQueue(n), QuietNews(n);
    OneIdLeft(n);
    var c3 := seq(n, p => if p == n - 3 || p == n - 1 then 2 else 0);
    FullStep(q, news, Zeros(n), n - 2, 1, 2, c3);
    var c4 := seq(n, p => if p == n - 4 then 2 else 0);
    FullStep(q, news + [2], c3, n - 1, 3, 0, c4);
    news := news + [2] + [0];
    var c5 := QuietReports(q, news, n / 2 - 2, c4, 0, 1);
    DroppedTwice(q, news + Zeros(n / 2 - 2), c5, n / 2 - 2);
  }

  lemma DroppedTwice(q: Queue, news: seq<nat>, counts: seq<int>, from: nat)
    requires FullAt(q, news, counts, from, 1) && counts[from] == 2
    ensures RunNews(q, news + [0]).None?
  {
    RunNewsStep(q, news, 0);
    assert |Blank(1) + Blank(0)| == 1;
  }

  // With an even window from 4 on, the two ids brought by one failed report are dropped twice: the
  // second time the queue is too short, whatever the ids are.
  lemma EvenWindowGoesOutOfRange(n: nat, rs: seq<Report>)
    requires n >= 4 && n % 2 == 0 && Brings(rs, BadNews(n))
    ensures Run(NewQueue(n), AllEvents(rs)).None?
  {
    BadNewsGoOutOfRange(n);
    ReportsAlike(rs, BadNews(n));
    RunsAlike(NewQueue(n), NewQueue(n), AllEvents(Reports(BadNews(n))), AllEvents(rs));
  }

  ghost predicate NeverPanics(retryNum: int) {
    forall q, es :: JustReset(q, retryNum) ==> Run(q, es).Some?
  }

  // Exactly the odd windows, window 2 and no window at all are safe over every run.
  lemma SafeExactlyForOddOrSmallWindows(retryNum: int)
    ensures NeverPanics(retryNum) <==> SafeWindow(retryNum)
  {
    if SafeWindow(retryNum) {
      forall q, es | JustReset(q, retryNum) ensures Run(q, es).Some? {
        NeverOutOfRange(q, retryNum, es);
      }
    } else {
      EvenWindowGoesOutOfRange(retryNum, Reports(BadNews(retryNum)));
      assert JustReset(NewQueue(retryNum), retryNum);
    }
  }

  // ---------------------------------------------------------------- oldest first

  // What the ring is meant to be: the sizes of the batches that failed so far, oldest first; once
  // there are `window` of them, each further failure drops the oldest.
  datatype Oldest = Oldest(ids: seq<string>, failed: seq<int>, taken: nat)

  function Total(sizes: seq<int>): int {
    if sizes == [] then 0 else Total(sizes[..|sizes| - 1]) + sizes[|sizes| - 1]
  }

  function DropFirst(ids: seq<string>, n: int): seq<string> {
    if n <= 0 then ids else if n > |ids| then [] else ids[n..]
  }

  function OldestStep(window: nat, q: Oldest, e: Event): Oldest
    requires window > 0
  {
    match e
    case Cache(id) => q.(ids := q.ids + [id])
    case Take => q.(taken := |q.ids|)
    case Sent => if q.taken == 0 then q else Oldest(DropFirst(q.ids, q.taken), [], 0)
    case Failed =>
      if q.taken == 0 then q
      else
        var batch := q.taken - Total(q.failed);
        if |q.failed| < window then Oldest(q.ids, q.failed + [batch], 0)
        else Oldest(DropFirst(q.ids, q.failed[0]), q.failed[1..] + [batch], 0)
  }

  function OldestRun(window: nat, q: Oldest, es: seq<Event>): Oldest
    requires window > 0
    decreases |es|
  {
    if es == [] then q else OldestRun(window, OldestStep(window, q, es[0]), es[1..])
  }

  ghost predicate DropsOldestFirst(retryNum: int)
    requires retryNum > 0
  {
    forall es :: Run(NewQueue(retryNum), es).Some?
                 && Run(NewQueue(retryNum), es).value.ids == OldestRun(retryNum, Oldest([], [], 0), es).ids
  }

  lemma {:induction false} OldestConcat(window: nat, q: Oldest, a: seq<Event>, b: seq<Event>)
    requires window > 0
    ensures OldestRun(window, q, a + b) == OldestRun(window, OldestRun(window, q, a), b)
    decreases |a|
  {
    if a == [] {
      assert a + b == b;
    } else {
      assert (a + b)[0] == a[0] && (a + b)[1..] == a[1..] + b;
      OldestConcat(window, OldestStep(window, q, a[0]), a[1..], b);
    }
  }

  lemma {:induction false} OldestCaches(window: nat, q: Oldest, ids: seq<string>)
    requires window > 0
    ensures OldestRun(window, q, Caches(ids)) == q.(ids := q.ids + ids)
    decreases |ids|
  {
    if ids == [] {
      assert q.ids + ids == q.ids;
    } else {
      assert Caches(ids)[1..] == Caches(ids[1..]);
      OldestCaches(window, q.(ids := q.ids + [ids[0]]), ids[1..]);
      assert q.ids + [ids[0]] + ids[1..] == q.ids + ids;
    }
  }

  function OldestNews(window: nat, news: seq<nat>): Oldest
    requires window > 0
  {
    OldestRun(window, Oldest([], [], 0), AllEvents(Reports(news)))
  }

  lemma OldestNewsStep(window: nat, news: seq<nat>, n: nat)
    requires window > 0
    ensures var last := OldestNews(window, news);
            OldestNews(window, news + [n])
            == OldestStep(window, Oldest(last.ids + Blank(n), last.failed, |last.ids| + n), Failed)
  {
    var rs, r := Reports(news), Report(Blank(n), []);
    assert Reports(news + [n]) == rs + [r] && (rs + [r])[..|rs|] == rs;
    var q := OldestNews(window, news);
    OldestConcat(window, Oldest([], [], 0), AllEvents(rs), Events(r));
    assert Events(r) == Caches(Blank(n)) + [Take, Failed];
    OldestConcat(window, q, Caches(Blank(n)), [Take, Failed]);
    OldestCaches(window, q, Blank(n));
    var filled := q.(ids := q.ids + Blank(n));
    assert [Take, Failed][1..] == [Failed] && [Failed][1..] == [];
    assert OldestRun(window, filled, [Take, Failed]) == OldestRun(window, filled.(taken := |filled.ids|), [Failed]);
    var taken := filled.(taken := |filled.ids|);
    assert OldestRun(window, taken, [Failed]) == OldestRun(window, OldestStep(window, taken, Failed), []);
  }

  lemma {:induction false} TotalWithZeros(sizes: seq<int>, k: nat)
    ensures Total(sizes + Zeros(k)) == Total(sizes)
  {
    if k == 0 {
      assert sizes + Zeros(0) == sizes;
    } else {
      TotalWithZeros(sizes, k - 1);
      assert (sizes + Zeros(k))[..|sizes| + k - 1] == sizes + Zeros(k - 1);
    }
  }

  lemma {:induction false} OldestFill(n: nat, k: nat)
    requires 2 + k <= n
    ensures OldestNews(n, FillNews(k)) == Oldest(Blank(2), [1, 1] + Zeros(k), 0)
  {
    if k == 0 {
      OldestFirstTwo(n);
    } else {
      OldestFill(n, k - 1);
      OldestNewsStep(n, FillNews(k - 1), 0);
      OldestZeroMore(n, k - 1);
      assert FillNews(k - 1) + [0] == FillNews(k);
    }
  }

  lemma OldestFirstTwo(n: nat)
    requires 2 <= n
    ensures OldestNews(n, FillNews(0)) == Oldest(Blank(2), [1, 1] + Zeros(0), 0)
  {
    assert OldestNews(n, []) == Oldest([], [], 0);
    OldestNewsStep(n, [], 1);
    assert [] + [1] == [1 as nat] && [] + Blank(1) == Blank(1);
    OldestNewsStep(n, [1], 1);
    assert [1] + [1 as nat] == FillNews(0) && Blank(1) + Blank(1) == Blank(2);
    assert Total([1]) == Total([]) + 1;
    assert [1] + [1] == [1, 1] + Zeros(0);
  }

  // One more failed report that brings nothing.
  lemma OldestZeroMore(n: nat, k: nat)
    requires 2 + k < n
    ensures OldestStep(n, Oldest(Blank(2) + Blank(0), [1, 1] + Zeros(k), 2 + 0), Failed)
         == Oldest(Blank(2), [1, 1] + Zeros(k + 1), 0)
  {
    TotalWithZeros([1, 1], k);
    assert [1, 1][..1] == [1] && [1][..0] == [] && Total([1]) == 1;
    assert Blank(2) + Blank(0) == Blank(2);
    assert [1, 1] + Zeros(k) + [0] == [1, 1] + Zeros(k + 1);
  }

  // With a window of two or more, the second eviction in a row drops the wrong batch, whatever the ids.
  lemma SecondEvictionIsNotTheOldest(n: nat, rs: seq<Report>)
    requires n >= 2 && Brings(rs, FillNews(n - 2) + [0] + [0])
    ensures Run(NewQueue(n), AllEvents(rs)).Some? && |Run(NewQueue(n), AllEvents(rs)).value.ids| == 1
    ensures OldestRun(n, Oldest([], [], 0), AllEvents(rs)).ids == []
  {
    var news := FillNews(n - 2) + [0] + [0];
    SecondEvictionOfBlanks(n);
    ReportsAlike(rs, news);
    RunsAlike(NewQueue(n), NewQueue(n), AllEvents(Reports(news)), AllEvents(rs));
    OldestAlike(n, Oldest([], [], 0), Oldest([], [], 0), AllEvents(Reports(news)), AllEvents(rs));
  }

  lemma {:induction false} OldestAlike(n: nat, q: Oldest, r: Oldest, es: seq<Event>, fs: seq<Event>)
    requires n > 0 && AlikeEvents(es, fs)
    requires |q.ids| == |r.ids| && q.failed == r.failed && q.taken == r.taken
    ensures |OldestRun(n, q, es).ids| == |OldestRun(n, r, fs).ids|
    decreases |es|
  {
    if es != [] {
      assert es[0] == fs[0] || (es[0].Cache? && fs[0].Cache?);
      OldestAlike(n, OldestStep(n, q, es[0]), OldestStep(n, r, fs[0]), es[1..], fs[1..]);
    }
  }

  lemma SecondEvictionOfBlanks(n: nat)
    requires n >= 2
    ensures RunNews(NewQueue(n), FillNews(n - 2) + [0] + [0]).Some?
    ensures |RunNews(NewQueue(n), FillNews(n - 2) + [0] + [0]).value.ids| == 1
    ensures |OldestNews(n, FillNews(n - 2) + [0] + [0]).ids| == 0
  {
    var q := NewQueue(n);
    var c1 := OneDropped(n);
    FullStep(q, FillNews(n - 2) + [0], c1, 1, 1, 0, seq(n, p => 0));
    OldestFill(n, n - 2);
    OldestNewsStep(n, FillNews(n - 2), 0);
    OldestNewsStep(n, FillNews(n - 2) + [0], 0);
    var once := OldestNews(n, FillNews(n - 2) + [0]);
    assert once.failed[0] == 1 && |once.ids| == 1;
  }

  ghost predicate Agree(q: Queue, o: Oldest) {
    && q.ids == o.ids && q.taken == o.taken <= |q.ids| && q.ring.Some? && q.ring.value.Valid()
    && var ring := q.ring.value;
       && |ring.counts| == 1 && ring.size == |o.failed|
       && ring.lastNum == Total(o.failed) <= |q.ids|
       && (o.failed != [] ==> o.failed == ring.counts && 0 <= o.failed[0])
       && (0 < q.taken ==> ring.lastNum <= q.taken)
  }

  lemma AgreeStep(q: Queue, o: Oldest, e: Event)
    requires Agree(q, o)
    ensures Step(q, e).Some? && Agree(Step(q, e).value, OldestStep(1, o, e))
  {
    if e.Failed? && 0 < q.taken {
      var batch := q.taken - Total(o.failed);
      assert Total([batch]) == Total([]) + batch;
      if o.failed != [] {
        assert Total(o.failed) == Total(o.failed[..0]) + o.failed[0];
      }
    }
  }

  lemma {:induction false} AgreeRun(q: Queue, o: Oldest, es: seq<Event>)
    requires Agree(q, o)
    ensures Run(q, es).Some? && Agree(Run(q, es).value, OldestRun(1, o, es))
    decreases |es|
  {
    if es != [] {
      AgreeStep(q, o, es[0]);
      AgreeRun(Step(q, es[0]).value, OldestStep(1, o, es[0]), es[1..]);
    }
  }

  // The ring drops the oldest failed batch first, over every run, exactly for a window of one.
  lemma OldestFirstOnlyForWindowOne(retryNum: int)
    requires retryNum > 0
    ensures DropsOldestFirst(retryNum) <==> retryNum == 1
  {
    if retryNum == 1 {
      forall es
        ensures Run(NewQueue(1), es).Some?
                && Run(NewQueue(1), es).value.ids == OldestRun(1, Oldest([], [], 0), es).ids
      {
        AgreeRun(NewQueue(1), Oldest([], [], 0), es);
      }
    } else {
      SecondEvictionIsNotTheOldest(retryNum, Reports(FillNews(retryNum - 2) + [0] + [0]));
    }
  }
}
