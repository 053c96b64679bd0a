// The write cache that collects fragments between two ticks, and the time wheel (ReadableCache)
// that keeps them for a fixed number of ticks.
module TimeWheel {

  datatype Key = Key(text: string)

  // The age of an id, counted in ticks, after one more tick.
  function Older(ages: map<Key, nat>, id: Key): nat {
    if id in ages then ages[id] + 1 else 0
  }

  // ---------------------------------------------------------------- the write cache

  function Written<T>(cache: map<Key, seq<T>>, key: Key, data: T): map<Key, seq<T>> {
    cache[key := (if key in cache then cache[key] else []) + [data]]
  }

  // The cache after some writes, and what those under one key wrote.
  function WrittenAll<T>(writes: seq<(Key, T)>): map<Key, seq<T>> {
    if writes == [] then map[]
    else
      var (key, data) := writes[|writes| - 1];
      Written(WrittenAll(writes[..|writes| - 1]), key, data)
  }

  function Under<T>(writes: seq<(Key, T)>, key: Key): seq<T> {
    if writes == [] then []
    else
      Under(writes[..|writes| - 1], key) + if writes[|writes| - 1].0 == key then [writes[|writes| - 1].1] else []
  }

  // A drain gets, key by key, everything written since the last one, in the order it was written.
  lemma {:induction false} WritesAreKept<T>(writes: seq<(Key, T)>, key: Key)
    ensures key in WrittenAll(writes) <==> Under(writes, key) != []
    ensures key in WrittenAll(writes) ==> WrittenAll(writes)[key] == Under(writes, key)
  {
    if writes != [] {
      WritesAreKept(writes[..|writes| - 1], key);
    }
  }

  class WriteableCache<T> {
    var cache: map<Key, seq<T>>

    constructor ()
      ensures cache == map[]
    {
      cache := map[];
    }

    method Write(key: Key, data: T)
      modifies this
      ensures cache == Written(old(cache), key, data)
    {
      if key in cache {
        cache := cache[key := cache[key] + [data]];
      } else {
        assert [] + [data] == [data];
        cache := cache[key := [data]];
      }
    }

    method GetAndReset() returns (result: map<Key, seq<T>>)
      modifies this
      ensures result == old(cache) && cache == map[]
    {
      result := cache;
      cache := map[];
    }
  }

  // ---------------------------------------------------------------- the wheel

  datatype CacheData<T> = CacheData(datas: seq<T>, index: nat)

  datatype Wheel<T> = Wheel(cache: map<Key, CacheData<T>>, buckets: seq<seq<Key>>, readIndex: nat, writeIndex: nat)

  function Next(index: nat, size: nat): nat {
    if index + 1 >= size then 0 else index + 1
  }

  function MergedEntry<T>(cache: map<Key, CacheData<T>>, key: Key, value: seq<T>, index: nat): CacheData<T> {
    if key in cache then CacheData(cache[key].datas + value, index) else CacheData(value, index)
  }

  // The cache once the keys in `done` of a batch are merged into it.
  function Merged<T>(cache: map<Key, CacheData<T>>, datas: map<Key, seq<T>>, done: set<Key>,
                     index: nat): map<Key, CacheData<T>>
    requires done <= datas.Keys
  {
    map k | k in cache.Keys + done ::
      if k in done then MergedEntry(cache, k, datas[k], index) else cache[k]
  }

  // The keys of a set, each once, in some order.
  ghost predicate Lists(bucket: seq<Key>, keys: set<Key>) {
    && (forall k :: k in keys ==> k in bucket)
    && (forall i :: 0 <= i < |bucket| ==> bucket[i] in keys)
    && (forall i, j :: 0 <= i < j < |bucket| ==> bucket[i] != bucket[j])
  }

  // Copy; the keys of one batch enter its bucket in the order the map is ranged over.
  ghost predicate Copied<T>(w: Wheel<T>, datas: map<Key, seq<T>>, w': Wheel<T>) {
    && w.writeIndex < |w.buckets| == |w'.buckets|
    && w'.cache == Merged(w.cache, datas, datas.Keys, w.writeIndex)
    && Lists(w'.buckets[w.writeIndex], datas.Keys)
    && (forall i :: 0 <= i < |w.buckets| && i != w.writeIndex ==> w'.buckets[i] == w.buckets[i])
    && w'.readIndex == w.readIndex
    && w'.writeIndex == Next(w.writeIndex, |w.buckets|)
  }

  // PickMatchDatas: what is left, and the fragments picked, key by key.
  function PickAll<T>(cache: map<Key, CacheData<T>>, keys: seq<Key>): (map<Key, CacheData<T>>, seq<T>) {
    if keys == [] then (cache, [])
    else if keys[0] !in cache then PickAll(cache, keys[1..])
    else
      var (rest, out) := PickAll(cache - {keys[0]}, keys[1..]);
      (rest, cache[keys[0]].datas + out)
  }

  predicate Due<T>(w: Wheel<T>, key: Key)
    requires w.readIndex < |w.buckets|
  {
    key in w.cache && key in w.buckets[w.readIndex] && w.cache[key].index == w.readIndex
  }

  // CleanExpireDatas
  function Expire<T>(w: Wheel<T>): Wheel<T>
    requires w.readIndex < |w.buckets|
  {
    w.(cache := map k | k in w.cache && !Due(w, k) :: w.cache[k], readIndex := Next(w.readIndex, |w.buckets|))
  }

  class ReadableCache<T> {
    var cache: map<Key, CacheData<T>>
    const buckets: array<seq<Key>>
    var readIndex: nat
    var writeIndex: nat
    const size: nat

    ghost predicate Valid()
      reads this
    {
      0 < size == buckets.Length && readIndex < size && writeIndex < size
    }

    ghost function State(): Wheel<T>
      reads this, buckets
    {
      Wheel(cache, buckets[..], readIndex, writeIndex)
    }

    constructor (delay: nat)
      ensures Valid() && fresh(buckets) && size == delay + 1
      ensures State() == NewWheel(delay)
    {
      cache := map[];
      buckets := new seq<Key>[delay + 1](i => []);
      readIndex, writeIndex, size := 0, delay, delay + 1;
      new;
      assert buckets[..] == seq(delay + 1, i => []);
    }

    method Copy(datas: map<Key, seq<T>>)
      requires Valid()
      modifies this, buckets
      ensures Valid() && Copied(old(State()), datas, State())
    {
      var batch: seq<Key> := [];
      var rest := datas.Keys;
      ghost var done: set<Key> := {};
      while rest != {}
        invariant Valid() && buckets[..] == old(buckets[..])
        invariant readIndex == old(readIndex) && writeIndex == old(writeIndex)
        invariant done + rest == datas.Keys && done !! rest
        invariant cache == Merged(old(cache), datas, done, writeIndex)
        invariant Lists(batch, done)
      {
        var key :| key in rest;
        var value := datas[key];
        if key in cache {
          cache := cache[key := CacheData(cache[key].datas + value, writeIndex)];
        } else {
          cache := cache[key := CacheData(value, writeIndex)];
        }
        batch := batch + [key];
        rest := rest - {key};
        done := done + {key};
      }
      assert done == datas.Keys;
      buckets[writeIndex] := batch;
      writeIndex := writeIndex + 1;
      if writeIndex >= size {
        writeIndex := 0;
      }
    }

    method PickMatchData(key: Key) returns (datas: seq<T>)
      modifies this`cache
      ensures (cache, datas) == PickAll(old(cache), [key])
      ensures cache == old(cache) - {key} && datas == if key in old(cache) then old(cache)[key].datas else []
    {
      assert [key][1..] == [];
      if key in cache {
        datas := cache[key].datas;
        cache := cache - {key};
        assert datas + [] == datas;
      } else {
        datas := [];
      }
    }

    method PickMatchDatas(keys: seq<Key>) returns (results: seq<T>)
      modifies this`cache
      ensures (cache, results) == PickAll(old(cache), keys)
    {
      results := [];
      for i := 0 to |keys|
        invariant PickAll(old(cache), keys).0 == PickAll(cache, keys[i..]).0
        invariant PickAll(old(cache), keys).1 == results + PickAll(cache, keys[i..]).1
      {
        var key := keys[i];
        assert keys[i..][0] == key && keys[i..][1..] == keys[i + 1..];
        if key in cache {
          results := results + cache[key].datas;
          cache := cache - {key};
        }
      }
      assert keys[|keys|..] == [] && results + [] == results;
    }

    method CleanExpireDatas()
      requires Valid()
      modifies this
      ensures Valid() && State() == Expire(old(State()))
    {
      var bucket := buckets[readIndex];
      for i := 0 to |bucket|
        invariant readIndex == old(readIndex) && writeIndex == old(writeIndex)
        invariant cache.Keys == set k | k in old(cache) && !(k in bucket[..i] && old(cache)[k].index == readIndex)
        invariant forall k :: k in cache ==> cache[k] == old(cache)[k]
      {
        var key := bucket[i];
        if key in cache && cache[key].index == readIndex {
          cache := cache - {key};
        }
      }
      readIndex := readIndex + 1;
      if readIndex >= size {
        readIndex := 0;
      }
    }
  }

  function NewWheel<T>(delay: nat): Wheel<T> {
    Wheel(map[], seq(delay + 1, i => []), 0, delay)
  }

  // ---------------------------------------------------------------- runs of ticks

  // One tick: the batch drained from the write cache, and the keys then looked up, in order.
  datatype Tick<T> = Tick(datas: map<Key, seq<T>>, picks: seq<Key>)

  ghost predicate Ticked<T(!new)>(w: Wheel<T>, tick: Tick<T>, w': Wheel<T>, out: seq<T>) {
    exists copied: Wheel<T> :: Copied(w, tick.datas, copied) && AfterCopy(copied, tick, w', out)
  }

  ghost predicate AfterCopy<T>(copied: Wheel<T>, tick: Tick<T>, w': Wheel<T>, out: seq<T>) {
    && copied.readIndex < |copied.buckets|
    && out == PickAll(copied.cache, tick.picks).1
    && w' == Expire(copied.(cache := PickAll(copied.cache, tick.picks).0))
  }

  // ---------------------------------------------------------------- the plain timed map

  // What a timed map holds for one key: the fragments, and the tick that last added to them.
  datatype Slot<T> = Empty | Kept(datas: seq<T>, at: nat)

  function Feed<T>(s: Slot<T>, tick: Tick<T>, key: Key, now: nat): Slot<T> {
    if key !in tick.datas then s
    else if s.Kept? then Kept(s.datas + tick.datas[key], now)
    else Kept(tick.datas[key], now)
  }

  function Datas<T>(s: Slot<T>): seq<T> {
    if s.Kept? then s.datas else []
  }

  // A key is kept while it was last added to fewer than `wait` ticks ago.
  function SlotAt<T>(wait: nat, run: seq<Tick<T>>, key: Key): Slot<T>
    decreases |run|
  {
    if run == [] then Empty
    else
      var now := |run| - 1;
      var fed := Feed(SlotAt(wait, run[..now], key), run[now], key, now);
      if key in run[now].picks then Empty
      else if fed.Kept? && now - fed.at >= wait then Empty
      else fed
  }

  // What the last tick of a run picks, and what it lets expire.
  function PickedLast<T>(wait: nat, run: seq<Tick<T>>, key: Key): seq<T>
    requires run != []
  {
    var now := |run| - 1;
    if key in run[now].picks then Datas(Feed(SlotAt(wait, run[..now], key), run[now], key, now)) else []
  }

  function ExpiredLast<T>(wait: nat, run: seq<Tick<T>>, key: Key): seq<T>
    requires run != []
  {
    var now := |run| - 1;
    var fed := Feed(SlotAt(wait, run[..now], key), run[now], key, now);
    if key !in run[now].picks && fed.Kept? && now - fed.at >= wait then fed.datas else []
  }

  // ---------------------------------------------------------------- the wheel refines it

  // A ring index after t increments.
  function Place(t: nat, size: nat): (i: nat)
    requires 0 < size
    ensures i < size
  {
    if t == 0 then 0 else Next(Place(t - 1, size), size)
  }

  // Before tick `now`, or between its Copy and its clean-up, the wheel holds the slot for the key.
  ghost predicate Holds<T>(w: Wheel<T>, wait: nat, slot: Slot<T>, now: nat, key: Key) {
    match slot
    case Empty => key !in w.cache
    case Kept(datas, at) =>
      && key in w.cache
      && w.cache[key] == CacheData(datas, Place(at + wait, wait + 1))
      && w.cache[key].index < |w.buckets|
      && key in w.buckets[w.cache[key].index]
      && at <= now <= at + wait
  }

  ghost predicate KeyRefines<T>(w: Wheel<T>, wait: nat, run: seq<Tick<T>>, key: Key) {
    && Holds(w, wait, SlotAt(wait, run, key), |run|, key)
    && (SlotAt(wait, run, key).Kept? ==> SlotAt(wait, run, key).at < |run|)
  }

  ghost predicate Refines<T>(w: Wheel<T>, wait: nat, run: seq<Tick<T>>) {
    && |w.buckets| == wait + 1
    && w.readIndex == Place(|run|, wait + 1)
    && w.writeIndex == Place(|run| + wait, wait + 1)
    && forall key :: KeyRefines(w, wait, run, key)
  }

  lemma {:induction false} PlaceAfter(t: nat, d: nat, size: nat)
    requires 0 < size && d <= size
    ensures Place(t + d, size) == if Place(t, size) + d < size then Place(t, size) + d else Place(t, size) + d - size
  {
    if d > 0 {
      PlaceAfter(t, d - 1, size);
    }
  }

  lemma SamePlace(a: nat, b: nat, size: nat)
    requires 0 < size && b <= a < b + size && Place(a, size) == Place(b, size)
    ensures a == b
  {
    PlaceAfter(b, a - b, size);
  }

  lemma {:induction false} PickAllLeaves<T>(cache: map<Key, CacheData<T>>, keys: seq<Key>)
    ensures PickAll(cache, keys).0 == map k | k in cache && k !in keys :: cache[k]
  {
    if keys != [] {
      PickAllLeaves(if keys[0] in cache then cache - {keys[0]} else cache, keys[1..]);
    }
  }

  lemma {:induction false} PickAllConcat<T>(cache: map<Key, CacheData<T>>, a: seq<Key>, b: seq<Key>)
    ensures var (rest, out) := PickAll(cache, a);
            PickAll(cache, a + b) == (PickAll(rest, b).0, out + PickAll(rest, b).1)
    decreases |a|
  {
    if a == [] {
      assert a + b == b;
      assert [] + PickAll(cache, b).1 == PickAll(cache, b).1;
    } else {
      assert (a + b)[0] == a[0] && (a + b)[1..] == a[1..] + b;
      var next := if a[0] in cache then cache - {a[0]} else cache;
      PickAllConcat(next, a[1..], b);
      var (rest, out) := PickAll(next, a[1..]);
      if a[0] in cache {
        assert cache[a[0]].datas + (out + PickAll(rest, b).1) == cache[a[0]].datas + out + PickAll(rest, b).1;
      }
    }
  }

  // A fresh batch never takes the bucket of a key that is still waiting.
  lemma CopyHolds<T>(w: Wheel<T>, copied: Wheel<T>, wait: nat, slot: Slot<T>, tick: Tick<T>, now: nat, key: Key)
    requires w.writeIndex == Place(now + wait, wait + 1)
    requires Copied(w, tick.datas, copied)
    requires Holds(w, wait, slot, now, key) && (slot.Kept? ==> slot.at < now)
    ensures Holds(copied, wait, Feed(slot, tick, key, now), now, key)
  {
    if key in tick.datas {
      assert key in copied.buckets[w.writeIndex];
    } else if slot.Kept? {
      assert copied.cache[key] == w.cache[key];
      var a, b := now + wait, slot.at + wait;
      if Place(b, wait + 1) == Place(a, wait + 1) {
        SamePlace(a, b, wait + 1);
      }
    }
  }

  // The clean-up takes exactly the keys whose time is up.
  lemma PickAndExpireHolds<T>(copied: Wheel<T>, w': Wheel<T>, out: seq<T>, wait: nat, fed: Slot<T>, tick: Tick<T>,
                              now: nat, key: Key)
    requires |copied.buckets| == wait + 1 && copied.readIndex == Place(now, wait + 1)
    requires AfterCopy(copied, tick, w', out)
    requires Holds(copied, wait, fed, now, key)
    ensures var slot := if key in tick.picks || (fed.Kept? && now - fed.at >= wait) then Empty else fed;
            Holds(w', wait, slot, now + 1, key)
  {
    PickAllLeaves(copied.cache, tick.picks);
    if fed.Kept? && Place(fed.at + wait, wait + 1) == Place(now, wait + 1) {
      SamePlace(fed.at + wait, now, wait + 1);
    }
  }

  lemma TickKeepsKey<T>(w: Wheel<T>, copied: Wheel<T>, w': Wheel<T>, out: seq<T>, wait: nat, run: seq<Tick<T>>,
                        tick: Tick<T>, key: Key)
    requires |w.buckets| == wait + 1
    requires w.readIndex == Place(|run|, wait + 1) && w.writeIndex == Place(|run| + wait, wait + 1)
    requires KeyRefines(w, wait, run, key)
    requires Copied(w, tick.datas, copied) && AfterCopy(copied, tick, w', out)
    ensures KeyRefines(w', wait, run + [tick], key)
  {
    assert (run + [tick])[..|run|] == run;
    var slot := SlotAt(wait, run, key);
    CopyHolds(w, copied, wait, slot, tick, |run|, key);
    PickAndExpireHolds(copied, w', out, wait, Feed(slot, tick, key, |run|), tick, |run|, key);
  }

  lemma TickKeepsRefines<T(!new)>(w: Wheel<T>, wait: nat, run: seq<Tick<T>>, tick: Tick<T>, w': Wheel<T>, out: seq<T>)
    requires Refines(w, wait, run) && Ticked(w, tick, w', out)
    ensures Refines(w', wait, run + [tick])
  {
    var copied: Wheel<T> :| Copied(w, tick.datas, copied) && AfterCopy(copied, tick, w', out);
    forall key ensures KeyRefines(w', wait, run + [tick], key) {
      assert KeyRefines(w, wait, run, key);
      TickKeepsKey(w, copied, w', out, wait, run, tick, key);
    }
  }

  lemma NewWheelRefines<T>(wait: nat)
    ensures Refines(NewWheel<T>(wait), wait, [])
  {
    PlaceAfter(0, wait, wait + 1);
  }

  // A run of the wheel: its states before, between and after the ticks, and what each tick picked.
  ghost predicate WheelRun<T(!new)>(wait: nat, run: seq<Tick<T>>, ws: seq<Wheel<T>>, outs: seq<seq<T>>) {
    && |ws| == |run| + 1 && |outs| == |run|
    && ws[0] == NewWheel(wait)
    && forall i :: 0 <= i < |run| ==> Ticked(ws[i], run[i], ws[i + 1], outs[i])
  }

  lemma {:induction false} WheelRefinesTimedMap<T(!new)>(wait: nat, run: seq<Tick<T>>, ws: seq<Wheel<T>>,
                                                         outs: seq<seq<T>>, n: nat)
    requires WheelRun(wait, run, ws, outs) && n <= |run|
    ensures Refines(ws[n], wait, run[..n])
  {
    if n == 0 {
      NewWheelRefines<T>(wait);
    } else {
      WheelRefinesTimedMap(wait, run, ws, outs, n - 1);
      TickKeepsRefines(ws[n - 1], wait, run[..n - 1], run[n - 1], ws[n], outs[n - 1]);
      assert run[..n - 1] + [run[n - 1]] == run[..n];
    }
  }
}
