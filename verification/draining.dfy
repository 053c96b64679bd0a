// What successive GetAndReset calls took out of a write cache, counted fragment by fragment, and
// the run of the wheel that they feed.
module Draining {
  import opened TimeWheel
  import opened WheelWindows

  ghost function CountIn<T>(cache: map<Key, seq<T>>, key: Key, x: T): nat {
    if key in cache then multiset(cache[key])[x] else 0
  }

  ghost function DrainedCount<T>(drains: seq<map<Key, seq<T>>>, key: Key, x: T): nat {
    if drains == [] then 0
    else DrainedCount(drains[..|drains| - 1], key, x) + CountIn(drains[|drains| - 1], key, x)
  }

  lemma {:induction false} DrainedAt<T>(drains: seq<map<Key, seq<T>>>, key: Key, x: T, t: nat)
    requires t < |drains|
    ensures CountIn(drains[t], key, x) <= DrainedCount(drains, key, x)
    decreases |drains|
  {
    if t < |drains| - 1 {
      DrainedAt(drains[..|drains| - 1], key, x, t);
    }
  }

  lemma {:induction false} DrainedTwice<T>(drains: seq<map<Key, seq<T>>>, key: Key, x: T, t: nat, u: nat)
    requires t < u < |drains|
    ensures CountIn(drains[t], key, x) + CountIn(drains[u], key, x) <= DrainedCount(drains, key, x)
    decreases |drains|
  {
    if u < |drains| - 1 {
      DrainedTwice(drains[..|drains| - 1], key, x, t, u);
    } else {
      DrainedAt(drains[..|drains| - 1], key, x, t);
    }
  }

  lemma {:induction false} DrainedPrefix<T>(drains: seq<map<Key, seq<T>>>, key: Key, x: T, n: nat)
    requires n <= |drains|
    ensures DrainedCount(drains[..n], key, x) <= DrainedCount(drains, key, x)
    decreases |drains|
  {
    if n < |drains| {
      DrainedPrefix(drains[..|drains| - 1], key, x, n);
      assert drains[..|drains| - 1][..n] == drains[..n];
    } else {
      assert drains[..n] == drains;
    }
  }

  lemma {:induction false} CountAtMostOne<T>(xs: seq<T>, uid: T -> nat, x: T)
    requires forall i, j :: 0 <= i < j < |xs| ==> uid(xs[i]) != uid(xs[j])
    ensures multiset(xs)[x] <= 1
  {
    if xs != [] {
      var n := |xs| - 1;
      CountAtMostOne(xs[..n], uid, x);
      assert xs == xs[..n] + [xs[n]];
      assert xs[n] !in xs[..n];
    }
  }

  // ---------------------------------------------------------------- the run they feed

  ghost predicate Feeds<T>(drains: seq<map<Key, seq<T>>>, run: seq<Tick<T>>) {
    |run| <= |drains| && forall t :: 0 <= t < |run| ==> run[t].datas == drains[t]
  }

  lemma {:induction false} FedIsDrained<T>(drains: seq<map<Key, seq<T>>>, run: seq<Tick<T>>, key: Key, x: T, n: nat)
    requires Feeds(drains, run) && n <= |run|
    ensures multiset(FedBetween(run, key, 0, n))[x] == DrainedCount(drains[..n], key, x)
  {
    if n > 0 {
      FedIsDrained(drains, run, key, x, n - 1);
      assert drains[..n][..n - 1] == drains[..n - 1];
    }
  }

  // A fragment drained once entered the wheel once, at the tick that drained it.
  lemma DrainedOnceIsFedOnce<T>(drains: seq<map<Key, seq<T>>>, run: seq<Tick<T>>, key: Key, x: T, t: nat)
    requires Feeds(drains, run) && t < |run| && CountIn(drains[t], key, x) > 0
    requires DrainedCount(drains, key, x) <= 1
    ensures FedOnceAt(run, key, x, t)
  {
    DrainedAt(drains, key, x, t);
    forall j | 0 <= j < |run| && j != t && key in run[j].datas ensures x !in run[j].datas[key] {
      DrainedTwice(drains, key, x, if j < t then j else t, if j < t then t else j);
      assert CountIn(drains[j], key, x) == 0;
    }
  }

  // Every fragment is written under its own key.
  ghost predicate KeyedMap<T(!new)>(cache: map<Key, seq<T>>, keyOf: T -> Key) {
    forall k, x :: k in cache && x in cache[k] ==> keyOf(x) == k
  }

  lemma RunIsKeyed<T(!new)>(drains: seq<map<Key, seq<T>>>, run: seq<Tick<T>>, keyOf: T -> Key)
    requires Feeds(drains, run) && forall t :: 0 <= t < |run| ==> KeyedMap(drains[t], keyOf)
    ensures Keyed(run, keyOf)
  {
    forall i, k, x | 0 <= i < |run| && k in run[i].datas && x in run[i].datas[k] ensures keyOf(x) == k {
      assert KeyedMap(drains[i], keyOf);
    }
  }
}
