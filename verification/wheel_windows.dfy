// What the timed map holds, picks and lets expire, in terms of the run alone.
module WheelWindows {
  import opened TimeWheel

  // ---------------------------------------------------------------- which keys are held

  // Tick s is the last one that fed the key; fewer than `wait` ticks have passed; no pick since.
  ghost predicate LastFed<T>(wait: nat, run: seq<Tick<T>>, key: Key, s: nat) {
    && s < |run| < s + wait + 1
    && key in run[s].datas
    && (forall j :: s < j < |run| ==> key !in run[j].datas)
    && (forall j :: s <= j < |run| ==> key !in run[j].picks)
  }

  lemma {:induction false} HeldIffFedRecently<T>(wait: nat, run: seq<Tick<T>>, key: Key)
    ensures SlotAt(wait, run, key).Kept? <==> exists s: nat :: LastFed(wait, run, key, s)
    ensures forall s: nat :: LastFed(wait, run, key, s) ==>
              SlotAt(wait, run, key).Kept? && SlotAt(wait, run, key).at == s
    decreases |run|
  {
    if run != [] {
      var now := |run| - 1;
      var before := run[..now];
      HeldIffFedRecently(wait, before, key);
      forall s: nat | LastFed(wait, run, key, s)
        ensures SlotAt(wait, run, key).Kept? && SlotAt(wait, run, key).at == s
      {
        if s < now {
          assert LastFed(wait, before, key, s);
          assert key !in run[now].datas;
        }
      }
      var slot := SlotAt(wait, run, key);
      if slot.Kept? {
        if key !in run[now].datas {
          var s: nat :| LastFed(wait, before, key, s);
          assert LastFed(wait, run, key, s);
        } else {
          assert LastFed(wait, run, key, now);
        }
      }
    }
  }

  // ---------------------------------------------------------------- what is held

  // The fragments fed for a key in ticks from..end, in order.
  function FedBetween<T>(run: seq<Tick<T>>, key: Key, from: nat, end: nat): seq<T>
    requires from <= end <= |run|
    decreases end
  {
    if from == end then []
    else FedBetween(run, key, from, end - 1) + if key in run[end - 1].datas then run[end - 1].datas[key] else []
  }

  lemma {:induction false} FedBetweenPrefix<T>(run: seq<Tick<T>>, key: Key, from: nat, end: nat, n: nat)
    requires from <= end <= n <= |run|
    ensures FedBetween(run[..n], key, from, end) == FedBetween(run, key, from, end)
    decreases end
  {
    if from != end {
      FedBetweenPrefix(run, key, from, end - 1, n);
    }
  }

  // A key held ever since tick b, before which it was not held, holds exactly what was fed since.
  lemma {:induction false} HoldsAllFragmentsSince<T>(wait: nat, run: seq<Tick<T>>, key: Key, b: nat)
    requires b <= |run| && SlotAt(wait, run[..b], key).Empty?
    requires forall j :: b < j <= |run| ==> SlotAt(wait, run[..j], key).Kept?
    ensures Datas(SlotAt(wait, run, key)) == FedBetween(run, key, b, |run|)
    decreases |run|
  {
    assert run[..|run|] == run;
    if b < |run| {
      var now := |run| - 1;
      forall j | b < j <= now ensures SlotAt(wait, run[..now][..j], key).Kept? {
        assert run[..now][..j] == run[..j];
      }
      assert run[..now][..b] == run[..b];
      HoldsAllFragmentsSince(wait, run[..now], key, b);
      FedBetweenPrefix(run, key, b, now, now);
    }
  }

  // ---------------------------------------------------------------- conservation

  function PickedAll<T>(wait: nat, run: seq<Tick<T>>, key: Key): seq<T>
    decreases |run|
  {
    if run == [] then [] else PickedAll(wait, run[..|run| - 1], key) + PickedLast(wait, run, key)
  }

  function ExpiredAll<T>(wait: nat, run: seq<Tick<T>>, key: Key): seq<T>
    decreases |run|
  {
    if run == [] then [] else ExpiredAll(wait, run[..|run| - 1], key) + ExpiredLast(wait, run, key)
  }

  function FedLast<T>(run: seq<Tick<T>>, key: Key): seq<T>
    requires run != []
  {
    if key in run[|run| - 1].datas then run[|run| - 1].datas[key] else []
  }

  // What the last tick feeds joins what was held, and is picked, expired or held on.
  lemma LastTickConserves<T>(wait: nat, run: seq<Tick<T>>, key: Key)
    requires run != []
    ensures multiset(Datas(SlotAt(wait, run[..|run| - 1], key)) + FedLast(run, key))
         == multiset(PickedLast(wait, run, key)) + multiset(ExpiredLast(wait, run, key))
             + multiset(Datas(SlotAt(wait, run, key)))
  {
    assert Datas(Feed(SlotAt(wait, run[..|run| - 1], key), run[|run| - 1], key, |run| - 1))
        == Datas(SlotAt(wait, run[..|run| - 1], key)) + FedLast(run, key);
  }

  ghost predicate Balanced<T>(wait: nat, run: seq<Tick<T>>, key: Key) {
    multiset(FedBetween(run, key, 0, |run|))
    == multiset(PickedAll(wait, run, key)) + multiset(ExpiredAll(wait, run, key))
        + multiset(Datas(SlotAt(wait, run, key)))
  }

  lemma BalancedOneMore<T>(wait: nat, run: seq<Tick<T>>, key: Key)
    requires run != [] && Balanced(wait, run[..|run| - 1], key)
    ensures Balanced(wait, run, key)
  {
    var now := |run| - 1;
    var before := run[..now];
    var held, fed := multiset(Datas(SlotAt(wait, before, key))), multiset(FedBetween(run, key, 0, now));
    FedBetweenPrefix(run, key, 0, now, now);
    LastTickConserves(wait, run, key);
    assert multiset(Datas(SlotAt(wait, before, key)) + FedLast(run, key)) == held + multiset(FedLast(run, key));
    BalanceGoesOn(fed, multiset(PickedAll(wait, before, key)), multiset(ExpiredAll(wait, before, key)), held,
                  multiset(FedLast(run, key)), multiset(PickedLast(wait, run, key)),
                  multiset(ExpiredLast(wait, run, key)), multiset(Datas(SlotAt(wait, run, key))));
  }

  // Every fragment fed is picked once, expired once or still held, and never two of these.
  lemma {:induction false} FragmentsConserved<T>(wait: nat, run: seq<Tick<T>>, key: Key)
    ensures multiset(FedBetween(run, key, 0, |run|))
         == multiset(PickedAll(wait, run, key)) + multiset(ExpiredAll(wait, run, key))
            + multiset(Datas(SlotAt(wait, run, key)))
    decreases |run|
  {
    if run != [] {
      FragmentsConserved(wait, run[..|run| - 1], key);
      BalancedOneMore(wait, run, key);
    }
  }

  lemma BalanceGoesOn<T>(fed: multiset<T>, picked: multiset<T>, expired: multiset<T>, held: multiset<T>,
                         fedNow: multiset<T>, pickedNow: multiset<T>, expiredNow: multiset<T>, heldNow: multiset<T>)
    requires fed == picked + expired + held && held + fedNow == pickedNow + expiredNow + heldNow
    ensures fed + fedNow == (picked + pickedNow) + (expired + expiredNow) + heldNow
  {
    assert picked + expired + held + fedNow == picked + expired + (held + fedNow);
  }

  // What has expired stays expired.
  lemma {:induction false} ExpiredGrows<T>(wait: nat, run: seq<Tick<T>>, key: Key, x: T, n: nat)
    requires n <= |run|
    ensures multiset(ExpiredAll(wait, run[..n], key))[x] <= multiset(ExpiredAll(wait, run, key))[x]
    decreases |run|
  {
    if n == |run| {
      assert run[..n] == run;
    } else {
      var before := run[..|run| - 1];
      ExpiredGrows(wait, before, key, x, n);
      assert before[..n] == run[..n];
    }
  }

  // ---------------------------------------------------------------- the life of one fragment

  // Fed by tick t and by no other tick.
  ghost predicate FedOnceAt<T>(run: seq<Tick<T>>, key: Key, x: T, t: nat) {
    && t < |run| && key in run[t].datas && multiset(run[t].datas[key])[x] == 1
    && forall j :: 0 <= j < |run| && j != t && key in run[j].datas ==> x !in run[j].datas[key]
  }

  ghost predicate FedWithin<T>(wait: nat, run: seq<Tick<T>>, key: Key, t: nat, q: nat) {
    exists s: nat :: t <= s <= q < s + wait && s < |run| && key in run[s].datas
  }

  // From tick t up to but not including tick n the key was never picked, and never went `wait`
  // ticks without being fed.
  ghost predicate Survives<T>(wait: nat, run: seq<Tick<T>>, key: Key, t: nat, n: nat) {
    && t < n <= |run|
    && forall q: nat :: t <= q < n ==> SurvivesAt(wait, run, key, t, q)
  }

  ghost predicate SurvivesAt<T>(wait: nat, run: seq<Tick<T>>, key: Key, t: nat, q: nat)
    requires q < |run|
  {
    key !in run[q].picks && FedWithin(wait, run, key, t, q)
  }

  lemma SurvivesPrefix<T>(wait: nat, run: seq<Tick<T>>, key: Key, t: nat, n: nat)
    requires n <= |run|
    ensures Survives(wait, run[..n], key, t, n) <==> Survives(wait, run, key, t, n)
  {
    forall q | t <= q < n
      ensures FedWithin(wait, run[..n], key, t, q) <==> FedWithin(wait, run, key, t, q)
    {
      if FedWithin(wait, run, key, t, q) {
        var s: nat :| t <= s <= q < s + wait && s < |run| && key in run[s].datas;
        assert key in run[..n][s].datas;
      }
      if FedWithin(wait, run[..n], key, t, q) {
        var s: nat :| t <= s <= q < s + wait && s < n && key in run[..n][s].datas;
        assert key in run[s].datas;
      }
    }
    forall q: nat | t <= q < n
      ensures SurvivesAt(wait, run[..n], key, t, q) <==> SurvivesAt(wait, run, key, t, q)
    {
      assert run[..n][q] == run[q];
    }
  }

  lemma FedOncePrefix<T>(run: seq<Tick<T>>, key: Key, x: T, t: nat, n: nat)
    requires FedOnceAt(run, key, x, t) && t < n <= |run|
    ensures FedOnceAt(run[..n], key, x, t)
  {
  }

  lemma {:induction false} NotHeldBeforeFed<T>(wait: nat, run: seq<Tick<T>>, key: Key, x: T)
    requires forall j :: 0 <= j < |run| && key in run[j].datas ==> x !in run[j].datas[key]
    ensures x !in Datas(SlotAt(wait, run, key))
    decreases |run|
  {
    if run != [] {
      NotHeldBeforeFed(wait, run[..|run| - 1], key, x);
    }
  }

  // A fragment is held exactly while its key survives.
  lemma {:induction false} HeldIffSurvives<T>(wait: nat, run: seq<Tick<T>>, key: Key, x: T, t: nat)
    requires FedOnceAt(run, key, x, t)
    ensures x in Datas(SlotAt(wait, run, key)) <==> Survives(wait, run, key, t, |run|)
    decreases |run|
  {
    var now := |run| - 1;
    var before := run[..now];
    if now == t {
      NotHeldBeforeFed(wait, before, key, x);
      FedWithinOfLatest(wait, run, key, t, t, t);
      assert Survives(wait, run, key, t, |run|) <==> SurvivesAt(wait, run, key, t, t);
    } else {
      FedOncePrefix(run, key, x, t, now);
      HeldIffSurvives(wait, before, key, x, t);
      SurvivesPrefix(wait, run, key, t, now);
      if key in run[now].datas {
        SurvivesFeeding(wait, run, key, t);
      } else {
        SurvivesOneMore(wait, run, key, t);
        FedWithinOfSlot(wait, run, key, t);
      }
    }
  }

  lemma {:induction false} LatestFed<T>(run: seq<Tick<T>>, key: Key, t: nat, n: nat) returns (s: nat)
    requires t < n <= |run| && key in run[t].datas
    ensures t <= s < n && key in run[s].datas
    ensures forall j :: s < j < n ==> key !in run[j].datas
    decreases n
  {
    if key in run[n - 1].datas {
      s := n - 1;
    } else {
      s := LatestFed(run, key, t, n - 1);
    }
  }

  lemma FedWithinOfLatest<T>(wait: nat, run: seq<Tick<T>>, key: Key, t: nat, q: nat, s: nat)
    requires t <= s <= q < |run| && key in run[s].datas
    requires forall j :: s < j <= q ==> key !in run[j].datas
    ensures FedWithin(wait, run, key, t, q) <==> q - s < wait
  {
    if q - s < wait {
      assert key in run[s].datas && t <= s <= q < s + wait;
    }
    if FedWithin(wait, run, key, t, q) {
      var f: nat :| t <= f <= q < f + wait && f < |run| && key in run[f].datas;
      assert f <= s;
    }
  }

  lemma SurvivorIsRecent<T>(wait: nat, run: seq<Tick<T>>, key: Key, t: nat, n: nat, s: nat)
    requires t <= s < n <= |run| && key in run[s].datas
    requires forall j :: s < j < n ==> key !in run[j].datas
    requires Survives(wait, run, key, t, n)
    ensures n < s + wait + 1
  {
    assert SurvivesAt(wait, run, key, t, n - 1);
    FedWithinOfLatest(wait, run, key, t, n - 1, s);
  }

  lemma SurvivorIsUnpicked<T>(wait: nat, run: seq<Tick<T>>, key: Key, t: nat, n: nat, j: nat)
    requires t <= j < n <= |run| && Survives(wait, run, key, t, n)
    ensures key !in run[..n][j].picks
  {
    assert SurvivesAt(wait, run, key, t, j);
  }

  lemma SurvivorLastFed<T>(wait: nat, run: seq<Tick<T>>, key: Key, t: nat, n: nat, s: nat)
    requires t <= s < n <= |run| && key in run[s].datas
    requires forall j :: s < j < n ==> key !in run[j].datas
    requires Survives(wait, run, key, t, n)
    ensures LastFed(wait, run[..n], key, s)
  {
    SurvivorIsRecent(wait, run, key, t, n, s);
    forall j | s <= j < n ensures key !in run[..n][j].picks {
      SurvivorIsUnpicked(wait, run, key, t, n, j);
    }
  }

  lemma SurvivorIsHeld<T>(wait: nat, run: seq<Tick<T>>, key: Key, t: nat, n: nat, s: nat)
    requires t <= s < n <= |run| && key in run[s].datas
    requires forall j :: s < j < n ==> key !in run[j].datas
    requires Survives(wait, run, key, t, n)
    ensures SlotAt(wait, run[..n], key).Kept? && SlotAt(wait, run[..n], key).at == s
  {
    SurvivorLastFed(wait, run, key, t, n, s);
    HeldIffFedRecently(wait, run[..n], key);
  }

  lemma SurvivesOneMore<T>(wait: nat, run: seq<Tick<T>>, key: Key, t: nat)
    requires t < |run| - 1
    ensures var now := |run| - 1;
            Survives(wait, run, key, t, |run|)
            <==> Survives(wait, run, key, t, now) && key !in run[now].picks && FedWithin(wait, run, key, t, now)
  {
    var now := |run| - 1;
    if Survives(wait, run, key, t, |run|) {
      assert SurvivesAt(wait, run, key, t, now);
    }
  }

  // A tick that feeds the key again keeps it alive unless it also picks it.
  lemma SurvivesFeeding<T>(wait: nat, run: seq<Tick<T>>, key: Key, t: nat)
    requires t < |run| - 1 && key in run[|run| - 1].datas
    ensures Survives(wait, run, key, t, |run|)
            <==> Survives(wait, run, key, t, |run| - 1) && key !in run[|run| - 1].picks && 0 < wait
  {
    FedWithinOfLatest(wait, run, key, t, |run| - 1, |run| - 1);
    SurvivesOneMore(wait, run, key, t);
  }

  // Without feeding, how recently the key was fed is what the slot's last-fed tick says.
  lemma SlotOfLatest<T>(wait: nat, run: seq<Tick<T>>, key: Key, t: nat, n: nat) returns (s: nat)
    requires t < n <= |run| && key in run[t].datas && Survives(wait, run, key, t, n)
    ensures t <= s < n && key in run[s].datas && forall j :: s < j < n ==> key !in run[j].datas
    ensures SlotAt(wait, run[..n], key).Kept? && SlotAt(wait, run[..n], key).at == s
  {
    s := LatestFed(run, key, t, n);
    SurvivorIsHeld(wait, run, key, t, n, s);
  }

  lemma FedWithinOfSlot<T>(wait: nat, run: seq<Tick<T>>, key: Key, t: nat)
    requires t < |run| - 1 && key in run[t].datas && key !in run[|run| - 1].datas
    ensures Survives(wait, run, key, t, |run| - 1) ==>
              && SlotAt(wait, run[..|run| - 1], key).Kept?
              && (FedWithin(wait, run, key, t, |run| - 1)
                  <==> |run| - 1 - SlotAt(wait, run[..|run| - 1], key).at < wait)
  {
    var n := |run| - 1;
    if Survives(wait, run, key, t, n) {
      var s := SlotOfLatest(wait, run, key, t, n);
      forall j | s < j <= n ensures key !in run[j].datas {
        if j == n {
          assert key !in run[n].datas;
        }
      }
      FedWithinOfLatest(wait, run, key, t, n, s);
    }
  }

  // ---------------------------------------------------------------- when a fragment is picked

  // Tick p picks the fragment exactly if it looks the key up while the fragment is there.
  lemma PickedExactlyWhen<T>(wait: nat, run: seq<Tick<T>>, key: Key, x: T, t: nat, p: nat)
    requires FedOnceAt(run, key, x, t) && p < |run|
    ensures x in PickedLast(wait, run[..p + 1], key)
            <==> key in run[p].picks && (p == t || Survives(wait, run, key, t, p))
  {
    var upTo := run[..p + 1];
    assert upTo[..p] == run[..p];
    if p < t {
      NotHeldBeforeFed(wait, run[..p], key, x);
    } else if p == t {
      NotHeldBeforeFed(wait, run[..p], key, x);
    } else {
      FedOncePrefix(run, key, x, t, p);
      HeldIffSurvives(wait, run[..p], key, x, t);
      SurvivesPrefix(wait, run, key, t, p);
      assert key in run[p].datas ==> x !in run[p].datas[key];
    }
  }

  lemma {:induction false} PickedSomewhere<T>(wait: nat, run: seq<Tick<T>>, key: Key, x: T, p: nat)
    requires p < |run| && x in PickedLast(wait, run[..p + 1], key)
    ensures x in PickedAll(wait, run, key)
    decreases |run|
  {
    if p == |run| - 1 {
      assert run[..p + 1] == run;
    } else {
      var before := run[..|run| - 1];
      assert before[..p + 1] == run[..p + 1];
      PickedSomewhere(wait, before, key, x, p);
    }
  }

  lemma {:induction false} PickedAtSomeTick<T>(wait: nat, run: seq<Tick<T>>, key: Key, x: T) returns (p: nat)
    requires x in PickedAll(wait, run, key)
    ensures p < |run| && x in PickedLast(wait, run[..p + 1], key)
    decreases |run|
  {
    var n := |run| - 1;
    if x in PickedLast(wait, run, key) {
      p := n;
      assert run[..p + 1] == run;
    } else {
      p := PickedAtSomeTick(wait, run[..n], key, x);
      assert run[..n][..p + 1] == run[..p + 1];
    }
  }

  lemma {:induction false} FedCount<T>(run: seq<Tick<T>>, key: Key, x: T, t: nat, n: nat)
    requires FedOnceAt(run, key, x, t) && n <= |run|
    ensures multiset(FedBetween(run, key, 0, n))[x] == if t < n then 1 else 0
  {
    if n > 0 {
      FedCount(run, key, x, t, n - 1);
    }
  }

  // Some tick looks the key up, and from tick t up to that tick the key survives.
  ghost predicate LookedUpInTime<T>(wait: nat, run: seq<Tick<T>>, key: Key, t: nat) {
    exists p: nat :: p < |run| && key in run[p].picks && (p == t || Survives(wait, run, key, t, p))
  }

  // A fragment fed once is picked at most once, and exactly once iff its key is looked up in time.
  lemma PickedOnceIff<T>(wait: nat, run: seq<Tick<T>>, key: Key, x: T, t: nat)
    requires FedOnceAt(run, key, x, t)
    ensures multiset(PickedAll(wait, run, key))[x] <= 1
    ensures multiset(PickedAll(wait, run, key))[x] == 1
            <==> LookedUpInTime(wait, run, key, t)
  {
    FedCount(run, key, x, t, |run|);
    FragmentsConserved(wait, run, key);
    if multiset(PickedAll(wait, run, key))[x] == 1 {
      assert x in PickedAll(wait, run, key);
      var p := PickedAtSomeTick(wait, run, key, x);
      PickedExactlyWhen(wait, run, key, x, t, p);
    }
    if p: nat :| p < |run| && key in run[p].picks && (p == t || Survives(wait, run, key, t, p)) {
      PickedExactlyWhen(wait, run, key, x, t, p);
      PickedSomewhere(wait, run, key, x, p);
    }
  }

  // A look-up no more than `wait` ticks after the fragment was fed finds it, or an earlier one did.
  lemma PickedWithinWait<T>(wait: nat, run: seq<Tick<T>>, key: Key, x: T, t: nat, p: nat)
    requires FedOnceAt(run, key, x, t)
    requires t <= p < |run| && p <= t + wait && key in run[p].picks
    ensures multiset(PickedAll(wait, run, key))[x] == 1
  {
    var first := FirstPick(run, key, t, p);
    if first > t {
      forall q: nat | t <= q < first ensures SurvivesAt(wait, run, key, t, q) {
        assert key in run[t].datas && t <= t <= q < t + wait;
      }
      assert Survives(wait, run, key, t, first);
    }
    PickedOnceIff(wait, run, key, x, t);
  }

  lemma {:induction false} FirstPick<T>(run: seq<Tick<T>>, key: Key, t: nat, p: nat) returns (first: nat)
    requires t <= p < |run| && key in run[p].picks
    ensures t <= first <= p && key in run[first].picks
    ensures forall q :: t <= q < first ==> key !in run[q].picks
    decreases p - t
  {
    if key in run[t].picks {
      first := t;
    } else {
      first := FirstPick(run, key, t + 1, p);
    }
  }

  // ---------------------------------------------------------------- all keys together

  // What the ticks' look-ups return in all, in order.
  function Flatten<T>(outs: seq<seq<T>>): seq<T> {
    if outs == [] then [] else Flatten(outs[..|outs| - 1]) + outs[|outs| - 1]
  }

  // Every fragment is cached under its own key.
  ghost predicate Keyed<T(!new)>(run: seq<Tick<T>>, keyOf: T -> Key) {
    forall i, k, x :: 0 <= i < |run| && k in run[i].datas && x in run[i].datas[k] ==> keyOf(x) == k
  }

  lemma {:induction false} PickAllCount<T>(cache: map<Key, CacheData<T>>, keys: seq<Key>, key: Key, x: T)
    requires forall k :: k in cache && k != key ==> x !in cache[k].datas
    ensures multiset(PickAll(cache, keys).1)[x]
         == if key in keys && key in cache then multiset(cache[key].datas)[x] else 0
  {
    if keys != [] {
      PickAllCount(if keys[0] in cache then cache - {keys[0]} else cache, keys[1..], key, x);
    }
  }

  lemma {:induction false} SlotIsKeyed<T(!new)>(wait: nat, run: seq<Tick<T>>, keyOf: T -> Key, key: Key, x: T)
    requires Keyed(run, keyOf) && keyOf(x) != key
    ensures x !in Datas(SlotAt(wait, run, key))
    decreases |run|
  {
    if run != [] {
      var now := |run| - 1;
      forall i, k, y | 0 <= i < now && k in run[..now][i].datas && y in run[..now][i].datas[k] ensures keyOf(y) == k {
        assert k in run[i].datas && y in run[i].datas[k];
      }
      SlotIsKeyed(wait, run[..now], keyOf, key, x);
    }
  }

  // What the wheel's look-ups return is, for each fragment, what the timed map says.
  lemma {:induction false} WheelPicksWhatTheMapPicks<T(!new)>(
    wait: nat, run: seq<Tick<T>>, ws: seq<Wheel<T>>, outs: seq<seq<T>>, keyOf: T -> Key, x: T, n: nat)
    requires WheelRun(wait, run, ws, outs) && Keyed(run, keyOf) && n <= |run|
    ensures multiset(Flatten(outs[..n]))[x] == multiset(PickedAll(wait, run[..n], keyOf(x)))[x]
  {
    if n > 0 {
      var m, key := n - 1, keyOf(x);
      WheelPicksWhatTheMapPicks(wait, run, ws, outs, keyOf, x, m);
      assert Flatten(outs[..n]) == Flatten(outs[..m]) + outs[m] by {
        assert outs[..n][..m] == outs[..m];
      }
      assert PickedAll(wait, run[..n], key) == PickedAll(wait, run[..m], key) + PickedLast(wait, run[..n], key) by {
        assert run[..n][..m] == run[..m];
      }
      WheelRefinesTimedMap(wait, run, ws, outs, m);
      KeyedPrefix(run, keyOf, n);
      var upTo := run[..n];
      assert upTo[..|upTo| - 1] == run[..m] && upTo[|upTo| - 1] == run[m];
      assert Refines(ws[m], wait, upTo[..|upTo| - 1]);
      assert Ticked(ws[m], run[m], ws[n], outs[m]);
      TickPicksWhatTheMapPicks(ws[m], wait, upTo, ws[n], outs[m], keyOf, x);
    }
  }

  lemma KeyedPrefix<T(!new)>(run: seq<Tick<T>>, keyOf: T -> Key, n: nat)
    requires Keyed(run, keyOf) && n <= |run|
    ensures Keyed(run[..n], keyOf)
  {
    forall i, k, y | 0 <= i < n && k in run[..n][i].datas && y in run[..n][i].datas[k] ensures keyOf(y) == k {
      assert k in run[i].datas && y in run[i].datas[k];
    }
  }

  lemma TickPicksWhatTheMapPicks<T(!new)>(
    w: Wheel<T>, wait: nat, run: seq<Tick<T>>, w': Wheel<T>, out: seq<T>, keyOf: T -> Key, x: T)
    requires run != [] && Keyed(run, keyOf)
    requires Refines(w, wait, run[..|run| - 1]) && Ticked(w, run[|run| - 1], w', out)
    ensures multiset(out)[x] == multiset(PickedLast(wait, run, keyOf(x)))[x]
  {
    var now, key := |run| - 1, keyOf(x);
    var before, tick := run[..now], run[now];
    var copied: Wheel<T> :| Copied(w, tick.datas, copied) && AfterCopy(copied, tick, w', out);
    forall k ensures Holds(copied, wait, Feed(SlotAt(wait, before, k), tick, k, now), now, k) {
      assert KeyRefines(w, wait, before, k);
      CopyHolds(w, copied, wait, SlotAt(wait, before, k), tick, now, k);
    }
    forall k | k in copied.cache && k != key ensures x !in copied.cache[k].datas {
      KeyedPrefix(run, keyOf, now);
      SlotIsKeyed(wait, before, keyOf, k, x);
      assert Holds(copied, wait, Feed(SlotAt(wait, before, k), tick, k, now), now, k);
    }
    assert Holds(copied, wait, Feed(SlotAt(wait, before, key), tick, key, now), now, key);
    PickAllCount(copied.cache, tick.picks, key, x);
  }
}
