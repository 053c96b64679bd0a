// How long a mark of the fragment sampler is seen, and which fragments of a marked trace are emitted.
module OtelMarks {
  import opened Runs
  import opened TimeWheel
  import opened WheelWindows
  import opened OtelTraceSampling

  // A step that does not mark the id: if its mark has age 0 afterwards, it had so before.
  ghost predicate Unmarked(s: System, s': System, id: Key) {
    id in s'.marks && s'.marks[id] == 0 ==> id in s.marks && s.marks[id] == 0
  }

  ghost predicate QuietAt(b: seq<System>, expireTime: int, id: Key, i: nat)
    requires i < |b| - 1
  {
    NextStep(b[i], expireTime, b[i + 1]) && Unmarked(b[i], b[i + 1], id)
  }

  // Some interleaving that does not mark the id leads from s to s'.
  ghost predicate LeadsQuietly(s: System, expireTime: int, id: Key, s': System) {
    exists b: seq<System> ::
      b != [] && b[0] == s && b[|b| - 1] == s' && forall i: nat :: i < |b| - 1 ==> QuietAt(b, expireTime, id, i)
  }

  // A tick that sees a mark made just before tick `from`: that tick, and all within the expiry time.
  predicate Sees(expireTime: int, from: nat, j: nat) {
    from <= j && (j == from || j - from < expireTime)
  }

  // What is known of an id whose last mark was made when the ticks `before` were over.
  ghost predicate SeenExactly(s: System, expireTime: int, id: Key, before: seq<seq<Key>>) {
    var n, from := |s.seen|, |before|;
    && from <= n && s.seen[..from] == before
    && (id in s.marks <==> Sees(expireTime, from, n))
    && (id in s.marks ==> s.marks[id] == n - from)
    && forall j: nat :: from <= j < n ==> (id in s.seen[j] <==> Sees(expireTime, from, j))
  }

  lemma StepKeepsSeen(s: System, expireTime: int, s': System, id: Key, before: seq<seq<Key>>)
    requires SeenExactly(s, expireTime, id, before) && NextStep(s, expireTime, s') && Unmarked(s, s', id)
    ensures SeenExactly(s', expireTime, id, before)
  {
    if RangeStep(s, expireTime, s') {
      RangeKeepsSeen(s, expireTime, s', id, before);
    } else {
      assert s'.seen == s.seen;
      OthersKeepMark(s, expireTime, s', id);
    }
  }

  lemma OthersKeepMark(s: System, expireTime: int, s': System, id: Key)
    requires NextStep(s, expireTime, s') && !RangeStep(s, expireTime, s') && Unmarked(s, s', id)
    ensures id in s'.marks <==> id in s.marks
    ensures id in s.marks ==> s'.marks[id] == s.marks[id]
  {
  }

  lemma RangeKeepsSeen(s: System, expireTime: int, s': System, id: Key, before: seq<seq<Key>>)
    requires SeenExactly(s, expireTime, id, before) && RangeStep(s, expireTime, s')
    ensures SeenExactly(s', expireTime, id, before)
  {
    var n := |s.seen|;
    forall j | 0 <= j < n ensures s'.seen[j] == s.seen[j] {
      assert s'.seen[..n][j] == s'.seen[j];
    }
    assert s'.seen[..|before|] == s.seen[..|before|];
    assert id in s'.seen[n] <==> id in s.marks;
  }

  // However long its trace was marked already, a mark is seen by the next tick and by all ticks within the
  // expiry time, and by no other.
  lemma MarkIsSeenExactly(s0: System, s1: System, s: System, expireTime: int, id: Key)
    requires s1 == s0.(marks := Marked(s0.marks, id)) && LeadsQuietly(s1, expireTime, id, s)
    ensures SeenExactly(s, expireTime, id, s0.seen)
  {
    var b: seq<System> :|
      b != [] && b[0] == s1 && b[|b| - 1] == s && forall i: nat :: i < |b| - 1 ==> QuietAt(b, expireTime, id, i);
    forall j | 0 <= j < |b| - 1 && SeenExactly(b[j], expireTime, id, s0.seen)
      ensures SeenExactly(b[j + 1], expireTime, id, s0.seen)
    {
      assert QuietAt(b, expireTime, id, j);
      StepKeepsSeen(b[j], expireTime, b[j + 1], id, s0.seen);
    }
    HoldsAlong(b, (x: System) => SeenExactly(x, expireTime, id, s0.seen), |b| - 1);
  }

  ghost predicate FirstMarked(s0: System, s1: System, id: Key) {
    (forall j :: 0 <= j < |s0.seen| ==> id !in s0.seen[j]) && s1 == s0.(marks := Marked(s0.marks, id))
  }

  // Its trace was fed again in time, up to but not including tick u.
  ghost predicate FedUntil(wait: nat, run: seq<Tick<OtelTrace>>, id: Key, t: nat, u: nat) {
    forall q: nat :: t <= q < u ==> FedWithin(wait, run, id, t, q)
  }

  // The trace of a fragment drained at tick t is marked after u ticks, by when no tick had seen a mark of it,
  // and not marked again: the fragment is emitted exactly if its trace is marked before that tick and the mark
  // still seen at it, or the trace is marked later but was fed in time until then.
  lemma EmittedExactly(s0: System, s1: System, s: System, expireTime: int, wait: nat, x: OtelTrace, t: nat)
    requires FirstMarked(s0, s1, x.id) && LeadsQuietly(s1, expireTime, x.id, s)
    requires Reachable(s, expireTime, wait) && DrainedBy(s, x, t)
    ensures Counters(s)
    ensures var u := |s0.seen|;
            x in Flatten(s.outs) <==>
            if t < u then u < |s.seen| && FedUntil(wait, s.Run(), x.id, t, u) else Sees(expireTime, u, t)
  {
    MarkIsSeenExactly(s0, s1, s, expireTime, x.id);
    EmittedIff(s, expireTime, wait, x, t);
    var u, run := |s0.seen|, s.Run();
    forall p: nat | p < |run| ensures x.id in run[p].picks <==> Sees(expireTime, u, p) {
      assert p < u ==> s.seen[..u][p] == s.seen[p];
    }
    LookedUpExactly(wait, run, x.id, expireTime, u, t);
  }

  lemma LookedUpExactly(wait: nat, run: seq<Tick<OtelTrace>>, id: Key, expireTime: int, u: nat, t: nat)
    requires t < |run| && forall p: nat :: p < |run| ==> (id in run[p].picks <==> Sees(expireTime, u, p))
    ensures LookedUpInTime(wait, run, id, t)
            <==> if t < u then u < |run| && FedUntil(wait, run, id, t, u) else Sees(expireTime, u, t)
  {
    if LookedUpInTime(wait, run, id, t) {
      var p: nat :| p < |run| && id in run[p].picks && (p == t || Survives(wait, run, id, t, p));
      LookedUpIsInWindow(wait, run, id, expireTime, u, t, p);
    }
    if t < u < |run| && FedUntil(wait, run, id, t, u) {
      forall q: nat | t <= q < u ensures SurvivesAt(wait, run, id, t, q) {
        assert FedWithin(wait, run, id, t, q);
      }
      assert Survives(wait, run, id, t, u) && id in run[u].picks;
    }
    if u <= t && Sees(expireTime, u, t) {
      assert id in run[t].picks;
    }
  }

  lemma LookedUpIsInWindow(wait: nat, run: seq<Tick<OtelTrace>>, id: Key, expireTime: int, u: nat, t: nat, p: nat)
    requires t < |run| && p < |run| && (p == t || Survives(wait, run, id, t, p))
    requires forall q: nat :: q < |run| ==> (id in run[q].picks <==> Sees(expireTime, u, q))
    requires id in run[p].picks
    ensures if t < u then u < |run| && FedUntil(wait, run, id, t, u) else Sees(expireTime, u, t)
  {
    if t < u {
      forall q: nat | t <= q < u ensures FedWithin(wait, run, id, t, q) {
        assert SurvivesAt(wait, run, id, t, q);
      }
    } else if p != t {
      assert SurvivesAt(wait, run, id, t, t);
    }
  }
}
