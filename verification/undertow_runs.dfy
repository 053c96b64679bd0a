// Runs of the Undertow rendezvous: the two halves of every request in any order among all others.
module UndertowRuns {
  import opened Wrappers
  import opened UndertowJoining

  function HalfAt(run: seq<Arrival>, i: nat): Half
    requires i < |run|
  {
    HalfOf(run[i].segment)
  }

  // No two I/O halves and no two task halves meet under one key, and no segment is broken.
  ghost predicate DistinctKeys(run: seq<Arrival>) {
    && (forall i :: 0 <= i < |run| ==> Translated(run[i]) && !HalfAt(run, i).Broken?)
    && (forall i, j :: 0 <= i < j < |run| && HalfAt(run, i).Io? && HalfAt(run, j).Io? ==>
          HalfAt(run, i).key != HalfAt(run, j).key)
    && (forall i, j :: 0 <= i < j < |run| && HalfAt(run, i).Task? && HalfAt(run, j).Task? ==>
          HalfAt(run, i).key != HalfAt(run, j).key)
  }

  // The route that a key's task half names, and the trace of its I/O half, if they came.
  function RouteOf(run: seq<Arrival>, key: Key): Option<string> {
    if run == [] then None
    else
      var h := HalfOf(run[|run| - 1].segment);
      if h.Task? && h.key == key then Some(h.routeUrl) else RouteOf(run[..|run| - 1], key)
  }

  function IoOf(run: seq<Arrival>, key: Key): Option<Scopes> {
    if run == [] then None
    else
      var h := HalfOf(run[|run| - 1].segment);
      if h.Io? && h.key == key then Some(run[|run| - 1].ptd) else IoOf(run[..|run| - 1], key)
  }

  lemma {:induction false} RouteOfIs(run: seq<Arrival>, key: Key)
    requires DistinctKeys(run)
    ensures forall i :: 0 <= i < |run| && HalfAt(run, i).Task? && HalfAt(run, i).key == key ==>
              RouteOf(run, key) == Some(HalfAt(run, i).routeUrl)
    ensures RouteOf(run, key).Some? ==> exists i :: 0 <= i < |run| && HalfAt(run, i).Task? && HalfAt(run, i).key == key
  {
    if run != [] {
      var n := |run| - 1;
      RouteOfIs(run[..n], key);
      forall i | 0 <= i < |run| && HalfAt(run, i).Task? && HalfAt(run, i).key == key
        ensures RouteOf(run, key) == Some(HalfAt(run, i).routeUrl)
      {
        if i < n {
          assert HalfAt(run[..n], i) == HalfAt(run, i);
        }
      }
      if RouteOf(run, key).Some? && !(HalfAt(run, n).Task? && HalfAt(run, n).key == key) {
        var i :| 0 <= i < n && HalfAt(run[..n], i).Task? && HalfAt(run[..n], i).key == key;
        assert HalfAt(run, i) == HalfAt(run[..n], i);
      }
    }
  }

  lemma {:induction false} IoOfIs(run: seq<Arrival>, key: Key)
    requires DistinctKeys(run)
    ensures forall i :: 0 <= i < |run| && HalfAt(run, i).Io? && HalfAt(run, i).key == key ==>
              IoOf(run, key) == Some(run[i].ptd)
  {
    if run != [] {
      var n := |run| - 1;
      IoOfIs(run[..n], key);
      forall i | 0 <= i < |run| && HalfAt(run, i).Io? && HalfAt(run, i).key == key
        ensures IoOf(run, key) == Some(run[i].ptd)
      {
        if i < n {
          assert HalfAt(run[..n], i) == HalfAt(run, i) && run[..n][i] == run[i];
        }
      }
    }
  }

  // ---------------------------------------------------------------- what a run leaves and gives out

  function After(run: seq<Arrival>): Cache {
    if run == [] then Cache(map[], map[]) else Join(After(run[..|run| - 1]), run[|run| - 1]).0
  }

  function SpansIn(scopes: Scopes): seq<OtSpan> {
    if scopes == [] then [] else SpansIn(scopes[..|scopes| - 1]) + scopes[|scopes| - 1]
  }

  function Given(out: Outcome): seq<OtSpan> {
    if out.Emitted? then SpansIn(out.ptd) else []
  }

  function GivenOut(run: seq<Arrival>): multiset<OtSpan> {
    if run == [] then multiset{}
    else
      GivenOut(run[..|run| - 1]) + multiset(Given(Join(After(run[..|run| - 1]), run[|run| - 1]).1))
  }

  // The maps hold exactly the halves whose other half has not come.
  ghost predicate HoldsWaiting(c: Cache, run: seq<Arrival>) {
    && (forall key :: key in c.ioTraces <==> IoOf(run, key).Some? && RouteOf(run, key).None?)
    && (forall key :: key in c.ioTraces ==> c.ioTraces[key] == IoOf(run, key).value)
    && (forall key :: key in c.routeUrls <==> RouteOf(run, key).Some? && IoOf(run, key).None?)
    && (forall key :: key in c.routeUrls ==> c.routeUrls[key] == RouteOf(run, key).value)
  }

  lemma DistinctPrefix(run: seq<Arrival>, n: nat)
    requires DistinctKeys(run) && n <= |run|
    ensures DistinctKeys(run[..n])
  {
    forall i | 0 <= i < n ensures HalfAt(run[..n], i) == HalfAt(run, i) && run[..n][i] == run[i] {
    }
  }

  // In a run with distinct keys the last half's own key has not come before on its side.
  lemma FreshSide(run: seq<Arrival>)
    requires DistinctKeys(run) && run != []
    ensures var b, h := run[..|run| - 1], HalfOf(run[|run| - 1].segment);
            && (h.Io? ==> IoOf(b, h.key).None?)
            && (h.Task? ==> RouteOf(b, h.key).None?)
  {
    var n := |run| - 1;
    var h := HalfOf(run[n].segment);
    DistinctPrefix(run, n);
    assert HalfAt(run, n) == h;
    if h.Io? {
      NoIoYet(run, n, h);
    } else if h.Task? {
      NoTaskYet(run, n, h);
    }
  }

  lemma {:induction false} NoIoYet(run: seq<Arrival>, n: nat, h: Half)
    requires n <= |run| && h.Io? && forall i :: 0 <= i < n ==> !(HalfAt(run, i).Io? && HalfAt(run, i).key == h.key)
    ensures IoOf(run[..n], h.key).None?
  {
    if n > 0 {
      NoIoYet(run, n - 1, h);
      assert run[..n][..n - 1] == run[..n - 1];
      assert HalfAt(run, n - 1) == HalfOf(run[..n][n - 1].segment);
    }
  }

  lemma {:induction false} NoTaskYet(run: seq<Arrival>, n: nat, h: Half)
    requires n <= |run| && h.Task? && forall i :: 0 <= i < n ==> !(HalfAt(run, i).Task? && HalfAt(run, i).key == h.key)
    ensures RouteOf(run[..n], h.key).None?
  {
    if n > 0 {
      NoTaskYet(run, n - 1, h);
      assert run[..n][..n - 1] == run[..n - 1];
      assert HalfAt(run, n - 1) == HalfOf(run[..n][n - 1].segment);
    }
  }

  lemma OneMoreHalf(b: seq<Arrival>, a: Arrival, key: Key)
    ensures var h := HalfOf(a.segment);
            && RouteOf(b + [a], key) == (if h.Task? && h.key == key then Some(h.routeUrl) else RouteOf(b, key))
            && IoOf(b + [a], key) == (if h.Io? && h.key == key then Some(a.ptd) else IoOf(b, key))
  {
    assert (b + [a])[..|b|] == b;
  }

  lemma JoinHolds(c: Cache, b: seq<Arrival>, a: Arrival)
    requires HoldsWaiting(c, b)
    requires var h := HalfOf(a.segment); (h.Io? ==> IoOf(b, h.key).None?) && (h.Task? ==> RouteOf(b, h.key).None?)
    ensures HoldsWaiting(Join(c, a).0, b + [a])
  {
    forall key
      ensures var h := HalfOf(a.segment);
              && RouteOf(b + [a], key) == (if h.Task? && h.key == key then Some(h.routeUrl) else RouteOf(b, key))
              && IoOf(b + [a], key) == (if h.Io? && h.key == key then Some(a.ptd) else IoOf(b, key))
    {
      OneMoreHalf(b, a, key);
    }
  }

  lemma {:induction false} WaitingIsHeld(run: seq<Arrival>)
    requires DistinctKeys(run)
    ensures HoldsWaiting(After(run), run)
  {
    if run != [] {
      var n := |run| - 1;
      DistinctPrefix(run, n);
      WaitingIsHeld(run[..n]);
      FreshSide(run);
      JoinHolds(After(run[..n]), run[..n], run[n]);
      assert run[..n] + [run[n]] == run;
    }
  }

  // ---------------------------------------------------------------- what comes of each segment

  // What a run has made of one of its segments by its end.
  function Final(all: seq<Arrival>, a: Arrival): seq<OtSpan> {
    match HalfOf(a.segment)
    case Plain => SpansIn(a.ptd)
    case Task(_, _) => SpansIn(a.ptd)
    case Io(key) => if RouteOf(all, key).Some? then SpansIn(RenamedFirst(a.ptd, RouteOf(all, key).value)) else []
    case Broken => []
  }

  function Finals(run: seq<Arrival>, all: seq<Arrival>): multiset<OtSpan> {
    if run == [] then multiset{} else Finals(run[..|run| - 1], all) + multiset(Final(all, run[|run| - 1]))
  }

  lemma TaskChanges(b: seq<Arrival>, a: Arrival, x: Arrival)
    requires HalfOf(a.segment).Task? && RouteOf(b, HalfOf(a.segment).key).None?
    ensures var h, own := HalfOf(a.segment), HalfOf(x.segment);
            if own.Io? && own.key == h.key then
              Final(b, x) == [] && Final(b + [a], x) == SpansIn(RenamedFirst(x.ptd, h.routeUrl))
            else Final(b + [a], x) == Final(b, x)
  {
    var own := HalfOf(x.segment);
    if own.Io? {
      OneMoreHalf(b, a, own.key);
    }
  }

  // The I/O half a task releases, with its first span renamed.
  function Released(c: seq<Arrival>, key: Key, routeUrl: string): multiset<OtSpan> {
    var io := IoOf(c, key);
    if io.Some? then multiset(SpansIn(RenamedFirst(io.value, routeUrl))) else multiset{}
  }

  lemma ReleasedOneMore(c: seq<Arrival>, b: seq<Arrival>, a: Arrival)
    requires c != [] && DistinctKeys(c) && HalfOf(a.segment).Task? && RouteOf(b, HalfOf(a.segment).key).None?
    ensures var h, n := HalfOf(a.segment), |c| - 1;
            multiset(Final(b + [a], c[n])) + Released(c[..n], h.key, h.routeUrl)
            == multiset(Final(b, c[n])) + Released(c, h.key, h.routeUrl)
  {
    FreshSide(c);
    TaskChanges(b, a, c[|c| - 1]);
  }

  // What the arrival of a task half changes about the segments before it: its I/O half is given out.
  lemma {:induction false} TaskReleases(c: seq<Arrival>, b: seq<Arrival>, a: Arrival)
    requires DistinctKeys(c) && HalfOf(a.segment).Task? && RouteOf(b, HalfOf(a.segment).key).None?
    ensures var h := HalfOf(a.segment);
            Finals(c, b + [a]) == Finals(c, b) + Released(c, h.key, h.routeUrl)
  {
    if c != [] {
      var n := |c| - 1;
      var h := HalfOf(a.segment);
      DistinctPrefix(c, n);
      TaskReleases(c[..n], b, a);
      ReleasedOneMore(c, b, a);
      Exchange(Finals(c[..n], b), Released(c[..n], h.key, h.routeUrl), Released(c, h.key, h.routeUrl),
               multiset(Final(b, c[n])), multiset(Final(b + [a], c[n])));
    }
  }

  lemma Exchange(sum: multiset<OtSpan>, r0: multiset<OtSpan>, r1: multiset<OtSpan>, f0: multiset<OtSpan>,
                 f1: multiset<OtSpan>)
    requires f1 + r0 == f0 + r1
    ensures (sum + r0) + f1 == (sum + f0) + r1
  {
    assert (sum + r0) + f1 == sum + (f1 + r0) && (sum + f0) + r1 == sum + (f0 + r1);
  }

  lemma {:induction false} OthersChangeNothing(c: seq<Arrival>, b: seq<Arrival>, a: Arrival)
    requires !HalfOf(a.segment).Task?
    ensures Finals(c, b + [a]) == Finals(c, b)
  {
    if c != [] {
      OthersChangeNothing(c[..|c| - 1], b, a);
      var own := HalfOf(c[|c| - 1].segment);
      if own.Io? {
        OneMoreHalf(b, a, own.key);
      }
    }
  }

  lemma SpansInOne(ptd: Scopes, spans: seq<OtSpan>)
    ensures SpansIn(ptd + [spans]) == SpansIn(ptd) + spans
  {
    assert (ptd + [spans])[..|ptd|] == ptd;
  }

  lemma {:induction false} IoIsTranslated(run: seq<Arrival>, key: Key)
    requires DistinctKeys(run) && IoOf(run, key).Some?
    ensures |IoOf(run, key).value| == 1
  {
    var n := |run| - 1;
    DistinctPrefix(run, n);
    if HalfAt(run, n).Io? && HalfAt(run, n).key == key {
      HalfNeedsSpans(run[n].segment);
    } else {
      IoIsTranslated(run[..n], key);
    }
  }

  // The spans of the waiting I/O half an arrival releases, renamed.
  function ReleasedBy(b: seq<Arrival>, a: Arrival): seq<OtSpan> {
    var h := HalfOf(a.segment);
    if h.Task? && IoOf(b, h.key).Some? then SpansIn(RenamedFirst(IoOf(b, h.key).value, h.routeUrl)) else []
  }

  ghost predicate FreshHalf(b: seq<Arrival>, a: Arrival) {
    var h := HalfOf(a.segment);
    (h.Io? ==> IoOf(b, h.key).None?) && (h.Task? ==> RouteOf(b, h.key).None?)
  }

  lemma JoinedGives(ptd: Scopes, io: Scopes, routeUrl: string)
    requires |io| == 1
    ensures SpansIn(ptd + JoinedTo(io, routeUrl)) == SpansIn(ptd) + SpansIn(RenamedFirst(io, routeUrl))
  {
    SpansInOne(ptd, Renamed(io[0], routeUrl));
    SpansInOne([], Renamed(io[0], routeUrl));
    assert RenamedFirst(io, routeUrl) == [] + [Renamed(io[0], routeUrl)];
  }

  // What one arrival gives out.
  lemma GivenNow(b: seq<Arrival>, a: Arrival)
    requires DistinctKeys(b) && HoldsWaiting(After(b), b) && FreshHalf(b, a)
    ensures Given(Join(After(b), a).1) == Final(b + [a], a) + ReleasedBy(b, a)
  {
    var h := HalfOf(a.segment);
    if h.Task? {
      if IoOf(b, h.key).Some? {
        IoIsTranslated(b, h.key);
        JoinedGives(a.ptd, IoOf(b, h.key).value, h.routeUrl);
      }
    } else if h.Io? {
      OneMoreHalf(b, a, h.key);
    }
  }

  lemma EarlierChange(b: seq<Arrival>, a: Arrival)
    requires DistinctKeys(b) && FreshHalf(b, a)
    ensures Finals(b, b + [a]) == Finals(b, b) + multiset(ReleasedBy(b, a))
  {
    if HalfOf(a.segment).Task? {
      TaskReleases(b, b, a);
    } else {
      OthersChangeNothing(b, b, a);
    }
  }

  lemma FinalsLast(run: seq<Arrival>, all: seq<Arrival>)
    requires run != []
    ensures Finals(run, all) == Finals(run[..|run| - 1], all) + multiset(Final(all, run[|run| - 1]))
  {
  }

  lemma Grow(sum: multiset<OtSpan>, changed: multiset<OtSpan>, own: seq<OtSpan>, released: seq<OtSpan>,
             given: seq<OtSpan>)
    requires changed == sum + multiset(released) && given == own + released
    ensures changed + multiset(own) == sum + multiset(given)
  {
  }

  lemma FinalsGrow(b: seq<Arrival>, a: Arrival)
    requires DistinctKeys(b) && HoldsWaiting(After(b), b) && FreshHalf(b, a)
    ensures Finals(b + [a], b + [a]) == Finals(b, b) + multiset(Given(Join(After(b), a).1))
  {
    EarlierChange(b, a);
    GivenNow(b, a);
    FinalsLast(b + [a], b + [a]);
    assert (b + [a])[..|b|] == b;
    Grow(Finals(b, b), Finals(b, b + [a]), Final(b + [a], a), ReleasedBy(b, a), Given(Join(After(b), a).1));
  }

  lemma GivenLast(b: seq<Arrival>, a: Arrival)
    ensures GivenOut(b + [a]) == GivenOut(b) + multiset(Given(Join(After(b), a).1))
  {
    assert (b + [a])[..|b|] == b;
  }

  // A longer run that is still one with distinct keys.
  lemma OneMoreArrival(b: seq<Arrival>, a: Arrival)
    requires DistinctKeys(b + [a])
    ensures DistinctKeys(b) && HoldsWaiting(After(b), b) && FreshHalf(b, a)
    ensures Translated(a) && !HalfOf(a.segment).Broken?
  {
    var run := b + [a];
    assert run[..|b|] == b && run[|b|] == a;
    DistinctPrefix(run, |b|);
    WaitingIsHeld(b);
    FreshSide(run);
    assert HalfAt(run, |b|) == HalfOf(a.segment);
  }

  lemma GivenOneMore(b: seq<Arrival>, a: Arrival)
    requires DistinctKeys(b + [a]) && GivenOut(b) == Finals(b, b)
    ensures GivenOut(b + [a]) == Finals(b + [a], b + [a])
  {
    OneMoreArrival(b, a);
    FinalsGrow(b, a);
    GivenLast(b, a);
  }

  // Everything a run gives out, segment by segment, whatever the order they came in.
  lemma {:induction false} GivenIsFinal(run: seq<Arrival>)
    requires DistinctKeys(run)
    ensures GivenOut(run) == Finals(run, run)
  {
    if run != [] {
      var b, a := run[..|run| - 1], run[|run| - 1];
      assert b + [a] == run;
      DistinctPrefix(run, |b|);
      GivenIsFinal(b);
      GivenOneMore(b, a);
    }
  }

  // ---------------------------------------------------------------- the order does not matter

  lemma Assoc(a: multiset<OtSpan>, b: multiset<OtSpan>, c: multiset<OtSpan>)
    ensures (a + b) + c == a + (b + c)
  {
  }

  lemma {:induction false} FinalsConcat(a: seq<Arrival>, b: seq<Arrival>, all: seq<Arrival>)
    ensures Finals(a + b, all) == Finals(a, all) + Finals(b, all)
  {
    if b == [] {
      assert a + b == a;
    } else {
      var n := |b| - 1;
      FinalsConcat(a, b[..n], all);
      FinalsLast(a + b, all);
      FinalsLast(b, all);
      assert (a + b)[..|a + b| - 1] == a + b[..n];
      Assoc(Finals(a, all), Finals(b[..n], all), multiset(Final(all, b[n])));
    }
  }

  lemma FinalsRemove(run: seq<Arrival>, all: seq<Arrival>, i: nat)
    requires i < |run|
    ensures Finals(run, all) == Finals(run[..i] + run[i + 1..], all) + multiset(Final(all, run[i]))
  {
    assert run[..i + 1][..i] == run[..i] && run == run[..i + 1] + run[i + 1..];
    FinalsConcat(run[..i + 1], run[i + 1..], all);
    FinalsConcat(run[..i], run[i + 1..], all);
    Swap(Finals(run[..i], all), multiset(Final(all, run[i])), Finals(run[i + 1..], all));
  }

  lemma Swap(a: multiset<OtSpan>, b: multiset<OtSpan>, c: multiset<OtSpan>)
    ensures (a + b) + c == (a + c) + b
  {
  }

  // Where the last element of one order is in the other, and what remains without it.
  lemma RemoveLast(a: seq<Arrival>, b: seq<Arrival>) returns (i: nat)
    requires multiset(a) == multiset(b) && a != []
    ensures i < |b| && b[i] == a[|a| - 1]
    ensures multiset(a[..|a| - 1]) == multiset(b[..i] + b[i + 1..])
  {
    var n := |a| - 1;
    assert a == a[..n] + [a[n]];
    assert a[n] in multiset(b);
    i :| 0 <= i < |b| && b[i] == a[n];
    assert b == b[..i] + [b[i]] + b[i + 1..];
    assert multiset(b[..i] + b[i + 1..]) == multiset(b) - multiset{b[i]};
    assert multiset(a[..n]) == multiset(a) - multiset{a[n]};
  }

  lemma {:induction false} FinalsPermuted(a: seq<Arrival>, b: seq<Arrival>, all: seq<Arrival>)
    requires multiset(a) == multiset(b)
    ensures Finals(a, all) == Finals(b, all)
  {
    if a == [] {
      assert |multiset(b)| == 0;
    } else {
      var i := RemoveLast(a, b);
      FinalsPermuted(a[..|a| - 1], b[..i] + b[i + 1..], all);
      FinalsRemove(b, all, i);
      FinalsLast(a, all);
    }
  }

  lemma RouteIsFoundToo(a: seq<Arrival>, b: seq<Arrival>, key: Key)
    requires DistinctKeys(a) && DistinctKeys(b) && multiset(a) == multiset(b) && RouteOf(a, key).Some?
    ensures RouteOf(a, key) == RouteOf(b, key)
  {
    RouteOfIs(a, key);
    RouteOfIs(b, key);
    var i :| 0 <= i < |a| && HalfAt(a, i).Task? && HalfAt(a, i).key == key;
    assert a[i] in multiset(b);
    var j :| 0 <= j < |b| && b[j] == a[i];
    assert HalfAt(b, j) == HalfAt(a, i);
  }

  lemma RouteIsKept(a: seq<Arrival>, b: seq<Arrival>, key: Key)
    requires DistinctKeys(a) && DistinctKeys(b) && multiset(a) == multiset(b)
    ensures RouteOf(a, key) == RouteOf(b, key)
  {
    if RouteOf(a, key).Some? {
      RouteIsFoundToo(a, b, key);
    } else if RouteOf(b, key).Some? {
      RouteIsFoundToo(b, a, key);
    }
  }

  lemma {:induction false} FinalsSameRoutes(run: seq<Arrival>, a: seq<Arrival>, b: seq<Arrival>)
    requires DistinctKeys(a) && DistinctKeys(b) && multiset(a) == multiset(b)
    ensures Finals(run, a) == Finals(run, b)
  {
    if run != [] {
      FinalsSameRoutes(run[..|run| - 1], a, b);
      var h := HalfOf(run[|run| - 1].segment);
      if h.Io? {
        RouteIsKept(a, b, h.key);
      }
    }
  }

  // The same segments in another order give out the same spans.
  lemma OrderDoesNotMatter(a: seq<Arrival>, b: seq<Arrival>)
    requires DistinctKeys(a) && DistinctKeys(b) && multiset(a) == multiset(b)
    ensures GivenOut(a) == GivenOut(b)
  {
    GivenIsFinal(a);
    GivenIsFinal(b);
    FinalsPermuted(a, b, a);
    FinalsSameRoutes(b, a, b);
  }

  // ---------------------------------------------------------------- a matched pair

  // When both halves of a request came, in whichever order, both have been given out, the I/O half with
  // its first span named by the route, and neither map holds the key.
  lemma PairIsJoined(run: seq<Arrival>, i: nat, j: nat)
    requires DistinctKeys(run) && i < |run| && j < |run|
    requires HalfAt(run, i).Io? && HalfAt(run, j).Task? && HalfAt(run, i).key == HalfAt(run, j).key
    ensures multiset(SpansIn(RenamedFirst(run[i].ptd, HalfAt(run, j).routeUrl))) + multiset(SpansIn(run[j].ptd))
         <= GivenOut(run)
    ensures HalfAt(run, i).key !in After(run).ioTraces && HalfAt(run, i).key !in After(run).routeUrls
  {
    PairIsFinal(run, i, j);
    GivenIsFinal(run);
    FinalsHaveBoth(run, run, i, j);
    PairLeaves(run, i, j);
  }

  lemma PairIsFinal(run: seq<Arrival>, i: nat, j: nat)
    requires DistinctKeys(run) && i < |run| && j < |run|
    requires HalfAt(run, i).Io? && HalfAt(run, j).Task? && HalfAt(run, i).key == HalfAt(run, j).key
    ensures Final(run, run[i]) == SpansIn(RenamedFirst(run[i].ptd, HalfAt(run, j).routeUrl))
    ensures Final(run, run[j]) == SpansIn(run[j].ptd)
  {
    RouteOfIs(run, HalfAt(run, i).key);
  }

  lemma PairLeaves(run: seq<Arrival>, i: nat, j: nat)
    requires DistinctKeys(run) && i < |run| && j < |run|
    requires HalfAt(run, i).Io? && HalfAt(run, j).Task? && HalfAt(run, i).key == HalfAt(run, j).key
    ensures HalfAt(run, i).key !in After(run).ioTraces && HalfAt(run, i).key !in After(run).routeUrls
  {
    RouteOfIs(run, HalfAt(run, i).key);
    IoOfIs(run, HalfAt(run, i).key);
    WaitingIsHeld(run);
  }

  lemma FinalsHaveBoth(run: seq<Arrival>, all: seq<Arrival>, i: nat, j: nat)
    requires i < |run| && j < |run| && i != j
    ensures multiset(Final(all, run[i])) + multiset(Final(all, run[j])) <= Finals(run, all)
  {
    if i < j {
      FinalsHaveTwo(run, all, i, j);
    } else {
      FinalsHaveTwo(run, all, j, i);
    }
  }

  lemma SubOfSum(a: multiset<OtSpan>, f: multiset<OtSpan>, last: multiset<OtSpan>)
    requires a <= f
    ensures a <= f + last && a + last <= f + last
  {
  }

  lemma {:induction false} FinalsHave(run: seq<Arrival>, all: seq<Arrival>, i: nat)
    requires i < |run|
    ensures multiset(Final(all, run[i])) <= Finals(run, all)
    decreases |run|
  {
    var before, last := run[..|run| - 1], multiset(Final(all, run[|run| - 1]));
    if i < |run| - 1 {
      assert before[i] == run[i];
      FinalsHave(before, all, i);
      SubOfSum(multiset(Final(all, run[i])), Finals(before, all), last);
    }
  }

  lemma FinalsHaveTwo(run: seq<Arrival>, all: seq<Arrival>, i: nat, j: nat)
    requires i < j < |run|
    ensures multiset(Final(all, run[i])) + multiset(Final(all, run[j])) <= Finals(run, all)
  {
    var rest := run[..j] + run[j + 1..];
    FinalsRemove(run, all, j);
    assert rest[i] == run[i];
    FinalsHave(rest, all, i);
    SubOfSum(multiset(Final(all, run[i])), Finals(rest, all), multiset(Final(all, run[j])));
  }

  // ---------------------------------------------------------------- conservation

  function Bodies(spans: seq<OtSpan>): seq<int> {
    seq(|spans|, i requires 0 <= i < |spans| => spans[i].body)
  }

  function Received(run: seq<Arrival>): multiset<int> {
    if run == [] then multiset{} else Received(run[..|run| - 1]) + multiset(Bodies(SpansIn(run[|run| - 1].ptd)))
  }

  function GivenBodies(run: seq<Arrival>): multiset<int> {
    if run == [] then multiset{}
    else
      GivenBodies(run[..|run| - 1]) + multiset(Bodies(Given(Join(After(run[..|run| - 1]), run[|run| - 1]).1)))
  }

  ghost function AnyKey(held: map<Key, Scopes>): (key: Key)
    requires held != map[]
    ensures key in held
  {
    assert held.Keys != {};
    var key :| key in held.Keys;
    key
  }

  // The bodies of everything held.
  ghost function HeldBodies(held: map<Key, Scopes>): multiset<int>
    decreases |held|
  {
    if held == map[] then multiset{}
    else
      var key := AnyKey(held);
      multiset(Bodies(SpansIn(held[key]))) + HeldBodies(held - {key})
  }

  lemma {:induction false} HeldSplit(held: map<Key, Scopes>, key: Key)
    requires key in held
    ensures HeldBodies(held) == multiset(Bodies(SpansIn(held[key]))) + HeldBodies(held - {key})
    decreases |held|
  {
    var first := AnyKey(held);
    if first != key {
      HeldSplit(held - {first}, key);
      HeldSplit(held - {key}, first);
      assert held - {first} - {key} == held - {key} - {first};
      Reorder(multiset(Bodies(SpansIn(held[first]))), multiset(Bodies(SpansIn(held[key]))),
              HeldBodies(held - {first} - {key}));
    }
  }

  lemma Reorder(a: multiset<int>, b: multiset<int>, c: multiset<int>)
    ensures a + (b + c) == b + (a + c)
  {
  }

  // The bodies of a held trace that the next arrival overwrites.
  function OverwrittenBy(c: Cache, a: Arrival): seq<int> {
    var h := HalfOf(a.segment);
    if h.Io? && h.key !in c.routeUrls && h.key in c.ioTraces then Bodies(SpansIn(c.ioTraces[h.key])) else []
  }

  function Overwritten(run: seq<Arrival>): multiset<int> {
    if run == [] then multiset{}
    else Overwritten(run[..|run| - 1]) + multiset(OverwrittenBy(After(run[..|run| - 1]), run[|run| - 1]))
  }

  // Every segment is translated, and none is broken.
  ghost predicate Sound(run: seq<Arrival>) {
    forall i :: 0 <= i < |run| ==> Translated(run[i]) && !HalfAt(run, i).Broken?
  }

  // What is held are whole translations with at least one span, under keys with no waiting route.
  ghost predicate HoldsHalves(c: Cache) {
    && (forall k :: k in c.ioTraces ==> |c.ioTraces[k]| == 1 && c.ioTraces[k][0] != [])
    && (forall k :: k in c.ioTraces ==> k !in c.routeUrls)
  }

  lemma BodiesConcat(a: seq<OtSpan>, b: seq<OtSpan>)
    ensures Bodies(a + b) == Bodies(a) + Bodies(b)
  {
  }

  lemma RenamedBodies(spans: seq<OtSpan>, name: string)
    ensures Bodies(Renamed(spans, name)) == Bodies(spans)
  {
  }

  lemma SpansInSingle(spans: seq<OtSpan>)
    ensures SpansIn([spans]) == spans
  {
    SpansInOne([], spans);
    assert [] + [spans] == [spans];
  }

  lemma RenamingKeepsBodies(ptd: Scopes, name: string)
    requires |ptd| == 1
    ensures Bodies(SpansIn(RenamedFirst(ptd, name))) == Bodies(SpansIn(ptd))
  {
    var spans := ptd[0];
    assert ptd == [spans];
    assert RenamedFirst(ptd, name) == [Renamed(spans, name)];
    SpansInSingle(spans);
    SpansInSingle(Renamed(spans, name));
    RenamedBodies(spans, name);
  }

  lemma JoinKeepsHalves(c: Cache, a: Arrival)
    requires HoldsHalves(c) && Translated(a)
    ensures HoldsHalves(Join(c, a).0)
  {
    HalfNeedsSpans(a.segment);
  }

  lemma HalfNeedsSpans(segment: Segment)
    ensures HalfOf(segment).Io? || HalfOf(segment).Task? ==> segment.spans != []
  {
  }

  // One arrival: its spans and those held are given out, held, or overwritten.
  lemma JoinBalances(c: Cache, a: Arrival)
    requires HoldsHalves(c) && Translated(a) && !HalfOf(a.segment).Broken?
    ensures var (c', out) := Join(c, a);
            HeldBodies(c.ioTraces) + multiset(Bodies(SpansIn(a.ptd)))
            == multiset(Bodies(Given(out))) + HeldBodies(c'.ioTraces) + multiset(OverwrittenBy(c, a))
  {
    HalfNeedsSpans(a.segment);
    var own := multiset(Bodies(SpansIn(a.ptd)));
    match HalfOf(a.segment) {
      case Plain =>
      case Io(key) =>
        if key in c.routeUrls {
          RenamingKeepsBodies(a.ptd, c.routeUrls[key]);
        } else {
          HoldingBalances(c.ioTraces, key, a.ptd);
        }
      case Task(key, routeUrl) =>
        if key in c.ioTraces {
          ReleasingBalances(c.ioTraces, key, routeUrl, a.ptd);
        }
    }
  }

  lemma HoldingBalances(held: map<Key, Scopes>, key: Key, ptd: Scopes)
    ensures HeldBodies(held) + multiset(Bodies(SpansIn(ptd)))
         == HeldBodies(held[key := ptd]) + multiset(if key in held then Bodies(SpansIn(held[key])) else [])
  {
    HeldSplit(held[key := ptd], key);
    assert held[key := ptd] - {key} == held - {key};
    if key in held {
      HeldSplit(held, key);
    } else {
      assert held - {key} == held;
    }
  }

  lemma ReleasingBalances(held: map<Key, Scopes>, key: Key, routeUrl: string, ptd: Scopes)
    requires key in held && |held[key]| == 1
    ensures HeldBodies(held) + multiset(Bodies(SpansIn(ptd)))
         == multiset(Bodies(SpansIn(ptd + [Renamed(held[key][0], routeUrl)]))) + HeldBodies(held - {key})
  {
    var spans := held[key][0];
    HeldSplit(held, key);
    SpansInOne(ptd, Renamed(spans, routeUrl));
    BodiesConcat(SpansIn(ptd), Renamed(spans, routeUrl));
    RenamedBodies(spans, routeUrl);
    SpansInSingle(spans);
    assert held[key] == [spans];
  }

  lemma ReceivedLast(b: seq<Arrival>, a: Arrival)
    ensures Received(b + [a]) == Received(b) + multiset(Bodies(SpansIn(a.ptd)))
    ensures GivenBodies(b + [a]) == GivenBodies(b) + multiset(Bodies(Given(Join(After(b), a).1)))
    ensures Overwritten(b + [a]) == Overwritten(b) + multiset(OverwrittenBy(After(b), a))
    ensures After(b + [a]) == Join(After(b), a).0
  {
    assert (b + [a])[..|b|] == b;
  }

  ghost predicate Balanced(received: multiset<int>, given: multiset<int>, held: multiset<int>,
                           overwritten: multiset<int>) {
    received == given + held + overwritten
  }

  lemma BalanceGoesOn(received: multiset<int>, given: multiset<int>, held: multiset<int>, overwritten: multiset<int>,
                      own: multiset<int>, out: multiset<int>, held': multiset<int>, lost: multiset<int>)
    requires Balanced(received, given, held, overwritten) && held + own == out + held' + lost
    ensures Balanced(received + own, given + out, held', overwritten + lost)
  {
    assert received + own == given + (held + own) + overwritten;
  }

  lemma BalancedOneMore(b: seq<Arrival>, a: Arrival)
    requires HoldsHalves(After(b)) && Translated(a) && !HalfOf(a.segment).Broken?
    requires Balanced(Received(b), GivenBodies(b), HeldBodies(After(b).ioTraces), Overwritten(b))
    ensures HoldsHalves(After(b + [a]))
    ensures Balanced(Received(b + [a]), GivenBodies(b + [a]), HeldBodies(After(b + [a]).ioTraces), Overwritten(b + [a]))
  {
    var c := After(b);
    ReceivedLast(b, a);
    JoinKeepsHalves(c, a);
    JoinBalances(c, a);
    BalanceGoesOn(Received(b), GivenBodies(b), HeldBodies(c.ioTraces), Overwritten(b), multiset(Bodies(SpansIn(a.ptd))),
                  multiset(Bodies(Given(Join(c, a).1))), HeldBodies(Join(c, a).0.ioTraces),
                  multiset(OverwrittenBy(c, a)));
  }

  // Whatever keys a run uses, what came in has been given out, is held in the I/O map, or was
  // overwritten there by a later half with the same key.
  lemma {:induction false} SpansAreAccountedFor(run: seq<Arrival>)
    requires Sound(run)
    ensures HoldsHalves(After(run))
    ensures Balanced(Received(run), GivenBodies(run), HeldBodies(After(run).ioTraces), Overwritten(run))
  {
    if run != [] {
      var b, a := run[..|run| - 1], run[|run| - 1];
      assert b + [a] == run;
      SoundPrefix(b, a);
      SpansAreAccountedFor(b);
      BalancedOneMore(b, a);
    }
  }

  // No I/O half arrives while another one waits under its key.
  ghost predicate NeverOverwrites(run: seq<Arrival>) {
    forall i :: 0 <= i < |run| && HalfAt(run, i).Io? ==> HalfAt(run, i).key !in After(run[..i]).ioTraces
  }

  lemma OverwritesExactly(c: Cache, a: Arrival)
    requires HoldsHalves(c)
    ensures var h := HalfOf(a.segment); OverwrittenBy(c, a) == [] <==> !(h.Io? && h.key in c.ioTraces)
  {
    var h := HalfOf(a.segment);
    if h.Io? && h.key in c.ioTraces {
      assert c.ioTraces[h.key] == [c.ioTraces[h.key][0]];
      SpansInSingle(c.ioTraces[h.key][0]);
    }
  }

  lemma NeverOverwritesOneMore(b: seq<Arrival>, a: Arrival)
    ensures var h := HalfOf(a.segment);
            NeverOverwrites(b + [a]) <==> NeverOverwrites(b) && !(h.Io? && h.key in After(b).ioTraces)
  {
    var run := b + [a];
    assert run[..|b|] == b && run[|b|] == a;
    assert forall i :: 0 <= i < |b| ==> run[i] == b[i] && HalfAt(run, i) == HalfAt(b, i) && run[..i] == b[..i];
    assert HalfAt(run, |b|) == HalfOf(a.segment);
  }

  lemma NothingMore(a: multiset<int>, b: seq<int>)
    ensures a + multiset(b) == multiset{} <==> a == multiset{} && b == []
  {
    if b != [] {
      assert b[0] in multiset(b);
    }
  }

  lemma {:induction false} NothingOverwrittenExactly(run: seq<Arrival>)
    requires Sound(run)
    ensures NeverOverwrites(run) <==> Overwritten(run) == multiset{}
  {
    if run != [] {
      var b, a := run[..|run| - 1], run[|run| - 1];
      assert b + [a] == run;
      SoundPrefix(b, a);
      NothingOverwrittenExactly(b);
      SpansAreAccountedFor(b);
      OverwritesExactly(After(b), a);
      NeverOverwritesOneMore(b, a);
      ReceivedLast(b, a);
      NothingMore(Overwritten(b), OverwrittenBy(After(b), a));
    }
  }

  lemma SoundPrefix(b: seq<Arrival>, a: Arrival)
    requires Sound(b + [a])
    ensures Sound(b) && Translated(a) && !HalfOf(a.segment).Broken?
  {
    var run := b + [a];
    assert forall i :: 0 <= i < |b| ==> run[i] == b[i] && HalfAt(run, i) == HalfAt(b, i);
    assert run[|b|] == a && HalfAt(run, |b|) == HalfOf(a.segment);
  }

  // The spans received are those given out and those held, if and only if no I/O half arrives while
  // another one waits under its key.
  lemma ConservedExactly(run: seq<Arrival>)
    requires Sound(run)
    ensures Received(run) == GivenBodies(run) + HeldBodies(After(run).ioTraces) <==> NeverOverwrites(run)
  {
    SpansAreAccountedFor(run);
    NothingOverwrittenExactly(run);
    Unbalanced(Received(run), GivenBodies(run) + HeldBodies(After(run).ioTraces), Overwritten(run));
  }

  lemma Unbalanced(received: multiset<int>, kept: multiset<int>, lost: multiset<int>)
    requires received == kept + lost
    ensures received == kept <==> lost == multiset{}
  {
  }

  // In a run with distinct keys no half is overwritten.
  lemma DistinctKeysConserve(run: seq<Arrival>)
    requires DistinctKeys(run)
    ensures Sound(run) && NeverOverwrites(run)
  {
    forall i | 0 <= i < |run| && HalfAt(run, i).Io? ensures HalfAt(run, i).key !in After(run[..i]).ioTraces {
      DistinctPrefix(run, i);
      DistinctPrefix(run, i + 1);
      WaitingIsHeld(run[..i]);
      FreshSide(run[..i + 1]);
      assert run[..i + 1][..i] == run[..i] && run[..i + 1][i] == run[i];
    }
  }
}
