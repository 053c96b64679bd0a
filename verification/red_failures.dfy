// Where pruning the external histograms by the DB cache goes wrong: exactly for external values whose key
// some DB span of the same node can have.
module RedFailures {
  import opened DimensionCaching
  import opened DimensionKeys
  import opened MetricFamilies
  import opened RedMetrics
  import opened ServedKeys

  ghost predicate AllServed(node: Node, updates: seq<Update>) {
    forall u :: u in updates ==> Served(node, u.fields)
  }

  ghost predicate AllServedCalls(node: Node, updates: seq<Update>) {
    forall u :: u in updates ==> ServedCall(node, u.fields)
  }

  // Every span came with values that the connector of this node builds.
  ghost predicate ServedBy(node: Node, c: Connector) {
    && AllServed(node, c.server.received) && AllServedCalls(node, c.db.received)
    && AllServedCalls(node, c.external.received) && AllServedCalls(node, c.mq.received)
  }

  // All four caches have the one size of the configuration.
  ghost predicate RunFrom(b: seq<Connector>, size: nat, node: Node) {
    && Run(b) && ServedBy(node, Last(b))
    && b[0].server.family.dims.size == b[0].db.family.dims.size == size
    && b[0].external.family.dims.size == b[0].mq.family.dims.size == size
  }

  // External spans are NUL-free or carry one of some other lists of values.
  ghost predicate OnlyDirty(updates: seq<Update>, dirty: iset<seq<string>>) {
    forall u :: u in updates ==> NulFree(u.fields) || u.fields in dirty
  }

  ghost predicate NeverFails(size: nat, node: Node, dirty: iset<seq<string>>) {
    forall b, v, missing, c' ::
      RunFrom(b, size, node) && OnlyDirty(Last(b).external.received, dirty) ==> !BuildFails(Last(b), v, missing, c')
  }

  ghost predicate NeverSurvives(size: nat, node: Node, dirty: iset<seq<string>>) {
    forall b, v, c' ::
      RunFrom(b, size, node) && OnlyDirty(Last(b).external.received, dirty) && Build(Last(b), v, c') ==>
        c'.external.family.hists == map[]
  }

  // No list of values among them has the key of a DB list of the node.
  ghost predicate NoneClashes(node: Node, dirty: iset<seq<string>>) {
    forall e :: e in dirty && |e| == 10 && ServedCall(node, e) ==> !Clashes(node, e)
  }

  // Without clashes the external keys of a run are apart from its DB keys.
  lemma NoClashIsApart(b: seq<Connector>, size: nat, node: Node, dirty: iset<seq<string>>)
    requires RunFrom(b, size, node) && OnlyDirty(Last(b).external.received, dirty) && NoneClashes(node, dirty)
    ensures Apart(Last(b))
  {
    var c := Last(b);
    ReachableInv(b);
    forall u, w | u in c.external.received && w in c.db.received ensures KeyOf(u) != KeyOf(w) {
      assert |u.fields| == 10 && |w.fields| == 11;
      assert ServedCall(node, u.fields) && ServedCall(node, w.fields);
      if NulFree(u.fields) {
        CleanNeverClashes(node, u.fields);
      }
    }
  }

  // ---------------------------------------------------------------- other external spans

  function Letters(n: nat): string {
    if n == 0 then "" else Letters(n - 1) + ['a']
  }

  lemma {:induction false} LettersAre(n: nat)
    ensures |Letters(n)| == n && NUL !in Letters(n)
  {
    if n > 0 {
      LettersAre(n - 1);
    }
  }

  // A call with a name of its own.
  function Filler(node: Node, i: nat): (fields: seq<string>)
    ensures |fields| == 10
  {
    ["svc", if node.matching then "/url" else "", node.name, node.ip, Decimal(1), "", Letters(i), "", "", "false"]
  }

  function FillerUpdate(node: Node, i: nat): Update {
    Update(Filler(node, i), 1.0)
  }

  lemma FillerIsServed(node: Node, i: nat)
    requires node.Valid()
    ensures ServedCall(node, Filler(node, i)) && NulFree(Filler(node, i))
  {
    var f := Filler(node, i);
    LettersAre(i);
    DecimalHasNoNul(1);
    assert IsPid(f[4]);
    FlagHasNoNul(f[9]);
    assert NUL !in f[0] && NUL !in f[1] && NUL !in f[5] && NUL !in f[7] && NUL !in f[8];
  }

  lemma FillerIsClean(node: Node, i: nat)
    requires node.Valid()
    ensures |Parts(KeyOf(FillerUpdate(node, i)).text)| == 10
  {
    FillerIsServed(node, i);
    KeyParts(Filler(node, i));
  }

  lemma FillersDiffer(node: Node, i: nat, j: nat)
    requires node.Valid() && i != j
    ensures KeyOf(FillerUpdate(node, i)) != KeyOf(FillerUpdate(node, j))
  {
    FillerIsServed(node, i);
    FillerIsServed(node, j);
    PartsOfJoined(Filler(node, i));
    PartsOfJoined(Filler(node, j));
    LettersAre(i);
    LettersAre(j);
    assert Filler(node, i)[6] != Filler(node, j)[6];
  }

  // ---------------------------------------------------------------- the failing run

  // The DB family knows the key; the external family has it and the keys of the first n fillers.
  ghost predicate Prepared(c: Connector, size: nat, node: Node, e: seq<string>, key: MetricKey, n: nat) {
    && c.server.family.hists == map[] && c.mq.family.hists == map[]
    && (forall k :: k in c.db.family.hists <==> k == key)
    && (forall k :: k in c.external.family.hists <==> k == key || IsFiller(node, k, n))
    && KeysHeld(c.external.family) && c.external.family.dims.size == size
    && OnlyDirty(c.external.received, iset{e})
  }

  ghost predicate IsFiller(node: Node, k: MetricKey, n: nat) {
    exists i: nat :: i < n && k == KeyOf(FillerUpdate(node, i))
  }

  lemma Extend(b: seq<Connector>, size: nat, node: Node, c': Connector)
    requires RunFrom(b, size, node) && Next(Last(b), c') && ServedBy(node, c')
    ensures RunFrom(b + [c'], size, node)
  {
    var r := b + [c'];
    forall i | 0 <= i < |r| - 1 ensures Next(r[i], r[i + 1]) {
      if i < |b| - 1 {
        assert r[i] == b[i] && r[i + 1] == b[i + 1];
      }
    }
  }

  lemma ServedToo(node: Node, updates: seq<Update>, u: Update)
    requires AllServedCalls(node, updates) && ServedCall(node, u.fields)
    ensures AllServedCalls(node, updates + [u])
  {
  }

  lemma ExternalSpan(b: seq<Connector>, size: nat, node: Node, u: Update) returns (b': seq<Connector>)
    requires RunFrom(b, size, node) && |u.fields| == 10 && ServedCall(node, u.fields)
    ensures RunFrom(b', size, node)
    ensures Last(b') == Last(b).(external := Last(b').external)
    ensures Valid(Last(b).external.family.dims) && Last(b').external == AfterSpan(EXTERNAL_NAMES, Last(b).external, u)
    ensures KeysHeld(Last(b).external.family) ==> KeysHeld(Last(b').external.family)
  {
    var c := Last(b);
    ReachableInv(b);
    var c' := c.(external := AfterSpan(EXTERNAL_NAMES, c.external, u));
    assert Aggregate(c, u, c');
    AggregateKeepsInv(EXTERNAL_NAMES, c.external, u, c'.external);
    ServedToo(node, c.external.received, u);
    assert SpanNext(c, c');
    Extend(b, size, node, c');
    b' := b + [c'];
  }

  function Empty(size: nat): System {
    System(Family(DimensionCaching.State(size, [], map[], map[]), map[]), [], map[], [])
  }

  // A DB span first.
  lemma DbKnowsTheKey(size: nat, node: Node, d: seq<string>) returns (b: seq<Connector>)
    requires 0 < size && |d| == 11 && ServedCall(node, d)
    ensures RunFrom(b, size, node)
    ensures Last(b).server == Empty(size) && Last(b).external == Empty(size) && Last(b).mq == Empty(size)
    ensures forall k :: k in Last(b).db.family.hists <==> k == MetricKey(Joined(d))
  {
    var c0 := Connector(Empty(size), Empty(size), Empty(size), Empty(size));
    var u := Update(d, 1.0);
    var c1 := c0.(db := AfterSpan(DB_NAMES, c0.db, u));
    assert Aggregate(c0, u, c1);
    assert SpanNext(c0, c1);
    Extend([c0], size, node, c1);
    b := [c0] + [c1];
  }

  // Then an external span under the same key.
  lemma BothKnowTheKey(size: nat, node: Node, e: seq<string>) returns (b: seq<Connector>, key: MetricKey)
    requires 0 < size && |e| == 10 && ServedCall(node, e) && Clashes(node, e)
    ensures RunFrom(b, size, node) && key == MetricKey(Joined(e)) && |Parts(key.text)| >= 11
    ensures Prepared(Last(b), size, node, e, key, 0)
  {
    var d :| |d| == 11 && ServedCall(node, d) && Joined(d) == Joined(e);
    key := MetricKey(Joined(e));
    KeyParts(d);
    var first := DbKnowsTheKey(size, node, d);
    EmptyIsFine(size);
    b := ExternalSpan(first, size, node, Update(e, 1.0));
    FirstExternal(size, Update(e, 1.0));
  }

  lemma EmptyIsFine(size: nat)
    requires 0 < size
    ensures Valid(Empty(size).family.dims) && KeysHeld(Empty(size).family)
  {
  }

  lemma FirstExternal(size: nat, u: Update)
    requires |u.fields| == 10 && Valid(Empty(size).family.dims)
    ensures var s := AfterSpan(EXTERNAL_NAMES, Empty(size), u);
            s.received == [u] && s.family.dims.size == size && forall k :: k in s.family.hists <==> k == KeyOf(u)
  {
  }

  lemma OneMoreFiller(node: Node, k: MetricKey, n: nat)
    ensures IsFiller(node, k, n + 1) <==> IsFiller(node, k, n) || k == KeyOf(FillerUpdate(node, n))
  {
  }

  lemma OnlyDirtyGrows(updates: seq<Update>, u: Update, dirty: iset<seq<string>>)
    requires OnlyDirty(updates, dirty) && NulFree(u.fields)
    ensures OnlyDirty(updates + [u], dirty)
  {
  }

  lemma FillOne(b: seq<Connector>, size: nat, node: Node, e: seq<string>, key: MetricKey,
                n: nat) returns (b': seq<Connector>)
    requires node.Valid() && RunFrom(b, size, node) && Prepared(Last(b), size, node, e, key, n)
    ensures RunFrom(b', size, node) && Prepared(Last(b'), size, node, e, key, n + 1)
  {
    var u := FillerUpdate(node, n);
    FillerIsServed(node, n);
    b' := ExternalSpan(b, size, node, u);
    OnlyDirtyGrows(Last(b).external.received, u, iset{e});
    forall k ensures k in Last(b').external.family.hists <==> k == key || IsFiller(node, k, n + 1) {
      OneMoreFiller(node, k, n);
    }
  }

  lemma {:induction false} Fill(b: seq<Connector>, size: nat, node: Node, e: seq<string>, key: MetricKey, n: nat)
    returns (b': seq<Connector>)
    requires node.Valid() && RunFrom(b, size, node) && Prepared(Last(b), size, node, e, key, 0)
    ensures RunFrom(b', size, node) && Prepared(Last(b'), size, node, e, key, n)
  {
    if n == 0 {
      b' := b;
    } else {
      b' := Fill(b, size, node, e, key, n - 1);
      b' := FillOne(b', size, node, e, key, n - 1);
    }
  }

  // The key is collected first, the fillers after it.
  function VisitOf(node: Node, key: MetricKey, n: nat): seq<MetricKey> {
    [key] + seq(n, i requires 0 <= i < n => KeyOf(FillerUpdate(node, i)))
  }

  lemma VisitIsDistinct(node: Node, key: MetricKey, n: nat)
    requires node.Valid() && |Parts(key.text)| >= 11
    ensures Distinct(VisitOf(node, key, n))
  {
    var visit := VisitOf(node, key, n);
    forall i, j | 0 <= i < j < |visit| ensures visit[i] != visit[j] {
      FillerIsClean(node, j - 1);
      if i > 0 {
        FillersDiffer(node, i - 1, j - 1);
      }
    }
  }

  lemma VisitMembers(node: Node, key: MetricKey, n: nat, k: MetricKey)
    ensures k in VisitOf(node, key, n) <==> k == key || IsFiller(node, k, n)
  {
    var visit := VisitOf(node, key, n);
    assert visit[0] == key;
    if i: nat :| i < n && k == KeyOf(FillerUpdate(node, i)) {
      assert visit[i + 1] == k;
    }
  }

  lemma VisitRanges(c: Connector, size: nat, node: Node, e: seq<string>, key: MetricKey, n: nat)
    requires node.Valid() && Prepared(c, size, node, e, key, n) && |Parts(key.text)| >= 11
    ensures Ranges(VisitOf(node, key, n), c.external.family.hists)
            && AllHeld(c.external.family.dims, VisitOf(node, key, n))
  {
    VisitIsDistinct(node, key, n);
    forall k ensures k in VisitOf(node, key, n) <==> k in c.external.family.hists {
      VisitMembers(node, key, n, k);
    }
    CollectNeverFails(c.external.family, VisitOf(node, key, n));
  }

  // Collecting one key more than the cache holds pushes the first one out of the LRU list.
  lemma FirstIsPushedOut(dims: State, visit: seq<MetricKey>)
    requires Valid(dims) && |visit| == dims.size + 1 && Distinct(visit) && AllHeld(dims, visit)
    ensures visit[0] !in Visited(dims, visit).items
  {
    var after := Visited(dims, visit);
    LastVisitedFirst(dims, visit);
    forall j | 0 <= j < |after.order| ensures after.order[j] != visit[0] {
      assert after.order[j] == visit[|visit| - 1 - j];
    }
    assert visit[0] !in after.order;
  }

  lemma DbListsTheKey(c: Connector, key: MetricKey)
    requires KeysHeld(c.db.family) && forall k :: k in c.db.family.hists <==> k == key
    ensures AllHeld(c.db.family.dims, [key]) && Ranges([key], c.db.family.hists)
    ensures key in ListKeys(c.db, [key])
  {
    FetchKeepsHeld(c.db.family.dims, key);
    assert [key][..0] == [];
  }

  // A histogram that is kept although its key is not in the family's own list.
  lemma LosesDimensions(s: System, visit: seq<MetricKey>, keep: set<MetricKey>, key: MetricKey)
    requires Valid(s.family.dims) && AllHeld(s.family.dims, visit)
    requires key in s.family.hists && key in keep && key !in Visited(s.family.dims, visit).items
    ensures key in AfterExport(s, visit, keep).family.hists && key !in Held(AfterExport(s, visit, keep).family.dims)
  {
    EvictedRemoved(Visited(s.family.dims, visit));
  }

  lemma NothingToExport(s: System, keep: set<MetricKey>)
    requires Valid(s.family.dims) && s.family.hists == map[]
    ensures Ranges([], s.family.hists) && AllHeld(s.family.dims, [])
    ensures AfterExport(s, [], keep).family.hists == map[]
  {
  }

  // The state after an export that lost the key's dimensions.
  ghost predicate Lost(c: Connector, key: MetricKey) {
    && key in c.external.family.hists && key !in Held(c.external.family.dims)
    && c.server.family.hists == map[]
    && KeysHeld(c.db.family) && forall k :: k in c.db.family.hists <==> k == key
  }

  lemma DbKeepsTheKey(c: Connector, key: MetricKey)
    requires KeysHeld(c.db.family) && forall k :: k in c.db.family.hists <==> k == key
    ensures AllHeld(c.db.family.dims, [key])
    ensures var s := AfterExport(c.db, [key], ListKeys(c.db, [key]));
            KeysHeld(s.family) && forall k :: k in s.family.hists <==> k == key
  {
    DbListsTheKey(c, key);
    ExportKeepsKeysExactly(c.db.family, [key], ListKeys(c.db, [key]));
  }

  function BuildOf(c: Connector, v: Visits): Connector
    requires Valid(c.server.family.dims) && Valid(c.db.family.dims) && Valid(c.external.family.dims)
            && Valid(c.mq.family.dims)
    requires AllHeld(c.server.family.dims, v.server) && AllHeld(c.db.family.dims, v.db)
    requires AllHeld(c.external.family.dims, v.external) && AllHeld(c.mq.family.dims, v.mq)
  {
    Connector(AfterExport(c.server, v.server, ListKeys(c.server, v.server)),
              AfterExport(c.db, v.db, ListKeys(c.db, v.db)),
              AfterExport(c.external, v.external, ListKeys(c.db, v.db)),
              AfterExport(c.mq, v.mq, ListKeys(c.mq, v.mq)))
  }

  lemma LosesKey(c: Connector, size: nat, node: Node, e: seq<string>, key: MetricKey) returns (v: Visits, c': Connector)
    requires node.Valid() && RedMetrics.Inv(c) && Prepared(c, size, node, e, key, size) && |Parts(key.text)| >= 11
    ensures Build(c, v, c') && Lost(c', key)
  {
    v := Visits([], [key], VisitOf(node, key, size), []);
    VisitRanges(c, size, node, e, key, size);
    FirstIsPushedOut(c.external.family.dims, v.external);
    DbListsTheKey(c, key);
    DbKeepsTheKey(c, key);
    NothingToExport(c.server, ListKeys(c.server, []));
    NothingToExport(c.mq, ListKeys(c.mq, []));
    c' := BuildOf(c, v);
    LosesDimensions(c.external, v.external, ListKeys(c.db, [key]), key);
  }

  // An export that keeps the histogram of the key and loses its dimensions.
  lemma LosingExport(size: nat, node: Node, e: seq<string>)
    returns (b: seq<Connector>, key: MetricKey, v: Visits, c': Connector)
    requires 0 < size && node.Valid() && |e| == 10 && ServedCall(node, e) && Clashes(node, e)
    ensures RunFrom(b, size, node) && OnlyDirty(Last(b).external.received, iset{e})
    ensures Build(Last(b), v, c') && Lost(c', key)
  {
    b, key := BothKnowTheKey(size, node, e);
    b := Fill(b, size, node, e, key, size);
    ReachableInv(b);
    v, c' := LosesKey(Last(b), size, node, e, key);
  }

  lemma NothingToLookUp(s: System)
    requires Valid(s.family.dims)
    ensures LookStep(s, [], s)
  {
    assert s.family == Family(Visited(s.family.dims, []), s.family.hists);
  }

  lemma LostFails(c: Connector, key: MetricKey) returns (v: Visits, c': Connector)
    requires RedMetrics.Inv(c) && Lost(c, key)
    ensures BuildFails(c, v, key, c')
  {
    DbListsTheKey(c, key);
    NothingToLookUp(c.server);
    NothingToLookUp(c.external);
    v := Visits([], [key], [], []);
    var db := c.db.(family := Family(Visited(c.db.family.dims, [key]), c.db.family.hists));
    c' := c.(db := db);
    assert Looked(c.server, v.server, c'.server) && Looked(c.db, v.db, c'.db);
    assert FailStep(c.external, v.external, key, c'.external);
  }

  // The export after that one fails.
  lemma FailingRun(size: nat, node: Node, e: seq<string>)
    returns (b: seq<Connector>, v: Visits, missing: MetricKey, c': Connector)
    requires 0 < size && node.Valid() && |e| == 10 && ServedCall(node, e) && Clashes(node, e)
    ensures RunFrom(b, size, node) && OnlyDirty(Last(b).external.received, iset{e})
    ensures BuildFails(Last(b), v, missing, c')
  {
    var before, key, v0, c := LosingExport(size, node, e);
    BuildExtends(before, size, node, v0, c);
    b, missing := before + [c], key;
    ReachableInv(b);
    v, c' := LostFails(c, key);
  }

  lemma BuildExtends(b: seq<Connector>, size: nat, node: Node, v: Visits, c': Connector)
    requires RunFrom(b, size, node) && Build(Last(b), v, c')
    ensures RunFrom(b + [c'], size, node) && c'.external.received == Last(b).external.received
  {
    assert BuildNext(Last(b), c');
    Extend(b, size, node, c');
  }

  // With external values that are NUL-free or among some others, no export fails and no external series
  // survives one, over every run of the node, if and only if none of the others has the key of a DB list.
  lemma ExternalSoundExactly(size: nat, node: Node, dirty: iset<seq<string>>)
    requires 0 < size && node.Valid()
    ensures NoneClashes(node, dirty) <==> NeverFails(size, node, dirty)
    ensures NoneClashes(node, dirty) <==> NeverSurvives(size, node, dirty)
  {
    if NoneClashes(node, dirty) {
      NoClashIsSound(size, node, dirty);
    } else {
      var e :| e in dirty && |e| == 10 && ServedCall(node, e) && Clashes(node, e);
      var b, v, missing, c' := FailingRun(size, node, e);
      DirtyToo(Last(b).external.received, e, dirty);
      var b1, key, v1, c1 := LosingExport(size, node, e);
      DirtyToo(Last(b1).external.received, e, dirty);
    }
  }

  lemma NoClashIsSound(size: nat, node: Node, dirty: iset<seq<string>>)
    requires NoneClashes(node, dirty)
    ensures NeverFails(size, node, dirty) && NeverSurvives(size, node, dirty)
  {
    forall b, v, missing, c' | RunFrom(b, size, node) && OnlyDirty(Last(b).external.received, dirty)
      ensures !BuildFails(Last(b), v, missing, c')
    {
      NoClashIsApart(b, size, node, dirty);
      ApartExportsNeverFail(b, v, missing, c');
    }
    forall b, v, c' | RunFrom(b, size, node) && OnlyDirty(Last(b).external.received, dirty) && Build(Last(b), v, c')
      ensures c'.external.family.hists == map[]
    {
      NoClashIsApart(b, size, node, dirty);
      ApartSeriesNeverSurvive(b, v, c');
    }
  }

  lemma DirtyToo(updates: seq<Update>, e: seq<string>, dirty: iset<seq<string>>)
    requires OnlyDirty(updates, iset{e}) && e in dirty
    ensures OnlyDirty(updates, dirty)
  {
  }

  // ---------------------------------------------------------------- how long it fails

  // An external histogram without dimensions.
  ghost predicate Missing(c: Connector, key: MetricKey) {
    key in c.external.family.hists && key !in Held(c.external.family.dims)
  }

  // Steps from any state on.
  ghost predicate Path(b: seq<Connector>) {
    b != [] && forall i :: 0 <= i < |b| - 1 ==> Next(b[i], b[i + 1])
  }

  lemma StepKeepsMissing(c: Connector, c': Connector, key: MetricKey)
    requires RedMetrics.Inv(c) && Missing(c, key) && Next(c, c')
    ensures Missing(c', key) || exists u :: c'.external.received == c.external.received + [u] && KeyOf(u) == key
  {
    if SpanNext(c, c') {
      var u :| Aggregate(c, u, c');
      SpanKeepsMissing(c, u, c', key);
    } else if FailNext(c, c') {
      var v, missing :| BuildFails(c, v, missing, c');
      FailureIsExternal(c, v, missing, c');
    } else {
      NothingBuilds(c, key);
    }
  }

  lemma SpanKeepsMissing(c: Connector, u: Update, c': Connector, key: MetricKey)
    requires Missing(c, key) && Aggregate(c, u, c')
    ensures Missing(c', key) || (c'.external.received == c.external.received + [u] && KeyOf(u) == key)
  {
  }

  lemma ReceivedGrows(c: Connector, c': Connector)
    requires RedMetrics.Inv(c) && Next(c, c')
    ensures c.external.received <= c'.external.received
  {
    if FailNext(c, c') {
      var v, missing :| BuildFails(c, v, missing, c');
      FailureIsExternal(c, v, missing, c');
    }
  }

  lemma NothingBuilds(c: Connector, key: MetricKey)
    requires Missing(c, key)
    ensures forall v, c' :: !Build(c, v, c')
  {
  }

  // The key is missing in c unless a span with it came since c0.
  ghost predicate MissingSince(c0: Connector, c: Connector, key: MetricKey) {
    && c0.external.received <= c.external.received
    && (Missing(c, key) || exists u :: u in c.external.received[|c0.external.received|..] && KeyOf(u) == key)
  }

  lemma StepKeepsMissingSince(c0: Connector, c: Connector, c': Connector, key: MetricKey)
    requires RedMetrics.Inv(c) && MissingSince(c0, c, key) && Next(c, c')
    ensures MissingSince(c0, c', key)
  {
    ReceivedGrows(c, c');
    var n := |c0.external.received|;
    assert c.external.received[n..] <= c'.external.received[n..];
    if Missing(c, key) {
      StepKeepsMissing(c, c', key);
      if !Missing(c', key) {
        var u :| c'.external.received == c.external.received + [u] && KeyOf(u) == key;
        assert c'.external.received[n..] == c.external.received[n..] + [u];
      }
    } else {
      var u :| u in c.external.received[n..] && KeyOf(u) == key;
      assert u in c'.external.received[n..];
    }
  }

  // A failed export is followed by failed ones: from a state where a key is missing on, whatever happens,
  // the key stays missing and no export succeeds before an external span comes with that key.
  lemma {:induction false} FailureLasts(b: seq<Connector>, key: MetricKey, n: nat)
    requires Path(b) && RedMetrics.Inv(b[0]) && Missing(b[0], key) && n < |b|
    ensures RedMetrics.Inv(b[n]) && MissingSince(b[0], b[n], key)
    ensures Missing(b[n], key) ==> forall v, c' :: !Build(b[n], v, c')
  {
    if n > 0 {
      FailureLasts(b, key, n - 1);
      assert Next(b[n - 1], b[n]);
      NextKeeps(b[n - 1], b[n]);
      StepKeepsMissingSince(b[0], b[n - 1], b[n], key);
    }
    if Missing(b[n], key) {
      NothingBuilds(b[n], key);
    }
  }

  // Such a span ends it for this key.
  lemma SpanEndsFailure(c: Connector, u: Update, c': Connector)
    requires RedMetrics.Inv(c) && AggregateStep(EXTERNAL_NAMES, c.external, u, c'.external)
    ensures !Missing(c', KeyOf(u))
  {
  }

  // An export that fails leaves the key it came to missing.
  lemma FailureIsMissing(c: Connector, v: Visits, missing: MetricKey, c': Connector)
    requires RedMetrics.Inv(c) && BuildFails(c, v, missing, c')
    ensures Missing(c', missing)
  {
    FailureIsExternal(c, v, missing, c');
  }
}
