// The connector with its four families: span updates, exports and failed exports, in any order.
module RedMetrics {
  import opened DimensionCaching
  import opened DimensionKeys
  import opened MetricFamilies

  datatype Connector = Connector(server: System, db: System, external: System, mq: System)

  ghost predicate Start(c: Connector) {
    Init(c.server) && Init(c.db) && Init(c.external) && Init(c.mq)
  }

  // One span reaches a family; a span that counts in several takes several of these steps.
  ghost predicate Aggregate(c: Connector, u: Update, c': Connector) {
    || (AggregateStep(SERVER_NAMES, c.server, u, c'.server) && c' == c.(server := c'.server))
    || (AggregateStep(DB_NAMES, c.db, u, c'.db) && c' == c.(db := c'.db))
    || (AggregateStep(EXTERNAL_NAMES, c.external, u, c'.external) && c' == c.(external := c'.external))
    || (AggregateStep(MQ_NAMES, c.mq, u, c'.mq) && c' == c.(mq := c'.mq))
  }

  datatype Visits = Visits(server: seq<MetricKey>, db: seq<MetricKey>, external: seq<MetricKey>, mq: seq<MetricKey>)

  function ListKeys(s: System, visit: seq<MetricKey>): set<MetricKey>
    requires Valid(s.family.dims)
  {
    Visited(s.family.dims, visit).items.Keys
  }

  // buildMetrics. The external histograms are kept by the keys of the DB cache.
  ghost predicate Build(c: Connector, v: Visits, c': Connector) {
    && Valid(c.server.family.dims) && Valid(c.db.family.dims) && Valid(c.mq.family.dims)
    && ExportStep(c.server, v.server, ListKeys(c.server, v.server), c'.server)
    && ExportStep(c.db, v.db, ListKeys(c.db, v.db), c'.db)
    && ExportStep(c.external, v.external, ListKeys(c.db, v.db), c'.external)
    && ExportStep(c.mq, v.mq, ListKeys(c.mq, v.mq), c'.mq)
  }

  // A family that was collected before another one failed.
  ghost predicate Looked(s: System, visit: seq<MetricKey>, s': System) {
    Ranges(visit, s.family.hists) && LookStep(s, visit, s')
  }

  // The error return of buildMetrics: the first family with a key without dimensions ends it, before
  // any evicted dimensions are removed and any histogram is deleted.
  ghost predicate BuildFails(c: Connector, v: Visits, missing: MetricKey, c': Connector) {
    || (FailStep(c.server, v.server, missing, c'.server) && c' == c.(server := c'.server))
    || (&& Looked(c.server, v.server, c'.server) && FailStep(c.db, v.db, missing, c'.db)
        && c' == c.(server := c'.server, db := c'.db))
    || (&& Looked(c.server, v.server, c'.server) && Looked(c.db, v.db, c'.db)
        && FailStep(c.external, v.external, missing, c'.external)
        && c' == c.(server := c'.server, db := c'.db, external := c'.external))
    || (&& Looked(c.server, v.server, c'.server) && Looked(c.db, v.db, c'.db)
        && Looked(c.external, v.external, c'.external)
        && FailStep(c.mq, v.mq, missing, c'.mq))
  }

  ghost predicate SpanNext(c: Connector, c': Connector) {
    exists u :: Aggregate(c, u, c')
  }

  ghost predicate BuildNext(c: Connector, c': Connector) {
    exists v :: Build(c, v, c')
  }

  ghost predicate FailNext(c: Connector, c': Connector) {
    exists v, missing :: BuildFails(c, v, missing, c')
  }

  ghost predicate Next(c: Connector, c': Connector) {
    SpanNext(c, c') || BuildNext(c, c') || FailNext(c, c')
  }

  ghost predicate AllClean(updates: seq<Update>) {
    forall i :: 0 <= i < |updates| ==> NulFree(updates[i].fields)
  }

  // No external span came with the key of a DB span.
  ghost predicate Apart(c: Connector) {
    forall u, w :: u in c.external.received && w in c.db.received ==> KeyOf(u) != KeyOf(w)
  }

  // Server, DB and MQ keys always have their dimensions, external keys have them as long as they are
  // apart from the DB keys.
  ghost predicate Inv(c: Connector) {
    && MetricFamilies.Inv(SERVER_NAMES, c.server) && KeysHeld(c.server.family)
    && MetricFamilies.Inv(DB_NAMES, c.db) && KeysHeld(c.db.family)
    && MetricFamilies.Inv(EXTERNAL_NAMES, c.external)
    && (Apart(c) ==> KeysHeld(c.external.family))
    && MetricFamilies.Inv(MQ_NAMES, c.mq) && KeysHeld(c.mq.family)
  }

  // ---------------------------------------------------------------- one step

  // A key that is held is the key of a span that came.
  lemma HeldKeyCame(names: seq<string>, s: System, k: MetricKey) returns (u: Update)
    requires MetricFamilies.Inv(names, s) && k in Held(s.family.dims)
    ensures u in s.received && KeyOf(u) == k
  {
    assert Describes(names, s.received, k, Held(s.family.dims)[k]);
    var i :| 0 <= i < |s.received| && KeyOf(s.received[i]) == k && |s.received[i].fields| == |names|
             && Held(s.family.dims)[k] == DimensionsOf(names, s.received[i]);
    u := s.received[i];
  }

  // The DB cache then never knows an external key.
  lemma ApartFromTheDbCache(c: Connector, v: Visits, k: MetricKey)
    requires Inv(c) && Apart(c) && k in c.external.family.hists
    ensures k !in ListKeys(c.db, v.db)
  {
    var u := HeldKeyCame(EXTERNAL_NAMES, c.external, k);
    if k in ListKeys(c.db, v.db) {
      assert Held(Visited(c.db.family.dims, v.db)) == Held(c.db.family.dims);
      var w := HeldKeyCame(DB_NAMES, c.db, k);
      assert false;
    }
  }

  // A key of NUL-free external values has ten parts and a DB key at least eleven.
  lemma CleanIsApart(c: Connector)
    requires Inv(c) && AllClean(c.external.received)
    ensures Apart(c)
  {
    forall u, w | u in c.external.received && w in c.db.received ensures KeyOf(u) != KeyOf(w) {
      KeyParts(u.fields);
      KeyParts(w.fields);
    }
  }

  // So whatever the DB values are, the DB cache never knows a key of NUL-free external values.
  lemma ExternalKeysAreNotDbKeys(c: Connector, v: Visits, k: MetricKey)
    requires Inv(c) && AllClean(c.external.received) && k in c.external.family.hists
    ensures k !in ListKeys(c.db, v.db)
  {
    CleanIsApart(c);
    ApartFromTheDbCache(c, v, k);
  }

  lemma ApartBefore(c: Connector, c': Connector)
    requires forall u :: u in c.external.received ==> u in c'.external.received
    requires forall u :: u in c.db.received ==> u in c'.db.received
    ensures Apart(c') ==> Apart(c)
  {
  }

  lemma AggregateKeeps(c: Connector, u: Update, c': Connector)
    requires Inv(c) && Aggregate(c, u, c')
    ensures Inv(c')
  {
    ApartBefore(c, c');
    if AggregateStep(SERVER_NAMES, c.server, u, c'.server) && c' == c.(server := c'.server) {
      AggregateKeepsInv(SERVER_NAMES, c.server, u, c'.server);
    } else if AggregateStep(DB_NAMES, c.db, u, c'.db) && c' == c.(db := c'.db) {
      AggregateKeepsInv(DB_NAMES, c.db, u, c'.db);
    } else if AggregateStep(EXTERNAL_NAMES, c.external, u, c'.external) && c' == c.(external := c'.external) {
      AggregateKeepsInv(EXTERNAL_NAMES, c.external, u, c'.external);
    } else {
      AggregateKeepsInv(MQ_NAMES, c.mq, u, c'.mq);
    }
  }

  lemma PrunedByItsOwnCache(names: seq<string>, s: System, visit: seq<MetricKey>, s': System)
    requires MetricFamilies.Inv(names, s) && KeysHeld(s.family) && ExportStep(s, visit, ListKeys(s, visit), s')
    ensures MetricFamilies.Inv(names, s') && KeysHeld(s'.family)
  {
    ExportKeepsInv(names, s, visit, ListKeys(s, visit), s');
    ExportKeepsKeysExactly(s.family, visit, ListKeys(s, visit));
  }

  lemma PrunedByTheDbCache(c: Connector, v: Visits, c': Connector)
    requires Inv(c) && Build(c, v, c')
    ensures MetricFamilies.Inv(EXTERNAL_NAMES, c'.external)
    ensures Apart(c) ==> KeysHeld(c'.external.family) && c'.external.family.hists == map[]
  {
    ExportKeepsInv(EXTERNAL_NAMES, c.external, v.external, ListKeys(c.db, v.db), c'.external);
    if Apart(c) {
      forall k | k in c.external.family.hists ensures k !in ListKeys(c.db, v.db) {
        ApartFromTheDbCache(c, v, k);
      }
    }
  }

  lemma BuildKeeps(c: Connector, v: Visits, c': Connector)
    requires Inv(c) && Build(c, v, c')
    ensures Inv(c')
  {
    PrunedByItsOwnCache(SERVER_NAMES, c.server, v.server, c'.server);
    PrunedByItsOwnCache(DB_NAMES, c.db, v.db, c'.db);
    PrunedByTheDbCache(c, v, c');
    PrunedByItsOwnCache(MQ_NAMES, c.mq, v.mq, c'.mq);
  }

  // Only the external family can fail, and then only it and the ones before it were looked at.
  lemma FailureIsExternal(c: Connector, v: Visits, missing: MetricKey, c': Connector)
    requires Inv(c) && BuildFails(c, v, missing, c')
    ensures Looked(c.server, v.server, c'.server) && Looked(c.db, v.db, c'.db)
    ensures FailStep(c.external, v.external, missing, c'.external) && c'.mq == c.mq
    ensures !Apart(c)
  {
  }

  lemma FailureKeeps(c: Connector, v: Visits, missing: MetricKey, c': Connector)
    requires Inv(c) && BuildFails(c, v, missing, c')
    ensures Inv(c')
  {
    FailureIsExternal(c, v, missing, c');
    LookKeepsInv(SERVER_NAMES, c.server, v.server, c'.server);
    LookKeepsInv(DB_NAMES, c.db, v.db, c'.db);
    LookKeepsInv(EXTERNAL_NAMES, c.external, v.external, c'.external);
  }

  lemma StartHasInv(c: Connector)
    requires Start(c)
    ensures Inv(c)
  {
  }

  lemma NextKeeps(c: Connector, c': Connector)
    requires Inv(c) && Next(c, c')
    ensures Inv(c')
  {
    if SpanNext(c, c') {
      var u :| Aggregate(c, u, c');
      AggregateKeeps(c, u, c');
    } else if BuildNext(c, c') {
      var v :| Build(c, v, c');
      BuildKeeps(c, v, c');
    } else {
      var v, missing :| BuildFails(c, v, missing, c');
      FailureKeeps(c, v, missing, c');
    }
  }

  // ---------------------------------------------------------------- every run

  ghost predicate Run(b: seq<Connector>) {
    && b != [] && Start(b[0])
    && forall i :: 0 <= i < |b| - 1 ==> Next(b[i], b[i + 1])
  }

  function Last(b: seq<Connector>): Connector
    requires b != []
  {
    b[|b| - 1]
  }

  lemma {:induction false} ReachableInv(b: seq<Connector>)
    requires Run(b)
    ensures Inv(Last(b))
  {
    var n := |b| - 1;
    if n == 0 {
      StartHasInv(b[0]);
    } else {
      ReachableInv(b[..n]);
      assert Next(b[n - 1], b[n]);
      NextKeeps(b[n - 1], b[n]);
    }
  }

  // In no run, whatever the values, does an export come to a server, DB or MQ series without dimensions.
  lemma OwnSeriesNeverFail(b: seq<Connector>)
    requires Run(b)
    ensures KeysHeld(Last(b).server.family) && KeysHeld(Last(b).db.family) && KeysHeld(Last(b).mq.family)
    ensures forall v, missing, c' :: BuildFails(Last(b), v, missing, c') ==> missing in Last(b).external.family.hists
  {
    ReachableInv(b);
    forall v, missing, c' | BuildFails(Last(b), v, missing, c') ensures missing in Last(b).external.family.hists {
      FailureIsExternal(Last(b), v, missing, c');
    }
  }

  // In no run whose external keys are apart from its DB keys does an export fail ...
  lemma ApartExportsNeverFail(b: seq<Connector>, v: Visits, missing: MetricKey, c': Connector)
    requires Run(b) && Apart(Last(b))
    ensures !BuildFails(Last(b), v, missing, c')
  {
    ReachableInv(b);
    if BuildFails(Last(b), v, missing, c') {
      FailureIsExternal(Last(b), v, missing, c');
    }
  }

  // ... and there an export deletes every external histogram, so that the next one starts at zero.
  lemma ApartSeriesNeverSurvive(b: seq<Connector>, v: Visits, c': Connector)
    requires Run(b) && Apart(Last(b)) && Build(Last(b), v, c')
    ensures c'.external.family.hists == map[]
  {
    ReachableInv(b);
    PrunedByTheDbCache(Last(b), v, c');
  }

  // NUL-free external values are enough for both.
  lemma CleanExportsNeverFail(b: seq<Connector>, v: Visits, missing: MetricKey, c': Connector)
    requires Run(b) && AllClean(Last(b).external.received)
    ensures !BuildFails(Last(b), v, missing, c')
  {
    ReachableInv(b);
    CleanIsApart(Last(b));
    ApartExportsNeverFail(b, v, missing, c');
  }

  lemma CleanExternalSeriesNeverSurvive(b: seq<Connector>, v: Visits, c': Connector)
    requires Run(b) && AllClean(Last(b).external.received) && Build(Last(b), v, c')
    ensures c'.external.family.hists == map[]
  {
    ReachableInv(b);
    CleanIsApart(Last(b));
    ApartSeriesNeverSurvive(b, v, c');
  }

  // The other families keep their series as long as these fit their cache, whatever the values.
  lemma OtherSeriesSurvive(b: seq<Connector>, v: Visits, c': Connector)
    requires Run(b) && Build(Last(b), v, c')
    ensures var c := Last(b);
            && (|v.server| <= c.server.family.dims.size ==> c'.server.family.hists == c.server.family.hists)
            && (|v.db| <= c.db.family.dims.size ==> c'.db.family.hists == c.db.family.hists)
            && (|v.mq| <= c.mq.family.dims.size ==> c'.mq.family.hists == c.mq.family.hists)
  {
    var c := Last(b);
    ReachableInv(b);
    AllSurvive(c.server.family, v.server);
    AllSurvive(c.db.family, v.db);
    AllSurvive(c.mq.family, v.mq);
  }

  lemma AllSurvive(f: Family, visit: seq<MetricKey>)
    requires KeysHeld(f) && Ranges(visit, f.hists)
    ensures |visit| <= f.dims.size ==> Exported(f, visit, Visited(f.dims, visit).items.Keys).hists == f.hists
  {
    ExportKeepsLastVisited(f, visit);
    assert visit[0..] == visit;
  }

  // After a successful export every span received so far, of any family, has been exported.
  lemma BuildExportsEverything(b: seq<Connector>, v: Visits, c': Connector, u: Update)
    requires Run(b) && Build(Last(b), v, c')
    ensures u in Last(b).server.received ==> ExportedIn(c'.server.exports, u)
    ensures u in Last(b).db.received ==> ExportedIn(c'.db.exports, u)
    ensures u in Last(b).external.received ==> ExportedIn(c'.external.exports, u)
    ensures u in Last(b).mq.received ==> ExportedIn(c'.mq.exports, u)
  {
    var c := Last(b);
    ReachableInv(b);
    if u in c.server.received {
      EverythingIsExported(SERVER_NAMES, c.server, v.server, ListKeys(c.server, v.server), c'.server, u);
    }
    if u in c.db.received {
      EverythingIsExported(DB_NAMES, c.db, v.db, ListKeys(c.db, v.db), c'.db, u);
    }
    if u in c.external.received {
      EverythingIsExported(EXTERNAL_NAMES, c.external, v.external, ListKeys(c.db, v.db), c'.external, u);
    }
    if u in c.mq.received {
      EverythingIsExported(MQ_NAMES, c.mq, v.mq, ListKeys(c.mq, v.mq), c'.mq, u);
    }
  }

  // ---------------------------------------------------------------- what an export says

  ghost predicate AllSayTheirValues(names: seq<string>, points: seq<Point>) {
    forall p :: p in points ==> SaysItsValues(names, p)
  }

  // Each point of an export has exactly the attributes of its family, and for every NUL-free span behind
  // it each attribute is the value of that span.
  lemma ExportSaysItsValues(b: seq<Connector>, v: Visits, c': Connector)
    requires Run(b) && Build(Last(b), v, c')
    ensures AllSayTheirValues(SERVER_NAMES, Points(Last(b).server.family, v.server))
    ensures AllSayTheirValues(DB_NAMES, Points(Last(b).db.family, v.db))
    ensures AllSayTheirValues(EXTERNAL_NAMES, Points(Last(b).external.family, v.external))
    ensures AllSayTheirValues(MQ_NAMES, Points(Last(b).mq.family, v.mq))
  {
    ReachableInv(b);
    NamesAreDistinct();
    FamilySaysItsValues(SERVER_NAMES, Last(b).server, v.server);
    FamilySaysItsValues(DB_NAMES, Last(b).db, v.db);
    FamilySaysItsValues(EXTERNAL_NAMES, Last(b).external, v.external);
    FamilySaysItsValues(MQ_NAMES, Last(b).mq, v.mq);
  }

  lemma FamilySaysItsValues(names: seq<string>, s: System, visit: seq<MetricKey>)
    requires names != [] && DistinctNames(names) && MetricFamilies.Inv(names, s)
    requires Ranges(visit, s.family.hists) && AllHeld(s.family.dims, visit)
    ensures AllSayTheirValues(names, Points(s.family, visit))
  {
    forall p | p in Points(s.family, visit) ensures SaysItsValues(names, p) {
      var i :| 0 <= i < |Points(s.family, visit)| && p == Points(s.family, visit)[i];
      PointSaysItsValues(names, s, visit, i);
    }
  }
}
