// The objects of the connector: caches and histograms updated in place by spans and exports.
module RedConnector {
  import opened Wrappers
  import opened DimensionCaching
  import opened DimensionKeys
  import opened MetricFamilies
  import opened RedMetrics
  import opened EntryUrlMatching

  // The dimension cache and the histograms of one family.
  class Series {
    const cache: Cache
    var histograms: Histograms

    ghost function View(): Family
      reads this, cache
    {
      Family(cache.View(), histograms)
    }

    constructor (cacheSize: nat)
      requires 0 < cacheSize
      ensures KeysHeld(View()) && fresh(cache)
      ensures View() == Family(DimensionCaching.State(cacheSize, [], map[], map[]), map[])
    {
      cache := new Cache(cacheSize);
      histograms := map[];
    }

    method UpdateHistogram(key: MetricKey, u: Update)
      modifies this
      ensures histograms == old(histograms)[key := HistOf(old(histograms), key) + [u]]
    {
      var histo := [];
      if key in histograms {
        histo := histograms[key];
      }
      histograms := histograms[key := histo + [u]];
    }

    // The attributes of the span are in keyValue, its key is made of them.
    method Aggregate(keyValue: ReusedKeyValue, text: string, latency: real)
      requires Valid(cache.View()) && keyValue.Valid() && text == Joined(keyValue.Values())
      modifies this, cache
      ensures keyValue.Valid()
      ensures View() == Aggregated(keyValue.Names(), old(View()), Update(keyValue.Values(), latency))
    {
      var key := MetricKey(text);
      var _, has := cache.Get(key);
      if !has {
        FetchKeepsHeld(old(cache.View()), key);
        var dims := keyValue.GetMap();
        var _ := cache.Add(key, dims);
      }
      UpdateHistogram(key, Update(keyValue.vals[..keyValue.size], latency));
    }

    // Where the collect loop stands after the keys visited so far.
    ghost predicate Collected(was: Family, rest: set<MetricKey>, visit: seq<MetricKey>, points: seq<Point>)
      reads this, cache
    {
      && Valid(was.dims) && AllHeld(was.dims, visit) && Partly(was.hists, rest, visit)
      && View() == Family(Visited(was.dims, visit), was.hists)
      && points == Points(was, visit)
    }

    // The keys are ranged over in no particular order; a key without dimensions ends the loop.
    method CollectOne(ghost was: Family, ghost rest: set<MetricKey>, key: MetricKey, ghost visit: seq<MetricKey>,
                      points: seq<Point>) returns (ok: bool, more: seq<Point>)
      requires key in rest && Collected(was, rest, visit, points)
      modifies cache
      ensures ok <==> key in Held(was.dims)
      ensures ok ==> Collected(was, rest - {key}, visit + [key], more)
      ensures !ok ==> View() == Family(Visited(was.dims, visit), was.hists)
    {
      assert key in was.hists && Held(Visited(was.dims, visit)) == Held(was.dims);
      var dimensions, found := cache.Get(key);
      if !found {
        FetchKeepsHeld(Visited(was.dims, visit), key);
        return false, points;
      }
      OneMore(was, rest, key, visit);
      more := points + [Point(key, dimensions, histograms[key])];
      return true, more;
    }

    method Collect() returns (ok: bool, points: seq<Point>, ghost visit: seq<MetricKey>, ghost missing: MetricKey)
      requires Valid(cache.View())
      modifies cache
      ensures ok <==> KeysHeld(old(View()))
      ensures ok ==> LookedAt(old(View()), visit, View()) && points == Points(old(View()), visit)
      ensures !ok ==> FailedAt(old(View()), visit, missing, View())
    {
      ok, points, visit, missing := true, [], [], MetricKey("");
      ghost var was := View();
      var rest := histograms.Keys;
      while rest != {}
        invariant ok && Collected(was, rest, visit, points)
      {
        var key :| key in rest;
        ok, points := CollectOne(was, rest, key, visit, points);
        if !ok {
          missing := key;
          return;
        }
        rest, visit := rest - {key}, visit + [key];
      }
      forall k | k in was.hists ensures k in Held(was.dims) {
        assert k in visit;
      }
    }

    // Histograms whose key is not in the given cache's LRU list are deleted.
    method Prune(own: Cache)
      modifies this
      ensures histograms == Kept(old(histograms), own.View().items.Keys)
    {
      ghost var was := histograms;
      var rest := histograms.Keys;
      while rest != {}
        invariant rest <= was.Keys
        invariant histograms == map k | k in was && (k in rest || k in own.items) :: was[k]
      {
        var key :| key in rest;
        rest := rest - {key};
        if !own.Contains(key) {
          histograms := histograms - {key};
        }
      }
    }
  }

  // What the parsers find on a span: the fields that differ between the families.
  datatype DbCall = DbCall(dbSystem: string, dbName: string, name: string, dbUrl: string)
  datatype ExternalCall = ExternalCall(name: string, peer: string, system: string)
  datatype MqCall = MqCall(name: string, peer: string, mqSystem: string, role: string)

  datatype Observed = Observed(
    start: nat, end: nat, kind: Kind, name: string, topSpan: bool, isError: bool,
    swSpanId: Option<int>,              // the SkyWalking span id attribute
    db: Option<DbCall>, external: Option<ExternalCall>, mq: Option<MqCall>)

  // Who sent the span: the process, the node and the entry URL found for it.
  datatype Origin = Origin(pid: string, containerId: string, serviceName: string, nodeName: string, nodeIp: string,
                           entryUrl: string)

  datatype Enabled = Enabled(server: bool, db: bool, external: bool, mq: bool)

  function ServerFields(o: Origin, span: Observed): seq<string> {
    [o.serviceName, span.name, o.nodeName, o.nodeIp, o.pid, o.containerId, FormatBool(span.topSpan),
     FormatBool(span.isError)]
  }

  function DbFields(o: Origin, c: DbCall, isError: bool): seq<string> {
    [o.serviceName, o.entryUrl, o.nodeName, o.nodeIp, o.pid, o.containerId, c.name, c.dbSystem, c.dbName, c.dbUrl,
     FormatBool(isError)]
  }

  function ExternalFields(o: Origin, c: ExternalCall, isError: bool): seq<string> {
    [o.serviceName, o.entryUrl, o.nodeName, o.nodeIp, o.pid, o.containerId, c.name, c.peer, c.system,
     FormatBool(isError)]
  }

  function MqFields(o: Origin, c: MqCall, isError: bool): seq<string> {
    [o.serviceName, o.entryUrl, o.nodeName, o.nodeIp, o.pid, o.containerId, c.name, c.peer, c.mqSystem, c.role,
     FormatBool(isError)]
  }

  class ConnectorImp {
    const enabled: Enabled
    const keyValue: ReusedKeyValue
    const server: Series
    const db: Series
    const external: Series
    const mq: Series

    ghost predicate Separate()
      reads this
    {
      && server != db && server != external && server != mq && db != external && db != mq && external != mq
      && server.cache != db.cache && server.cache != external.cache && server.cache != mq.cache
      && db.cache != external.cache && db.cache != mq.cache && external.cache != mq.cache
    }

    constructor (enabled: Enabled, cacheSize: nat)
      requires 0 < cacheSize
      ensures Separate() && keyValue.Valid() && keyValue.maxAttribute == 100 && this.enabled == enabled
      ensures forall f :: f in [server, db, external, mq] ==> KeysHeld(f.View())
      ensures server.View() == db.View() == external.View() == mq.View()
           == Family(DimensionCaching.State(cacheSize, [], map[], map[]), map[])
    {
      this.enabled := enabled;
      keyValue := new ReusedKeyValue(100);
      server := new Series(cacheSize);
      db := new Series(cacheSize);
      external := new Series(cacheSize);
      mq := new Series(cacheSize);
    }

    method AggregateServer(o: Origin, span: Observed)
      requires Valid(server.cache.View()) && keyValue.Valid() && keyValue.maxAttribute == 100 && span.start < span.end
      modifies server, server.cache, keyValue, keyValue.keys, keyValue.vals
      ensures keyValue.Valid() && server.View() == AfterServer(enabled, old(server.View()), o, span)
    {
      if enabled.server && (span.kind == Server || span.kind == Consumer) {
        if span.swSpanId == None || span.swSpanId.value == 0 {
          var key := BuildServerKey(keyValue, o.nodeName, o.nodeIp, o.pid, o.containerId, o.serviceName, span.name,
                                    span.topSpan, span.isError);
          server.Aggregate(keyValue, key, Latency(span));
        }
      }
    }

    method AggregateDb(o: Origin, span: Observed)
      requires Valid(db.cache.View()) && keyValue.Valid() && keyValue.maxAttribute == 100
      requires span.start < span.end && span.kind == Client
      modifies db, db.cache, keyValue, keyValue.keys, keyValue.vals
      ensures keyValue.Valid() && db.View() == AfterDb(enabled, old(db.View()), o, span)
    {
      if enabled.db && span.db.Some? {
        var c := span.db.value;
        var key := BuildDbKey(keyValue, o.nodeName, o.nodeIp, o.pid, o.containerId, o.serviceName, o.entryUrl,
                              c.dbSystem, c.dbName, c.name, c.dbUrl, span.isError);
        db.Aggregate(keyValue, key, Latency(span));
      }
    }

    method AggregateExternal(o: Origin, span: Observed)
      requires Valid(external.cache.View()) && keyValue.Valid() && keyValue.maxAttribute == 100
      requires span.start < span.end && span.kind == Client
      modifies external, external.cache, keyValue, keyValue.keys, keyValue.vals
      ensures keyValue.Valid() && external.View() == AfterExternal(enabled, old(external.View()), o, span)
    {
      if enabled.external && span.external.Some? {
        var c := span.external.value;
        var key := BuildExternalKey(keyValue, o.nodeName, o.nodeIp, o.pid, o.containerId, o.serviceName, o.entryUrl,
                                    c.name, c.peer, c.system, span.isError);
        external.Aggregate(keyValue, key, Latency(span));
      }
    }

    method AggregateMq(o: Origin, span: Observed)
      requires Valid(mq.cache.View()) && keyValue.Valid() && keyValue.maxAttribute == 100 && span.start < span.end
      modifies mq, mq.cache, keyValue, keyValue.keys, keyValue.vals
      ensures keyValue.Valid() && mq.View() == AfterMq(enabled, old(mq.View()), o, span)
    {
      if enabled.mq && span.mq.Some? {
        var c := span.mq.value;
        var key := BuildMqKey(keyValue, o.nodeName, o.nodeIp, o.pid, o.containerId, o.serviceName, o.entryUrl,
                              c.name, c.peer, c.mqSystem, span.isError, c.role);
        mq.Aggregate(keyValue, key, Latency(span));
      }
    }

    // A span of positive duration is counted in the server family if it is an entry span (but not the
    // inner one of an Undertow task), in the DB and the external family if it is a client span that
    // parses as such, and in the MQ family if it parses as such.
    method AggregateMetricsForSpan(o: Origin, span: Observed)
      requires Separate() && keyValue.Valid() && keyValue.maxAttribute == 100
      requires Valid(server.cache.View()) && Valid(db.cache.View()) && Valid(external.cache.View())
              && Valid(mq.cache.View())
      modifies server, db, external, mq, server.cache, db.cache, external.cache, mq.cache
      modifies keyValue, keyValue.keys, keyValue.vals
      ensures keyValue.Valid()
      ensures server.View() == AfterServer(enabled, old(server.View()), o, span)
      ensures db.View() == AfterDb(enabled, old(db.View()), o, span)
      ensures external.View() == AfterExternal(enabled, old(external.View()), o, span)
      ensures mq.View() == AfterMq(enabled, old(mq.View()), o, span)
    {
      if span.end <= span.start {
        return;
      }
      AggregateServer(o, span);
      if span.kind == Client {
        AggregateDb(o, span);
        AggregateExternal(o, span);
      }
      AggregateMq(o, span);
    }

    ghost function View(): Families
      reads this, server, db, external, mq, server.cache, db.cache, external.cache, mq.cache
    {
      Families(server.View(), db.View(), external.View(), mq.View())
    }

    // The collect loops; the first one to come to a key without dimensions ends the export.
    method CollectAll() returns (ok: bool, points: seq<seq<Point>>, ghost v: Visits, ghost missing: MetricKey)
      requires Separate() && ValidFamilies(View())
      modifies server.cache, db.cache, external.cache, mq.cache
      ensures ok <==> AllKeysHeld(old(View()))
      ensures ok ==> AllLookedAt(old(View()), v, View()) && points == AllPoints(old(View()), v)
      ensures !ok ==> BuildFailedAt(old(View()), v, missing, View())
    {
      var servers, dbs, externals, mqs;
      ghost var vs, vd, ve, vm;
      points, v := [], Visits([], [], [], []);
      ok, servers, vs, missing := server.Collect();
      if !ok {
        v := Visits(vs, [], [], []);
        return;
      }
      ok, dbs, vd, missing := db.Collect();
      if !ok {
        v := Visits(vs, vd, [], []);
        return;
      }
      ok, externals, ve, missing := external.Collect();
      if !ok {
        v := Visits(vs, vd, ve, []);
        return;
      }
      ok, mqs, vm, missing := mq.Collect();
      v := Visits(vs, vd, ve, vm);
      if !ok {
        return;
      }
      points := [servers, dbs, externals, mqs];
    }

    // Collecting, the removal of evicted dimensions and the pruning, the external family by the DB
    // family's cache. After a failure nothing is removed and nothing pruned.
    method BuildMetrics() returns (ok: bool, points: seq<seq<Point>>, ghost v: Visits, ghost missing: MetricKey)
      requires Separate() && ValidFamilies(View())
      modifies server, db, external, mq, server.cache, db.cache, external.cache, mq.cache
      ensures ok <==> AllKeysHeld(old(View()))
      ensures ok ==> BuiltAll(old(View()), v, View()) && points == AllPoints(old(View()), v)
      ensures !ok ==> BuildFailedAt(old(View()), v, missing, View())
    {
      ok, points, v, missing := CollectAll();
      if !ok {
        return;
      }
      PrunedIsBuilt(old(View()), v, View());
      RemoveEvicted();
      PruneAll();
    }

    method RemoveEvicted()
      requires Separate()
      modifies server.cache, db.cache, external.cache, mq.cache
      ensures View() == WithoutEvicted(old(View()))
    {
      server.cache.RemoveEvictedItems();
      db.cache.RemoveEvictedItems();
      external.cache.RemoveEvictedItems();
      mq.cache.RemoveEvictedItems();
    }

    method PruneAll()
      requires Separate()
      modifies server, db, external, mq
      ensures View() == Pruned(old(View()))
    {
      server.Prune(server.cache);
      db.Prune(db.cache);
      external.Prune(db.cache);
      mq.Prune(mq.cache);
    }
  }

  // The four families on the objects.
  datatype Families = Families(server: Family, db: Family, external: Family, mq: Family)

  function WithoutEvicted(f: Families): Families {
    Families(f.server.(dims := f.server.dims.(evicted := map[])), f.db.(dims := f.db.dims.(evicted := map[])),
             f.external.(dims := f.external.dims.(evicted := map[])), f.mq.(dims := f.mq.dims.(evicted := map[])))
  }

  // Every family pruned by its own LRU list, the external one by the DB family's.
  function Pruned(f: Families): Families {
    Families(f.server.(hists := Kept(f.server.hists, f.server.dims.items.Keys)),
             f.db.(hists := Kept(f.db.hists, f.db.dims.items.Keys)),
             f.external.(hists := Kept(f.external.hists, f.db.dims.items.Keys)),
             f.mq.(hists := Kept(f.mq.hists, f.mq.dims.items.Keys)))
  }

  lemma PrunedIsBuilt(f: Families, v: Visits, looked: Families)
    requires AllLookedAt(f, v, looked)
    ensures BuiltAll(f, v, Pruned(WithoutEvicted(looked)))
  {
  }

  ghost predicate ValidFamilies(f: Families) {
    Valid(f.server.dims) && Valid(f.db.dims) && Valid(f.external.dims) && Valid(f.mq.dims)
  }

  ghost predicate AllKeysHeld(f: Families) {
    KeysHeld(f.server) && KeysHeld(f.db) && KeysHeld(f.external) && KeysHeld(f.mq)
  }

  // A family whose keys were all looked up.
  ghost predicate LookedAt(was: Family, visit: seq<MetricKey>, now: Family) {
    && Valid(was.dims) && Ranges(visit, was.hists) && AllHeld(was.dims, visit)
    && now == Family(Visited(was.dims, visit), was.hists)
  }

  // A family where looking up came to a key without dimensions.
  ghost predicate FailedAt(was: Family, visit: seq<MetricKey>, missing: MetricKey, now: Family) {
    && Valid(was.dims) && Distinct(visit) && (forall k :: k in visit ==> k in was.hists) && AllHeld(was.dims, visit)
    && missing in was.hists && missing !in Held(was.dims)
    && now == Family(Visited(was.dims, visit), was.hists)
  }

  ghost predicate AllLookedAt(f: Families, v: Visits, f': Families) {
    && LookedAt(f.server, v.server, f'.server) && LookedAt(f.db, v.db, f'.db)
    && LookedAt(f.external, v.external, f'.external) && LookedAt(f.mq, v.mq, f'.mq)
  }

  ghost predicate BuildFailedAt(f: Families, v: Visits, missing: MetricKey, f': Families) {
    || (FailedAt(f.server, v.server, missing, f'.server) && f' == f.(server := f'.server))
    || (&& LookedAt(f.server, v.server, f'.server) && FailedAt(f.db, v.db, missing, f'.db)
        && f' == f.(server := f'.server, db := f'.db))
    || (&& LookedAt(f.server, v.server, f'.server) && LookedAt(f.db, v.db, f'.db)
        && FailedAt(f.external, v.external, missing, f'.external)
        && f' == f.(server := f'.server, db := f'.db, external := f'.external))
    || (&& LookedAt(f.server, v.server, f'.server) && LookedAt(f.db, v.db, f'.db)
        && LookedAt(f.external, v.external, f'.external)
        && FailedAt(f.mq, v.mq, missing, f'.mq))
  }

  function AllPoints(f: Families, v: Visits): seq<seq<Point>>
    requires AllHeld(f.server.dims, v.server) && AllHeld(f.db.dims, v.db)
    requires AllHeld(f.external.dims, v.external) && AllHeld(f.mq.dims, v.mq)
  {
    [Points(f.server, v.server), Points(f.db, v.db), Points(f.external, v.external), Points(f.mq, v.mq)]
  }

  ghost predicate BuiltAll(f: Families, v: Visits, f': Families) {
    && Built(f.server, v.server, f.server, v.server, f'.server)
    && Built(f.db, v.db, f.db, v.db, f'.db)
    && Built(f.external, v.external, f.db, v.db, f'.external)
    && Built(f.mq, v.mq, f.mq, v.mq, f'.mq)
  }

  function Latency(span: Observed): (latency: real)
    ensures span.start as real + latency == span.end as real
  {
    (span.end - span.start) as real
  }

  function AfterServer(on: Enabled, f: Family, o: Origin, span: Observed): Family
    requires Valid(f.dims)
  {
    if span.start < span.end && on.server && span.kind in {Server, Consumer} && span.swSpanId in {None, Some(0)} then
      Aggregated(SERVER_NAMES, f, Update(ServerFields(o, span), Latency(span)))
    else f
  }

  function AfterDb(on: Enabled, f: Family, o: Origin, span: Observed): Family
    requires Valid(f.dims)
  {
    if span.start < span.end && on.db && span.kind == Client && span.db.Some? then
      Aggregated(DB_NAMES, f, Update(DbFields(o, span.db.value, span.isError), Latency(span)))
    else f
  }

  function AfterExternal(on: Enabled, f: Family, o: Origin, span: Observed): Family
    requires Valid(f.dims)
  {
    if span.start < span.end && on.external && span.kind == Client && span.external.Some? then
      Aggregated(EXTERNAL_NAMES, f, Update(ExternalFields(o, span.external.value, span.isError), Latency(span)))
    else f
  }

  function AfterMq(on: Enabled, f: Family, o: Origin, span: Observed): Family
    requires Valid(f.dims)
  {
    if span.start < span.end && on.mq && span.mq.Some? then
      Aggregated(MQ_NAMES, f, Update(MqFields(o, span.mq.value, span.isError), Latency(span)))
    else f
  }

  // A family after an export, pruned by the cache of the family `by`.
  ghost predicate Built(was: Family, visit: seq<MetricKey>, own: Family, ownVisit: seq<MetricKey>, now: Family) {
    && Valid(was.dims) && Valid(own.dims)
    && Ranges(visit, was.hists) && AllHeld(was.dims, visit)
    && now == Exported(was, visit, Visited(own.dims, ownVisit).items.Keys)
  }

  function FamiliesOf(c: Connector): Families {
    Families(c.server.family, c.db.family, c.external.family, c.mq.family)
  }

  // What BuildMetrics promises of the objects is the export step of the connector's runs ...
  lemma BuildIsStep(c: Connector, v: Visits, f': Families) returns (c': Connector)
    requires BuiltAll(FamiliesOf(c), v, f')
    ensures Build(c, v, c') && FamiliesOf(c') == f'
  {
    c' := Connector(AfterExport(c.server, v.server, ListKeys(c.server, v.server)),
                    AfterExport(c.db, v.db, ListKeys(c.db, v.db)),
                    AfterExport(c.external, v.external, ListKeys(c.db, v.db)),
                    AfterExport(c.mq, v.mq, ListKeys(c.mq, v.mq)));
  }

  lemma LookedIsStep(s: System, visit: seq<MetricKey>, now: Family)
    requires LookedAt(s.family, visit, now)
    ensures Looked(s, visit, s.(family := now))
  {
  }

  lemma FailedIsStep(s: System, visit: seq<MetricKey>, missing: MetricKey, now: Family)
    requires FailedAt(s.family, visit, missing, now)
    ensures FailStep(s, visit, missing, s.(family := now))
  {
  }

  // ... or their failed export.
  lemma FailureIsStep(c: Connector, v: Visits, missing: MetricKey, f': Families) returns (c': Connector)
    requires BuildFailedAt(FamiliesOf(c), v, missing, f')
    ensures BuildFails(c, v, missing, c') && FamiliesOf(c') == f'
  {
    c' := Connector(c.server.(family := f'.server), c.db.(family := f'.db),
                    c.external.(family := f'.external), c.mq.(family := f'.mq));
    if FailedAt(c.server.family, v.server, missing, f'.server) && f' == FamiliesOf(c).(server := f'.server) {
      FailedIsStep(c.server, v.server, missing, f'.server);
      assert c' == c.(server := c'.server);
    } else {
      LookedIsStep(c.server, v.server, f'.server);
      if FailedAt(c.db.family, v.db, missing, f'.db) && f' == FamiliesOf(c).(server := f'.server, db := f'.db) {
        FailedIsStep(c.db, v.db, missing, f'.db);
      } else {
        LookedIsStep(c.db, v.db, f'.db);
        LaterFailureIsStep(c, v, missing, f', c');
      }
    }
  }

  lemma LaterFailureIsStep(c: Connector, v: Visits, missing: MetricKey, f': Families, c': Connector)
    requires Looked(c.server, v.server, c'.server) && Looked(c.db, v.db, c'.db)
    requires c'.external == c.external.(family := f'.external) && c'.mq == c.mq.(family := f'.mq)
    requires || (FailedAt(c.external.family, v.external, missing, f'.external) && f'.mq == c.mq.family)
             || (LookedAt(c.external.family, v.external, f'.external) && FailedAt(c.mq.family, v.mq, missing, f'.mq))
    ensures BuildFails(c, v, missing, c')
  {
    if FailedAt(c.external.family, v.external, missing, f'.external) && f'.mq == c.mq.family {
      FailedIsStep(c.external, v.external, missing, f'.external);
      assert c' == c.(server := c'.server, db := c'.db, external := c'.external);
    } else {
      LookedIsStep(c.external, v.external, f'.external);
      FailedIsStep(c.mq, v.mq, missing, f'.mq);
    }
  }

  // A loop over a map that still has the keys in `rest` to come by.
  ghost predicate Partly(hists: Histograms, rest: set<MetricKey>, visit: seq<MetricKey>) {
    && Distinct(visit)
    && (forall k :: k in hists <==> k in rest || k in visit)
    && (forall k :: k in rest ==> k !in visit)
  }

  lemma PartlyOneMore(hists: Histograms, rest: set<MetricKey>, key: MetricKey, visit: seq<MetricKey>)
    requires key in rest && Partly(hists, rest, visit)
    ensures key in hists && Partly(hists, rest - {key}, visit + [key])
  {
    forall k ensures k in visit + [key] <==> k in visit || k == key {
      assert (visit + [key])[|visit|] == key;
    }
  }

  lemma VisitedOneMore(dims: State, visit: seq<MetricKey>, key: MetricKey)
    requires Valid(dims)
    ensures Visited(dims, visit + [key]) == Fetched(Visited(dims, visit), key)
  {
    assert (visit + [key])[..|visit|] == visit;
  }

  lemma PointsOneMore(was: Family, visit: seq<MetricKey>, key: MetricKey)
    requires Valid(was.dims) && key in was.hists && key in Held(was.dims) && AllHeld(was.dims, visit)
    ensures AllHeld(was.dims, visit + [key])
    ensures Points(was, visit + [key]) == Points(was, visit) + [Point(key, Held(was.dims)[key], was.hists[key])]
  {
  }

  lemma OneMore(was: Family, rest: set<MetricKey>, key: MetricKey, visit: seq<MetricKey>)
    requires Valid(was.dims) && key in Held(was.dims) && key in rest && AllHeld(was.dims, visit)
            && Partly(was.hists, rest, visit)
    ensures key in was.hists
    ensures AllHeld(was.dims, visit + [key]) && Partly(was.hists, rest - {key}, visit + [key])
    ensures Visited(was.dims, visit + [key]) == Fetched(Visited(was.dims, visit), key)
    ensures Points(was, visit + [key]) == Points(was, visit) + [Point(key, Held(was.dims)[key], was.hists[key])]
  {
    PartlyOneMore(was.hists, rest, key, visit);
    VisitedOneMore(was.dims, visit, key);
    PointsOneMore(was, visit, key);
  }
}
