// One span on the connector as steps of its runs, and the value lists it brings.
module RedSpans {
  import opened Wrappers
  import opened EntryUrlMatching
  import opened DimensionCaching
  import opened DimensionKeys
  import opened MetricFamilies
  import opened RedMetrics
  import opened RedConnector
  import opened ServedKeys

  // ---------------------------------------------------------------- the value lists

  // What aggregateMetricsForSpan is called with: a process that was found, on this node, and an entry
  // URL if these are matched.
  ghost predicate ServedOrigin(node: Node, o: Origin) {
    && o.nodeName == node.name && o.nodeIp == node.ip
    && IsPid(o.pid) && o.serviceName != "" && |o.containerId| <= 12
    && (node.matching || o.entryUrl == "")
  }

  lemma FieldsAreServed(node: Node, o: Origin, span: Observed)
    requires ServedOrigin(node, o)
    ensures Served(node, ServerFields(o, span))
    ensures span.db.Some? ==> ServedCall(node, DbFields(o, span.db.value, span.isError))
    ensures span.external.Some? ==> ServedCall(node, ExternalFields(o, span.external.value, span.isError))
    ensures span.mq.Some? ==> ServedCall(node, MqFields(o, span.mq.value, span.isError))
  {
  }

  // Every served list of ten is the list of some external call, and every one of eleven that of some DB
  // call.
  lemma ServedIsExternal(node: Node, fields: seq<string>) returns (o: Origin, call: ExternalCall, isError: bool)
    requires |fields| == 10 && ServedCall(node, fields)
    ensures ServedOrigin(node, o) && fields == ExternalFields(o, call, isError)
  {
    o := Origin(fields[4], fields[5], fields[0], fields[2], fields[3], fields[1]);
    call, isError := ExternalCall(fields[6], fields[7], fields[8]), fields[9] == "true";
  }

  lemma ServedIsDb(node: Node, fields: seq<string>) returns (o: Origin, call: DbCall, isError: bool)
    requires |fields| == 11 && ServedCall(node, fields)
    ensures ServedOrigin(node, o) && fields == DbFields(o, call, isError)
  {
    o := Origin(fields[4], fields[5], fields[0], fields[2], fields[3], fields[1]);
    call, isError := DbCall(fields[7], fields[8], fields[6], fields[9]), fields[10] == "true";
  }

  // ---------------------------------------------------------------- the steps

  // A state reached by span steps.
  ghost predicate SpanPath(b: seq<Connector>) {
    b != [] && forall i :: 0 <= i < |b| - 1 ==> SpanNext(b[i], b[i + 1])
  }

  function Then(b: seq<Connector>, c: Connector): seq<Connector>
    requires b != []
  {
    if Last(b) == c then b else b + [c]
  }

  lemma ThenIsPath(b: seq<Connector>, c: Connector)
    requires SpanPath(b) && (Last(b) == c || SpanNext(Last(b), c))
    ensures SpanPath(Then(b, c)) && Last(Then(b, c)) == c && Then(b, c)[0] == b[0]
  {
    var r := b + [c];
    forall i | 0 <= i < |r| - 1 && Last(b) != c ensures SpanNext(r[i], r[i + 1]) {
      if i < |b| - 1 {
        assert r[i] == b[i] && r[i + 1] == b[i + 1];
      }
    }
  }

  // What a span brings to each family, and whether it counts there.
  datatype Brought = Brought(server: Option<Update>, db: Option<Update>, external: Option<Update>, mq: Option<Update>) {
    predicate Sized() {
      && (server.Some? ==> |server.value.fields| == 8) && (db.Some? ==> |db.value.fields| == 11)
      && (external.Some? ==> |external.value.fields| == 10) && (mq.Some? ==> |mq.value.fields| == 11)
    }
  }

  function BroughtBy(on: Enabled, o: Origin, span: Observed): (b: Brought)
    ensures b.Sized()
  {
    var took, call := span.start < span.end, span.kind == Client;
    Brought(
      if took && on.server && span.kind in {Server, Consumer} && span.swSpanId in {None, Some(0)} then
        Some(Update(ServerFields(o, span), Latency(span)))
      else None,
      if took && on.db && call && span.db.Some? then
        Some(Update(DbFields(o, span.db.value, span.isError), Latency(span)))
      else None,
      if took && on.external && call && span.external.Some? then
        Some(Update(ExternalFields(o, span.external.value, span.isError), Latency(span)))
      else None,
      if took && on.mq && span.mq.Some? then Some(Update(MqFields(o, span.mq.value, span.isError), Latency(span)))
      else None)
  }

  // A family after a span that may count in it.
  function AfterMaybe(names: seq<string>, s: System, u: Option<Update>): System
    requires Valid(s.family.dims) && (u.Some? ==> |u.value.fields| == |names|)
  {
    if u.Some? then AfterSpan(names, s, u.value) else s
  }

  ghost predicate ValidConnector(c: Connector) {
    && Valid(c.server.family.dims) && Valid(c.db.family.dims)
    && Valid(c.external.family.dims) && Valid(c.mq.family.dims)
  }

  function AfterAll(c: Connector, b: Brought): Connector
    requires ValidConnector(c) && b.Sized()
  {
    Connector(AfterMaybe(SERVER_NAMES, c.server, b.server), AfterMaybe(DB_NAMES, c.db, b.db),
              AfterMaybe(EXTERNAL_NAMES, c.external, b.external), AfterMaybe(MQ_NAMES, c.mq, b.mq))
  }

  lemma BroughtIsAfter(c: Connector, on: Enabled, o: Origin, span: Observed)
    requires ValidConnector(c)
    ensures FamiliesOf(AfterAll(c, BroughtBy(on, o, span))) == Families(
              AfterServer(on, c.server.family, o, span), AfterDb(on, c.db.family, o, span),
              AfterExternal(on, c.external.family, o, span), AfterMq(on, c.mq.family, o, span))
  {
  }

  // What AggregateMetricsForSpan promises of the objects is a run of at most four span steps.
  lemma SpanIsSteps(c: Connector, on: Enabled, o: Origin, span: Observed) returns (b: seq<Connector>)
    requires ValidConnector(c)
    ensures SpanPath(b) && b[0] == c
    ensures FamiliesOf(Last(b)) == Families(
              AfterServer(on, c.server.family, o, span), AfterDb(on, c.db.family, o, span),
              AfterExternal(on, c.external.family, o, span), AfterMq(on, c.mq.family, o, span))
  {
    var u := BroughtBy(on, o, span);
    BroughtIsAfter(c, on, o, span);
    b := StepsOf(c, u);
  }

  lemma StepsOf(c: Connector, u: Brought) returns (b: seq<Connector>)
    requires ValidConnector(c) && u.Sized()
    ensures SpanPath(b) && b[0] == c && Last(b) == AfterAll(c, u)
  {
    var all := AfterAll(c, u);
    FirstTwoSteps(c, u);
    LastTwoSteps(c, u);
    b := FourSteps(c, c.(server := all.server), c.(server := all.server, db := all.db),
                   c.(server := all.server, db := all.db, external := all.external), all);
  }

  lemma FourSteps(c: Connector, c1: Connector, c2: Connector, c3: Connector, c4: Connector) returns (b: seq<Connector>)
    requires c1 == c || SpanNext(c, c1)
    requires c2 == c1 || SpanNext(c1, c2)
    requires c3 == c2 || SpanNext(c2, c3)
    requires c4 == c3 || SpanNext(c3, c4)
    ensures SpanPath(b) && b[0] == c && Last(b) == c4
  {
    ThenIsPath([c], c1);
    b := Then([c], c1);
    ThenIsPath(b, c2);
    b := Then(b, c2);
    ThenIsPath(b, c3);
    b := Then(b, c3);
    ThenIsPath(b, c4);
    b := Then(b, c4);
  }

  lemma FirstTwoSteps(c: Connector, u: Brought)
    requires ValidConnector(c) && u.Sized()
    ensures var c1 := c.(server := AfterMaybe(SERVER_NAMES, c.server, u.server));
            var c2 := c1.(db := AfterMaybe(DB_NAMES, c.db, u.db));
            (c1 == c || SpanNext(c, c1)) && (c2 == c1 || SpanNext(c1, c2))
  {
    var c1 := c.(server := AfterMaybe(SERVER_NAMES, c.server, u.server));
    var c2 := c1.(db := AfterMaybe(DB_NAMES, c.db, u.db));
    if u.server.Some? {
      assert Aggregate(c, u.server.value, c1);
    }
    if u.db.Some? {
      assert Aggregate(c1, u.db.value, c2);
    }
  }

  lemma LastTwoSteps(c: Connector, u: Brought)
    requires ValidConnector(c) && u.Sized()
    ensures var all := AfterAll(c, u);
            var c2 := c.(server := all.server, db := all.db);
            var c3 := c2.(external := all.external);
            (c3 == c2 || SpanNext(c2, c3)) && (all == c3 || SpanNext(c3, all))
  {
    var all := AfterAll(c, u);
    var c2 := c.(server := all.server, db := all.db);
    var c3 := c2.(external := all.external);
    if u.external.Some? {
      assert Aggregate(c2, u.external.value, c3);
    }
    if u.mq.Some? {
      assert Aggregate(c3, u.mq.value, all);
    }
  }
}
