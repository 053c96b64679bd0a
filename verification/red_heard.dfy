// What the spans the connector heard of become: which families they count in, the attributes and the
// duration they are recorded with, and what an exported point then says about them.
module RedHeard {
  import opened Wrappers
  import opened Runs
  import opened EntryUrlMatching
  import opened DimensionCaching
  import opened DimensionKeys
  import opened MetricFamilies
  import opened RedMetrics
  import opened RedConnector
  import opened RedSpans
  import opened VmHistograms
  import opened SeriesValues

  // ---------------------------------------------------------------- one span

  // Server and consumer spans count as served requests, but not those a SkyWalking agent reports below its
  // first; client spans that parse as such as DB and external calls; any span that parses as such as a
  // message. A span that does not last counts nowhere.
  lemma CountsExactly(on: Enabled, o: Origin, span: Observed)
    ensures var b := BroughtBy(on, o, span);
            && (b.server.Some?
                <==> && on.server && span.start < span.end && (span.kind == Server || span.kind == Consumer)
                     && (span.swSpanId.None? || span.swSpanId.value == 0))
            && (b.db.Some? <==> on.db && span.start < span.end && span.kind == Client && span.db.Some?)
            && (b.external.Some? <==>
                on.external && span.start < span.end && span.kind == Client && span.external.Some?)
            && (b.mq.Some? <==> on.mq && span.start < span.end && span.mq.Some?)
  {
    assert span.swSpanId == None || span.swSpanId == Some(span.swSpanId.value);
  }

  // The value recorded is the time from the span's start to its end.
  ghost predicate Records(u: Update, span: Observed) {
    u.latency > 0.0 && span.start as real + u.latency == span.end as real
  }

  lemma RecordsTheDuration(on: Enabled, o: Origin, span: Observed)
    ensures var b := BroughtBy(on, o, span);
            && (b.server.Some? ==> Records(b.server.value, span))
            && (b.db.Some? ==> Records(b.db.value, span))
            && (b.external.Some? ==> Records(b.external.value, span))
            && (b.mq.Some? ==> Records(b.mq.value, span))
  {
    if span.start < span.end {
      LatencyIsDuration(span, Latency(span));
    }
  }

  lemma LatencyIsDuration(span: Observed, latency: real)
    requires span.start < span.end && span.start as real + latency == span.end as real
    ensures latency > 0.0
  {
  }

  // The attributes every series has.
  ghost predicate SaysOrigin(attributes: map<string, string>, o: Origin, isError: bool) {
    && Is(attributes, "svc_name", o.serviceName) && Is(attributes, "node_name", o.nodeName)
    && Is(attributes, "node_ip", o.nodeIp) && Is(attributes, "pid", o.pid)
    && Is(attributes, "container_id", o.containerId)
    && Is(attributes, "is_error", if isError then "true" else "false")
  }

  ghost predicate Is(attributes: map<string, string>, name: string, value: string) {
    name in attributes && attributes[name] == value
  }

  lemma ServerAttributes(o: Origin, span: Observed)
    ensures var a := Attributes(SERVER_NAMES, ServerFields(o, span));
            && SaysOrigin(a, o, span.isError) && Is(a, "content_key", span.name)
            && Is(a, "top_span", if span.topSpan then "true" else "false")
  {
    NamesAreDistinct();
    AttributesComplete(SERVER_NAMES, ServerFields(o, span));
    assert SERVER_NAMES[0] == "svc_name" && SERVER_NAMES[1] == "content_key" && SERVER_NAMES[2] == "node_name";
    assert SERVER_NAMES[3] == "node_ip" && SERVER_NAMES[4] == "pid" && SERVER_NAMES[5] == "container_id";
    assert SERVER_NAMES[6] == "top_span" && SERVER_NAMES[7] == "is_error";
  }

  lemma DbAttributes(o: Origin, c: DbCall, isError: bool)
    ensures var a := Attributes(DB_NAMES, DbFields(o, c, isError));
            && SaysOrigin(a, o, isError) && Is(a, "content_key", o.entryUrl) && Is(a, "name", c.name)
            && Is(a, "db_system", c.dbSystem) && Is(a, "db_name", c.dbName) && Is(a, "db_url", c.dbUrl)
  {
    NamesAreDistinct();
    AttributesComplete(DB_NAMES, DbFields(o, c, isError));
    assert DB_NAMES[0] == "svc_name" && DB_NAMES[1] == "content_key" && DB_NAMES[2] == "node_name";
    assert DB_NAMES[3] == "node_ip" && DB_NAMES[4] == "pid" && DB_NAMES[5] == "container_id" && DB_NAMES[6] == "name";
    assert DB_NAMES[7] == "db_system" && DB_NAMES[8] == "db_name" && DB_NAMES[9] == "db_url"
        && DB_NAMES[10] == "is_error";
  }

  lemma ExternalAttributes(o: Origin, c: ExternalCall, isError: bool)
    ensures var a := Attributes(EXTERNAL_NAMES, ExternalFields(o, c, isError));
            && SaysOrigin(a, o, isError) && Is(a, "content_key", o.entryUrl) && Is(a, "name", c.name)
            && Is(a, "address", c.peer) && Is(a, "system", c.system)
  {
    NamesAreDistinct();
    AttributesComplete(EXTERNAL_NAMES, ExternalFields(o, c, isError));
    assert EXTERNAL_NAMES[0] == "svc_name" && EXTERNAL_NAMES[1] == "content_key" && EXTERNAL_NAMES[2] == "node_name";
    assert EXTERNAL_NAMES[3] == "node_ip" && EXTERNAL_NAMES[4] == "pid" && EXTERNAL_NAMES[5] == "container_id";
    assert EXTERNAL_NAMES[6] == "name" && EXTERNAL_NAMES[7] == "address" && EXTERNAL_NAMES[8] == "system";
    assert EXTERNAL_NAMES[9] == "is_error";
  }

  lemma MqAttributes(o: Origin, c: MqCall, isError: bool)
    ensures var a := Attributes(MQ_NAMES, MqFields(o, c, isError));
            && SaysOrigin(a, o, isError) && Is(a, "content_key", o.entryUrl) && Is(a, "name", c.name)
            && Is(a, "address", c.peer) && Is(a, "system", c.mqSystem) && Is(a, "role", c.role)
  {
    NamesAreDistinct();
    AttributesComplete(MQ_NAMES, MqFields(o, c, isError));
    assert MQ_NAMES[0] == "svc_name" && MQ_NAMES[1] == "content_key" && MQ_NAMES[2] == "node_name";
    assert MQ_NAMES[3] == "node_ip" && MQ_NAMES[4] == "pid" && MQ_NAMES[5] == "container_id" && MQ_NAMES[6] == "name";
    assert MQ_NAMES[7] == "address" && MQ_NAMES[8] == "system" && MQ_NAMES[9] == "role" && MQ_NAMES[10] == "is_error";
  }

  // ---------------------------------------------------------------- a run with the spans it heard of

  datatype Heard = Heard(o: Origin, span: Observed)

  datatype Told = Told(c: Connector, heard: seq<Heard>)

  datatype Which = ServerSeries | DbSeries | ExternalSeries | MqSeries

  function SystemOf(c: Connector, which: Which): System {
    match which
    case ServerSeries => c.server
    case DbSeries => c.db
    case ExternalSeries => c.external
    case MqSeries => c.mq
  }

  function NamesOf(which: Which): (names: seq<string>)
    ensures names != []
  {
    match which
    case ServerSeries => SERVER_NAMES
    case DbSeries => DB_NAMES
    case ExternalSeries => EXTERNAL_NAMES
    case MqSeries => MQ_NAMES
  }

  function BroughtTo(b: Brought, which: Which): Option<Update> {
    match which
    case ServerSeries => b.server
    case DbSeries => b.db
    case ExternalSeries => b.external
    case MqSeries => b.mq
  }

  // The spans that count in a family.
  function CountedIn(on: Enabled, heard: seq<Heard>, which: Which): seq<Observed> {
    if heard == [] then []
    else
      var h := heard[|heard| - 1];
      CountedIn(on, heard[..|heard| - 1], which)
      + if BroughtTo(BroughtBy(on, h.o, h.span), which).Some? then [h.span] else []
  }

  ghost predicate HearStep(on: Enabled, t: Told, h: Heard, t': Told) {
    && ValidConnector(t.c)
    && t' == Told(AfterAll(t.c, BroughtBy(on, h.o, h.span)), t.heard + [h])
  }

  ghost predicate ExportsOrFails(t: Told, t': Told) {
    (BuildNext(t.c, t'.c) || FailNext(t.c, t'.c)) && t'.heard == t.heard
  }

  ghost predicate TellNext(on: Enabled, t: Told, t': Told) {
    (exists h :: HearStep(on, t, h, t')) || ExportsOrFails(t, t')
  }

  ghost predicate TellRun(on: Enabled, b: seq<Told>) {
    && b != [] && Start(b[0].c) && b[0].heard == []
    && forall i :: 0 <= i < |b| - 1 ==> TellNext(on, b[i], b[i + 1])
  }

  // One update of a family for each span that counts there, in order, with its duration.
  ghost predicate RecordsAll(updates: seq<Update>, spans: seq<Observed>) {
    |updates| == |spans| && forall i :: 0 <= i < |spans| ==> Records(updates[i], spans[i])
  }

  ghost predicate ToldRight(on: Enabled, t: Told) {
    && RedMetrics.Inv(t.c)
    && forall which :: RecordsAll(SystemOf(t.c, which).received, CountedIn(on, t.heard, which))
  }

  lemma RecordsOneMore(updates: seq<Update>, spans: seq<Observed>, u: Update, span: Observed)
    requires RecordsAll(updates, spans) && Records(u, span)
    ensures RecordsAll(updates + [u], spans + [span])
  {
  }

  lemma HearKeepsInv(c: Connector, on: Enabled, h: Heard)
    requires RedMetrics.Inv(c)
    ensures ValidConnector(c) && RedMetrics.Inv(AfterAll(c, BroughtBy(on, h.o, h.span)))
  {
    var b := StepsOf(c, BroughtBy(on, h.o, h.span));
    forall j | 0 <= j < |b| - 1 && RedMetrics.Inv(b[j]) ensures RedMetrics.Inv(b[j + 1]) {
      assert SpanNext(b[j], b[j + 1]);
      NextKeeps(b[j], b[j + 1]);
    }
    HoldsAlong(b, (x: Connector) => RedMetrics.Inv(x), |b| - 1);
  }

  lemma BroughtRecords(on: Enabled, h: Heard, which: Which)
    ensures var u := BroughtTo(BroughtBy(on, h.o, h.span), which);
            u.Some? ==> Records(u.value, h.span)
  {
    RecordsTheDuration(on, h.o, h.span);
  }

  lemma AfterAllReceives(c: Connector, b: Brought, which: Which)
    requires ValidConnector(c) && b.Sized()
    ensures SystemOf(AfterAll(c, b), which).received
         == SystemOf(c, which).received + if BroughtTo(b, which).Some? then [BroughtTo(b, which).value] else []
  {
  }

  lemma HearTells(on: Enabled, t: Told, h: Heard, t': Told, which: Which)
    requires HearStep(on, t, h, t') && RecordsAll(SystemOf(t.c, which).received, CountedIn(on, t.heard, which))
    ensures RecordsAll(SystemOf(t'.c, which).received, CountedIn(on, t'.heard, which))
  {
    var u := BroughtTo(BroughtBy(on, h.o, h.span), which);
    BroughtRecords(on, h, which);
    AfterAllReceives(t.c, BroughtBy(on, h.o, h.span), which);
    assert t'.heard[..|t.heard|] == t.heard;
    if u.Some? {
      RecordsOneMore(SystemOf(t.c, which).received, CountedIn(on, t.heard, which), u.value, h.span);
    }
  }

  ghost predicate HearsNothing(c: Connector, c': Connector) {
    && c'.server.received == c.server.received && c'.db.received == c.db.received
    && c'.external.received == c.external.received && c'.mq.received == c.mq.received
  }

  lemma BuildHears(c: Connector, v: Visits, c': Connector)
    requires Build(c, v, c')
    ensures HearsNothing(c, c')
  {
  }

  lemma FailureHears(c: Connector, v: Visits, missing: MetricKey, c': Connector)
    requires RedMetrics.Inv(c) && BuildFails(c, v, missing, c')
    ensures HearsNothing(c, c')
  {
    FailureIsExternal(c, v, missing, c');
  }

  lemma ExportHears(t: Told, t': Told)
    requires RedMetrics.Inv(t.c) && ExportsOrFails(t, t')
    ensures HearsNothing(t.c, t'.c)
  {
    if BuildNext(t.c, t'.c) {
      var v :| Build(t.c, v, t'.c);
      BuildHears(t.c, v, t'.c);
    } else {
      var v, missing :| BuildFails(t.c, v, missing, t'.c);
      FailureHears(t.c, v, missing, t'.c);
    }
  }

  lemma ExportKeepsInv(t: Told, t': Told)
    requires RedMetrics.Inv(t.c) && ExportsOrFails(t, t')
    ensures RedMetrics.Inv(t'.c)
  {
    NextKeeps(t.c, t'.c);
  }

  lemma TellKeeps(on: Enabled, t: Told, t': Told)
    requires ToldRight(on, t) && TellNext(on, t, t')
    ensures ToldRight(on, t')
  {
    if h :| HearStep(on, t, h, t') {
      HearKeepsInv(t.c, on, h);
      forall which ensures RecordsAll(SystemOf(t'.c, which).received, CountedIn(on, t'.heard, which)) {
        HearTells(on, t, h, t', which);
      }
    } else {
      ExportKeepsInv(t, t');
      ExportHears(t, t');
      forall which ensures RecordsAll(SystemOf(t'.c, which).received, CountedIn(on, t'.heard, which)) {
        assert SystemOf(t'.c, which).received == SystemOf(t.c, which).received;
      }
    }
  }

  // Over every run the updates of a family are the durations of the spans that count there.
  lemma RunIsToldRight(on: Enabled, b: seq<Told>, i: nat)
    requires TellRun(on, b) && i < |b|
    ensures ToldRight(on, b[i])
  {
    StartHasInv(b[0].c);
    forall j | 0 <= j < |b| - 1 && ToldRight(on, b[j]) ensures ToldRight(on, b[j + 1]) {
      TellKeeps(on, b[j], b[j + 1]);
    }
    HoldsAlong(b, (t: Told) => ToldRight(on, t), i);
  }

  // ---------------------------------------------------------------- what a point adds up

  function Starts(spans: seq<Observed>): real {
    if spans == [] then 0.0 else Starts(spans[..|spans| - 1]) + spans[|spans| - 1].start as real
  }

  function Ends(spans: seq<Observed>): real {
    if spans == [] then 0.0 else Ends(spans[..|spans| - 1]) + spans[|spans| - 1].end as real
  }

  lemma {:induction false} DurationsAddUp(updates: seq<Update>, spans: seq<Observed>)
    requires RecordsAll(updates, spans)
    ensures TotalLatency(updates) == Ends(spans) - Starts(spans)
    decreases |spans|
  {
    if spans != [] {
      var n := |spans| - 1;
      assert RecordsAll(updates[..n], spans[..n]);
      DurationsAddUp(updates[..n], spans[..n]);
      assert Records(updates[n], spans[n]);
    }
  }

  // The spans behind some of the updates.
  lemma {:induction false} SpansBehind(all: seq<Update>, spans: seq<Observed>, updates: seq<Update>)
    returns (behind: seq<Observed>)
    requires RecordsAll(all, spans) && forall u :: u in updates ==> u in all
    ensures RecordsAll(updates, behind) && forall s :: s in behind ==> s in spans
    decreases |updates|
  {
    if updates == [] {
      behind := [];
    } else {
      var n := |updates| - 1;
      assert updates[n] in all;
      var i :| 0 <= i < |all| && all[i] == updates[n];
      assert Records(all[i], spans[i]);
      var before := SpansBehind(all, spans, updates[..n]);
      RecordsOneMore(updates[..n], before, updates[n], spans[i]);
      assert updates == updates[..n] + [updates[n]];
      behind := before + [spans[i]];
    }
  }

  lemma PointUpdatesCame(names: seq<string>, s: System, visit: seq<MetricKey>, i: nat)
    requires names != [] && MetricFamilies.Inv(names, s)
    requires Ranges(visit, s.family.hists) && AllHeld(s.family.dims, visit) && i < |visit|
    ensures forall u :: u in Points(s.family, visit)[i].updates ==> u in s.received
  {
    PointsAreFaithful(names, s, visit, i);
  }

  lemma ValuesOfRecorded(log: Log, f: Family, visit: seq<MetricKey>, i: nat, behind: seq<Observed>)
    requires AllHeld(f.dims, visit) && i < |visit| && RecordsAll(Points(f, visit)[i].updates, behind)
    ensures var h := VmHistograms.HistOf(log, Latencies(Points(f, visit)[i].updates));
            && h.lower + Total(h.counts) + h.upper == |behind|
            && h.sum == Ends(behind) - Starts(behind) && !h.infinite
  {
    var updates := Points(f, visit)[i].updates;
    assert forall k :: 0 <= k < |updates| ==> Records(updates[k], behind[k]);
    DurationsAddUp(updates, behind);
    PointIsHistogramOfItsSpans(log, f, visit, i);
  }

  // The count of a point is the number of spans behind it and its sum is their ends less their starts.
  lemma PointAddsUpItsSpans(log: Log, on: Enabled, b: seq<Told>, which: Which, visit: seq<MetricKey>, i: nat)
    returns (behind: seq<Observed>)
    requires TellRun(on, b)
    requires var f := SystemOf(b[|b| - 1].c, which).family;
             Ranges(visit, f.hists) && AllHeld(f.dims, visit) && i < |visit|
    ensures var t := b[|b| - 1];
            var updates := Points(SystemOf(t.c, which).family, visit)[i].updates;
            var h := VmHistograms.HistOf(log, Latencies(updates));
            && (forall s :: s in behind ==> s in CountedIn(on, t.heard, which))
            && |behind| == |updates| && h.lower + Total(h.counts) + h.upper == |behind|
            && h.sum == Ends(behind) - Starts(behind) && !h.infinite
  {
    var t := b[|b| - 1];
    var s := SystemOf(t.c, which);
    RunIsToldRight(on, b, |b| - 1);
    InvOfFamily(t.c, which);
    behind := BehindPoint(s, NamesOf(which), CountedIn(on, t.heard, which), visit, i);
    ValuesOfRecorded(log, s.family, visit, i, behind);
  }

  lemma BehindPoint(s: System, names: seq<string>, spans: seq<Observed>, visit: seq<MetricKey>, i: nat)
    returns (behind: seq<Observed>)
    requires names != [] && MetricFamilies.Inv(names, s) && RecordsAll(s.received, spans)
    requires Ranges(visit, s.family.hists) && AllHeld(s.family.dims, visit) && i < |visit|
    ensures RecordsAll(Points(s.family, visit)[i].updates, behind) && forall x :: x in behind ==> x in spans
  {
    PointUpdatesCame(names, s, visit, i);
    behind := SpansBehind(s.received, spans, Points(s.family, visit)[i].updates);
  }

  lemma InvOfFamily(c: Connector, which: Which)
    requires RedMetrics.Inv(c)
    ensures MetricFamilies.Inv(NamesOf(which), SystemOf(c, which))
  {
  }
}
