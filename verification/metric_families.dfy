// The four families of histogram series of the connector and their dimensions, over all runs of span
// updates and exports.
module MetricFamilies {
  import opened DimensionCaching
  import opened DimensionKeys

  // One observation: the attribute values of the span and its latency.
  datatype Update = Update(fields: seq<string>, latency: real)

  // A histogram is represented by its observations.
  type Histograms = map<MetricKey, seq<Update>>

  datatype Family = Family(dims: State, hists: Histograms)

  function KeyOf(u: Update): MetricKey {
    MetricKey(Joined(u.fields))
  }

  function DimensionsOf(names: seq<string>, u: Update): Dimensions
    requires |u.fields| == |names|
  {
    Dimensions(Attributes(names, u.fields))
  }

  function HistOf(hists: Histograms, k: MetricKey): seq<Update> {
    if k in hists then hists[k] else []
  }

  // ---------------------------------------------------------------- one span

  // The dimensions are looked up and, if not held, added.
  function Noted(dims: State, key: MetricKey, value: Dimensions): (dims': State)
    requires Valid(dims)
    ensures Valid(dims') && key in dims'.items
    ensures Held(dims') == if key in Held(dims) then Held(dims) else Held(dims)[key := value]
  {
    FetchKeepsHeld(dims, key);
    if key in Held(dims) then Fetched(dims, key)
    else
      AddKeepsHeld(dims, key, value);
      Added(dims, key, value)
  }

  function Aggregated(names: seq<string>, f: Family, u: Update): Family
    requires Valid(f.dims) && |u.fields| == |names|
  {
    Family(Noted(f.dims, KeyOf(u), DimensionsOf(names, u)), f.hists[KeyOf(u) := HistOf(f.hists, KeyOf(u)) + [u]])
  }

  // ---------------------------------------------------------------- one export

  datatype Point = Point(key: MetricKey, dims: Dimensions, updates: seq<Update>)

  // The dimension cache after the collect loop has looked up the keys in some order.
  function Visited(dims: State, visit: seq<MetricKey>): (dims': State)
    requires Valid(dims)
    ensures Valid(dims') && Held(dims') == Held(dims) && dims'.size == dims.size
  {
    if visit == [] then dims
    else
      var before := Visited(dims, visit[..|visit| - 1]);
      FetchKeepsHeld(before, visit[|visit| - 1]);
      Fetched(before, visit[|visit| - 1])
  }

  // The order a map is ranged over: its keys, each once.
  ghost predicate Ranges(visit: seq<MetricKey>, hists: Histograms) {
    Distinct(visit) && forall k :: k in visit <==> k in hists
  }

  ghost predicate AllHeld(dims: State, visit: seq<MetricKey>) {
    forall i :: 0 <= i < |visit| ==> visit[i] in Held(dims)
  }

  function Points(f: Family, visit: seq<MetricKey>): seq<Point>
    requires AllHeld(f.dims, visit)
  {
    seq(|visit|, i requires 0 <= i < |visit| => Point(visit[i], Held(f.dims)[visit[i]], HistOf(f.hists, visit[i])))
  }

  function Kept(hists: Histograms, keep: set<MetricKey>): Histograms {
    map k | k in hists && k in keep :: hists[k]
  }

  // Collect, remove the evicted dimensions, delete the histograms not in `keep`.
  function Exported(f: Family, visit: seq<MetricKey>, keep: set<MetricKey>): Family
    requires Valid(f.dims)
  {
    Family(Visited(f.dims, visit).(evicted := map[]), Kept(f.hists, keep))
  }

  // ---------------------------------------------------------------- a family with its history

  datatype System = System(
    family: Family,
    received: seq<Update>,
    dropped: Histograms,              // the observations of deleted histograms
    exports: seq<seq<Point>>
  )

  ghost predicate Init(s: System) {
    && 0 < s.family.dims.size
    && s == System(Family(DimensionCaching.State(s.family.dims.size, [], map[], map[]), map[]), [], map[], [])
  }

  function AfterSpan(names: seq<string>, s: System, u: Update): System
    requires Valid(s.family.dims) && |u.fields| == |names|
  {
    s.(family := Aggregated(names, s.family, u), received := s.received + [u])
  }

  ghost predicate AggregateStep(names: seq<string>, s: System, u: Update, s': System) {
    && Valid(s.family.dims) && |u.fields| == |names|
    && s' == AfterSpan(names, s, u)
  }

  function DroppedToo(dropped: Histograms, hists: Histograms, keep: set<MetricKey>): Histograms {
    map k | k in dropped.Keys + hists.Keys ::
      HistOf(dropped, k) + if k in keep then [] else HistOf(hists, k)
  }

  function AfterExport(s: System, visit: seq<MetricKey>, keep: set<MetricKey>): System
    requires Valid(s.family.dims) && AllHeld(s.family.dims, visit)
  {
    System(Exported(s.family, visit, keep), s.received, DroppedToo(s.dropped, s.family.hists, keep),
           s.exports + [Points(s.family, visit)])
  }

  ghost predicate ExportStep(s: System, visit: seq<MetricKey>, keep: set<MetricKey>, s': System) {
    && Valid(s.family.dims) && Ranges(visit, s.family.hists) && AllHeld(s.family.dims, visit)
    && s' == AfterExport(s, visit, keep)
  }

  // A collect loop whose points are thrown away: the keys were looked up, nothing else happened.
  ghost predicate LookStep(s: System, visit: seq<MetricKey>, s': System) {
    && Valid(s.family.dims) && AllHeld(s.family.dims, visit)
    && s' == s.(family := Family(Visited(s.family.dims, visit), s.family.hists))
  }

  // A collect loop that comes to a histogram key without dimensions and gives up.
  ghost predicate FailStep(s: System, visit: seq<MetricKey>, missing: MetricKey, s': System) {
    && Distinct(visit) && (forall k :: k in visit ==> k in s.family.hists)
    && missing in s.family.hists && missing !in Held(s.family.dims)
    && LookStep(s, visit, s')
  }

  function OfKey(updates: seq<Update>, k: MetricKey): seq<Update> {
    if updates == [] then []
    else
      var u := updates[|updates| - 1];
      OfKey(updates[..|updates| - 1], k) + if KeyOf(u) == k then [u] else []
  }

  // Every histogram key has its dimensions, in the LRU list or evicted.
  ghost predicate KeysHeld(f: Family) {
    Valid(f.dims) && forall k :: k in f.hists ==> k in Held(f.dims)
  }

  // The dimensions of a key are the attributes of a span with that key.
  ghost predicate Describes(names: seq<string>, received: seq<Update>, k: MetricKey, d: Dimensions) {
    exists i :: 0 <= i < |received| && KeyOf(received[i]) == k && |received[i].fields| == |names|
                && d == DimensionsOf(names, received[i])
  }

  ghost predicate Described(names: seq<string>, s: System) {
    forall k :: k in Held(s.family.dims) ==> Describes(names, s.received, k, Held(s.family.dims)[k])
  }

  // Per key: what came in is what deleted histograms held and, after it, what the histogram holds.
  ghost predicate Conserved(s: System) {
    forall k :: OfKey(s.received, k) == HistOf(s.dropped, k) + HistOf(s.family.hists, k)
  }

  ghost predicate PointsHave(points: seq<Point>, u: Update) {
    exists i :: 0 <= i < |points| && u in points[i].updates
  }

  ghost predicate ExportedIn(exports: seq<seq<Point>>, u: Update) {
    exists e :: 0 <= e < |exports| && PointsHave(exports[e], u)
  }

  // No observation was dropped before it was exported.
  ghost predicate DroppedWereExported(s: System) {
    forall k, i :: k in s.dropped && 0 <= i < |s.dropped[k]| ==> ExportedIn(s.exports, s.dropped[k][i])
  }

  ghost predicate Sized(names: seq<string>, updates: seq<Update>) {
    forall i :: 0 <= i < |updates| ==> |updates[i].fields| == |names|
  }

  // What holds of every family, whatever its values contain and whatever its histograms are pruned by.
  ghost predicate Inv(names: seq<string>, s: System) {
    && Valid(s.family.dims) && Sized(names, s.received)
    && Described(names, s) && Conserved(s) && DroppedWereExported(s)
  }

  // ---------------------------------------------------------------- every step keeps the invariant

  lemma DescribesStays(names: seq<string>, received: seq<Update>, u: Update, k: MetricKey, d: Dimensions)
    requires Describes(names, received, k, d)
    ensures Describes(names, received + [u], k, d)
  {
    var i :| 0 <= i < |received| && KeyOf(received[i]) == k && |received[i].fields| == |names|
             && d == DimensionsOf(names, received[i]);
    assert (received + [u])[i] == received[i];
  }

  lemma AggregateDescribes(names: seq<string>, s: System, u: Update, s': System)
    requires Described(names, s) && AggregateStep(names, s, u, s')
    ensures Described(names, s')
  {
    forall k | k in Held(s'.family.dims) ensures Describes(names, s'.received, k, Held(s'.family.dims)[k]) {
      if k in Held(s.family.dims) {
        DescribesStays(names, s.received, u, k, Held(s.family.dims)[k]);
      } else {
        assert s'.received[|s.received|] == u;
      }
    }
  }

  lemma AggregateKeepsInv(names: seq<string>, s: System, u: Update, s': System)
    requires Inv(names, s) && AggregateStep(names, s, u, s')
    ensures Inv(names, s')
    ensures KeysHeld(s.family) ==> KeysHeld(s'.family)
  {
    AggregateKeepsFamily(names, s.family, u);
    SizedToo(names, s.received, u);
    AggregateDescribes(names, s, u, s');
    AggregateConserves(names, s, u, s');
    SameDrops(s, s');
  }

  lemma AggregateKeepsFamily(names: seq<string>, f: Family, u: Update)
    requires Valid(f.dims) && |u.fields| == |names|
    ensures Valid(Aggregated(names, f, u).dims)
    ensures KeysHeld(f) ==> KeysHeld(Aggregated(names, f, u))
  {
  }

  lemma SizedToo(names: seq<string>, updates: seq<Update>, u: Update)
    requires Sized(names, updates) && |u.fields| == |names|
    ensures Sized(names, updates + [u])
  {
  }

  lemma SameDrops(s: System, s': System)
    requires DroppedWereExported(s) && s'.dropped == s.dropped && s'.exports == s.exports
    ensures DroppedWereExported(s')
  {
  }

  lemma OfKeyOneMore(updates: seq<Update>, u: Update, k: MetricKey)
    ensures OfKey(updates + [u], k) == OfKey(updates, k) + if KeyOf(u) == k then [u] else []
  {
    assert (updates + [u])[..|updates|] == updates;
  }

  lemma HistOneMore(hists: Histograms, u: Update, k: MetricKey)
    ensures HistOf(hists[KeyOf(u) := HistOf(hists, KeyOf(u)) + [u]], k)
            == HistOf(hists, k) + if KeyOf(u) == k then [u] else []
  {
  }

  lemma KeyStaysConserved(received: seq<Update>, dropped: Histograms, hists: Histograms, u: Update, k: MetricKey)
    requires OfKey(received, k) == HistOf(dropped, k) + HistOf(hists, k)
    ensures OfKey(received + [u], k) == HistOf(dropped, k) + HistOf(hists[KeyOf(u) := HistOf(hists, KeyOf(u)) + [u]], k)
  {
    OfKeyOneMore(received, u, k);
    HistOneMore(hists, u, k);
  }

  lemma AggregateConserves(names: seq<string>, s: System, u: Update, s': System)
    requires Conserved(s) && AggregateStep(names, s, u, s')
    ensures Conserved(s')
  {
    forall k ensures OfKey(s'.received, k) == HistOf(s'.dropped, k) + HistOf(s'.family.hists, k) {
      KeyStaysConserved(s.received, s.dropped, s.family.hists, u, k);
    }
  }

  lemma KeyConserved(dropped: Histograms, hists: Histograms, keep: set<MetricKey>, k: MetricKey)
    ensures HistOf(dropped, k) + HistOf(hists, k)
            == HistOf(DroppedToo(dropped, hists, keep), k) + HistOf(Kept(hists, keep), k)
  {
  }

  lemma ExportConserves(s: System, visit: seq<MetricKey>, keep: set<MetricKey>, s': System)
    requires Conserved(s) && ExportStep(s, visit, keep, s')
    ensures Conserved(s')
  {
    forall k ensures OfKey(s'.received, k) == HistOf(s'.dropped, k) + HistOf(s'.family.hists, k) {
      KeyConserved(s.dropped, s.family.hists, keep, k);
    }
  }

  lemma ExportedStays(exports: seq<seq<Point>>, points: seq<Point>, u: Update)
    requires ExportedIn(exports, u) || PointsHave(points, u)
    ensures ExportedIn(exports + [points], u)
  {
    if ExportedIn(exports, u) {
      var e :| 0 <= e < |exports| && PointsHave(exports[e], u);
      assert (exports + [points])[e] == exports[e];
    } else {
      assert (exports + [points])[|exports|] == points;
    }
  }

  // The observations of a key the loop comes by are in that export.
  lemma HistIsExported(f: Family, visit: seq<MetricKey>, k: MetricKey, i: nat)
    requires AllHeld(f.dims, visit) && Ranges(visit, f.hists) && k in f.hists && i < |f.hists[k]|
    ensures PointsHave(Points(f, visit), f.hists[k][i])
  {
    var j :| 0 <= j < |visit| && visit[j] == k;
    assert Points(f, visit)[j].updates == f.hists[k];
  }

  // Where an observation counted as dropped comes from.
  lemma DroppedFrom(dropped: Histograms, hists: Histograms, keep: set<MetricKey>, k: MetricKey, i: nat)
    requires k in DroppedToo(dropped, hists, keep) && i < |DroppedToo(dropped, hists, keep)[k]|
    ensures var u, n := DroppedToo(dropped, hists, keep)[k][i], |HistOf(dropped, k)|;
            if i < n then k in dropped && u == dropped[k][i]
            else k in hists && i - n < |hists[k]| && u == hists[k][i - n]
  {
  }

  lemma DropIsExported(exports: seq<seq<Point>>, points: seq<Point>, dropped: Histograms, hists: Histograms,
                       keep: set<MetricKey>,
                       k: MetricKey, i: nat)
    requires k in DroppedToo(dropped, hists, keep) && i < |DroppedToo(dropped, hists, keep)[k]|
    requires forall j :: k in dropped && 0 <= j < |dropped[k]| ==> ExportedIn(exports, dropped[k][j])
    requires forall j :: k in hists && 0 <= j < |hists[k]| ==> PointsHave(points, hists[k][j])
    ensures ExportedIn(exports + [points], DroppedToo(dropped, hists, keep)[k][i])
  {
    DroppedFrom(dropped, hists, keep, k, i);
    ExportedStays(exports, points, DroppedToo(dropped, hists, keep)[k][i]);
  }

  lemma ExportDropsExported(s: System, visit: seq<MetricKey>, keep: set<MetricKey>, s': System)
    requires DroppedWereExported(s) && ExportStep(s, visit, keep, s')
    ensures DroppedWereExported(s')
  {
    var hists, points := s.family.hists, Points(s.family, visit);
    forall k, j | k in hists && 0 <= j < |hists[k]| ensures PointsHave(points, hists[k][j]) {
      HistIsExported(s.family, visit, k, j);
    }
    forall k, i | k in s'.dropped && 0 <= i < |s'.dropped[k]| ensures ExportedIn(s'.exports, s'.dropped[k][i]) {
      DropIsExported(s.exports, points, s.dropped, hists, keep, k, i);
    }
  }

  lemma EvictedRemoved(dims: State)
    requires Valid(dims)
    ensures Valid(dims.(evicted := map[])) && Held(dims.(evicted := map[])) == dims.items
    ensures forall k :: k in dims.items ==> k in Held(dims) && Held(dims)[k] == dims.items[k]
  {
  }

  lemma ExportKeepsInv(names: seq<string>, s: System, visit: seq<MetricKey>, keep: set<MetricKey>, s': System)
    requires Inv(names, s) && ExportStep(s, visit, keep, s')
    ensures Inv(names, s')
  {
    ExportConserves(s, visit, keep, s');
    ExportDropsExported(s, visit, keep, s');
    EvictedRemoved(Visited(s.family.dims, visit));
  }

  // After an export every histogram key has its dimensions if and only if every key that is kept is
  // in the family's own LRU list.
  lemma ExportKeepsKeysExactly(f: Family, visit: seq<MetricKey>, keep: set<MetricKey>)
    requires Valid(f.dims)
    ensures KeysHeld(Exported(f, visit, keep))
       <==> forall k :: k in f.hists && k in keep ==> k in Visited(f.dims, visit).items
  {
    EvictedRemoved(Visited(f.dims, visit));
    assert forall k :: k in Exported(f, visit, keep).hists <==> k in f.hists && k in keep;
  }

  lemma LookKeepsInv(names: seq<string>, s: System, visit: seq<MetricKey>, s': System)
    requires Inv(names, s) && LookStep(s, visit, s')
    ensures Inv(names, s') && (KeysHeld(s.family) ==> KeysHeld(s'.family))
  {
  }

  // ---------------------------------------------------------------- what an export says

  // Collecting never comes to a key without dimensions, whatever the order.
  lemma CollectNeverFails(f: Family, visit: seq<MetricKey>)
    requires KeysHeld(f) && Ranges(visit, f.hists)
    ensures AllHeld(f.dims, visit)
  {
    forall i | 0 <= i < |visit| ensures visit[i] in Held(f.dims) {
      assert visit[i] in visit;
    }
  }

  lemma {:induction false} OfKeyMembers(updates: seq<Update>, k: MetricKey, u: Update)
    ensures u in OfKey(updates, k) <==> u in updates && KeyOf(u) == k
  {
    if updates != [] {
      var n := |updates| - 1;
      OfKeyMembers(updates[..n], k, u);
      assert updates == updates[..n] + [updates[n]];
    }
  }

  // What is held for a key are the attributes of every NUL-free span with that key.
  lemma HeldDescribesClean(names: seq<string>, s: System, u: Update)
    requires names != [] && Inv(names, s) && |u.fields| == |names| && NulFree(u.fields)
            && KeyOf(u) in Held(s.family.dims)
    ensures Held(s.family.dims)[KeyOf(u)] == DimensionsOf(names, u)
  {
    var k := KeyOf(u);
    var d := Held(s.family.dims)[k];
    assert Describes(names, s.received, k, d);
    var i :| 0 <= i < |s.received| && KeyOf(s.received[i]) == k && |s.received[i].fields| == |names|
             && d == DimensionsOf(names, s.received[i]);
    OnlyList(u.fields, s.received[i].fields);
  }

  // Each point carries all the spans with its key but those of deleted histograms, in the order they
  // came in, and the attributes of a span with its key: those of every NUL-free span behind it.
  lemma PointsAreFaithful(names: seq<string>, s: System, visit: seq<MetricKey>, i: nat)
    requires names != [] && Inv(names, s) && Ranges(visit, s.family.hists) && AllHeld(s.family.dims, visit)
            && i < |visit|
    ensures var p := Points(s.family, visit)[i];
            && OfKey(s.received, p.key) == HistOf(s.dropped, p.key) + p.updates
            && Describes(names, s.received, p.key, p.dims)
            && forall u :: u in p.updates ==>
                 && u in s.received && |u.fields| == |names|
                 && (NulFree(u.fields) ==> p.dims == DimensionsOf(names, u))
  {
    var p := Points(s.family, visit)[i];
    assert p.key in visit;
    forall u | u in p.updates
      ensures u in s.received && |u.fields| == |names| && (NulFree(u.fields) ==> p.dims == DimensionsOf(names, u))
    {
      assert u in HistOf(s.dropped, p.key) + p.updates;
      OfKeyMembers(s.received, p.key, u);
      if NulFree(u.fields) {
        HeldDescribesClean(names, s, u);
      }
    }
  }

  // The point has the family's names as its attributes, no other, and for a NUL-free span each of them
  // is the value the span came with.
  ghost predicate SaysItsValues(names: seq<string>, p: Point) {
    && (forall name :: name in p.dims.attributes <==> name in names)
    && (forall u :: u in p.updates && NulFree(u.fields) ==> |u.fields| == |names| && Says(names, p.dims, u.fields))
  }

  ghost predicate Says(names: seq<string>, dims: Dimensions, vals: seq<string>)
    requires |names| == |vals|
  {
    forall j :: 0 <= j < |names| ==> names[j] in dims.attributes && dims.attributes[names[j]] == vals[j]
  }

  lemma PointSaysItsValues(names: seq<string>, s: System, visit: seq<MetricKey>, i: nat)
    requires names != [] && DistinctNames(names) && Inv(names, s)
    requires Ranges(visit, s.family.hists) && AllHeld(s.family.dims, visit) && i < |visit|
    ensures SaysItsValues(names, Points(s.family, visit)[i])
  {
    var p := Points(s.family, visit)[i];
    PointsAreFaithful(names, s, visit, i);
    DescribesNames(names, s.received, p.key, p.dims);
    forall u | u in p.updates && NulFree(u.fields)
      ensures |u.fields| == |names| && Says(names, p.dims, u.fields)
    {
      AttributesComplete(names, u.fields);
    }
  }

  lemma DescribesNames(names: seq<string>, received: seq<Update>, k: MetricKey, d: Dimensions)
    requires Describes(names, received, k, d)
    ensures forall name :: name in d.attributes <==> name in names
  {
    var i :| 0 <= i < |received| && KeyOf(received[i]) == k && |received[i].fields| == |names|
             && d == DimensionsOf(names, received[i]);
    AttributesNames(names, received[i].fields);
  }

  // After an export every span received so far has been exported.
  lemma EverythingIsExported(names: seq<string>, s: System, visit: seq<MetricKey>, keep: set<MetricKey>, s': System,
                             u: Update)
    requires Inv(names, s) && ExportStep(s, visit, keep, s') && u in s.received
    ensures ExportedIn(s'.exports, u)
  {
    var k := KeyOf(u);
    OfKeyMembers(s.received, k, u);
    if u in HistOf(s.dropped, k) {
      var i :| 0 <= i < |s.dropped[k]| && s.dropped[k][i] == u;
    } else {
      assert u in HistOf(s.family.hists, k);
      var i :| 0 <= i < |s.family.hists[k]| && s.family.hists[k][i] == u;
      HistIsExported(s.family, visit, k, i);
    }
    ExportedStays(s.exports, Points(s.family, visit), u);
  }

  // ---------------------------------------------------------------- which series survive an export

  lemma {:induction false} KeysFitList(keys: set<MetricKey>, order: seq<MetricKey>)
    requires forall k :: k in keys ==> k in order
    ensures |keys| <= |order|
  {
    if order != [] {
      var n := |order| - 1;
      forall k | k in keys - {order[n]} ensures k in order[..n] {
        assert order == order[..n] + [order[n]];
      }
      KeysFitList(keys - {order[n]}, order[..n]);
      assert keys <= keys - {order[n]} + {order[n]};
    } else {
      assert keys == {};
    }
  }

  // A family pruned by its own cache never carries more series than the cache holds.
  lemma ExportBoundsSeries(f: Family, visit: seq<MetricKey>)
    requires Valid(f.dims)
    ensures |Exported(f, visit, Visited(f.dims, visit).items.Keys).hists| <= f.dims.size
  {
    var dims, f' := Visited(f.dims, visit), Exported(f, visit, Visited(f.dims, visit).items.Keys);
    KeysFitList(f'.hists.Keys, dims.order);
  }

  lemma {:induction false} WithoutKeepsFront(order: seq<MetricKey>, key: MetricKey, m: nat)
    requires m <= |order| && key !in order[..m]
    ensures m <= |Without(order, key)| && Without(order, key)[..m] == order[..m]
  {
    if m > 0 {
      assert order[0] == order[..m][0];
      assert order[1..][..m - 1] == order[..m][1..];
      WithoutKeepsFront(order[1..], key, m - 1);
    }
  }

  // The number of visited keys the list has room for.
  function Room(size: nat, n: nat): nat {
    if n < size then n else size
  }

  // The list starts with the keys visited, the last one first.
  ghost predicate VisitedFirst(dims: State, visit: seq<MetricKey>) {
    && Room(dims.size, |visit|) <= |dims.order|
    && forall j :: 0 <= j < Room(dims.size, |visit|) ==> dims.order[j] == visit[|visit| - 1 - j]
  }

  lemma {:induction false} LastVisitedFirst(dims: State, visit: seq<MetricKey>)
    requires Valid(dims) && Distinct(visit) && AllHeld(dims, visit)
    ensures VisitedFirst(Visited(dims, visit), visit)
  {
    if visit != [] {
      var n := |visit| - 1;
      LastVisitedFirst(dims, visit[..n]);
      var before, key := Visited(dims, visit[..n]), visit[n];
      FetchIsOneUse(before, key);
      OneMoreVisited(before, visit, Fetched(before, key));
    }
  }

  lemma OneMoreVisited(before: State, visit: seq<MetricKey>, after: State)
    requires 0 < before.size && visit != [] && Distinct(visit) && VisitedFirst(before, visit[..|visit| - 1])
    requires UsedOne(before, visit[|visit| - 1], after)
    ensures VisitedFirst(after, visit)
  {
    var n := |visit| - 1;
    var m := Room(before.size, n);
    forall j | 0 <= j < m ensures before.order[..m][j] != visit[n] {
      assert visit[..n][n - 1 - j] == visit[n - 1 - j];
    }
    WithoutKeepsFront(before.order, visit[n], m);
    var rest := Without(before.order, visit[n]);
    forall j | 0 <= j < m ensures rest[j] == visit[n - 1 - j] {
      assert rest[j] == rest[..m][j];
      assert rest[..m][j] == before.order[..m][j];
    }
  }

  // As long as the series fit the cache none is deleted; when there are more, those visited last stay,
  // and the order of visiting is the arbitrary one a map is ranged over.
  lemma ExportKeepsLastVisited(f: Family, visit: seq<MetricKey>)
    requires KeysHeld(f) && Ranges(visit, f.hists)
    ensures var f' := Exported(f, visit, Visited(f.dims, visit).items.Keys);
            forall k :: k in f'.hists <==> k in visit[|visit| - Room(f.dims.size, |visit|)..]
  {
    CollectNeverFails(f, visit);
    LastVisitedFirst(f.dims, visit);
    var dims, f' := Visited(f.dims, visit), Exported(f, visit, Visited(f.dims, visit).items.Keys);
    var m := Room(f.dims.size, |visit|);
    var last := visit[|visit| - m..];
    forall k ensures k in f'.hists <==> k in last {
      if k in last {
        var i :| 0 <= i < m && last[i] == k;
        assert dims.order[m - 1 - i] == visit[|visit| - m + i] == k;
        assert visit[|visit| - m + i] in visit;
      }
    }
  }
}
