// The histogram object: its counter arrays are allocated and changed in place.
module VmHistogramObjects {
  import opened VmHistograms

  type Rows = rows: seq<seq<nat>> |
    |rows| == DECIMAL_BUCKETS && forall i :: 0 <= i < DECIMAL_BUCKETS ==> |rows[i]| == BUCKETS_PER_DECIMAL
    witness NO_ROWS

  const NO_ROWS: seq<seq<nat>> := seq(DECIMAL_BUCKETS, i => NO_ROW)
  const NO_ROW: seq<nat> := seq(BUCKETS_PER_DECIMAL, i => 0)

  function Flat(rows: Rows): (counts: seq<nat>)
    ensures |counts| == BUCKETS
  {
    seq(BUCKETS, k requires 0 <= k < BUCKETS => rows[k / BUCKETS_PER_DECIMAL][k % BUCKETS_PER_DECIMAL])
  }

  function RowSum(a: seq<nat>, b: seq<nat>): seq<nat>
    requires |a| == |b|
  {
    seq(|a|, i requires 0 <= i < |a| => a[i] + b[i])
  }

  class VmHistogram {
    const decimalBuckets: array<array?<nat>>
    var lower: nat
    var upper: nat
    var sum: real
    var infinite: bool              // whether an infinite value was added to the sum

    ghost predicate Valid()
      reads Counters()
    {
      && decimalBuckets.Length == DECIMAL_BUCKETS
      && (forall i :: 0 <= i < DECIMAL_BUCKETS && decimalBuckets[i] != null ==>
            decimalBuckets[i].Length == BUCKETS_PER_DECIMAL)
      && (forall i, j :: 0 <= i < j < DECIMAL_BUCKETS && decimalBuckets[i] != null ==>
            decimalBuckets[i] != decimalBuckets[j])
    }

    ghost function Counters(): set<object>
      reads decimalBuckets
    {
      {decimalBuckets as object}
      + set i | 0 <= i < decimalBuckets.Length && decimalBuckets[i] != null :: decimalBuckets[i] as object
    }

    ghost function Row(i: nat): (row: seq<nat>)
      requires Valid() && i < DECIMAL_BUCKETS
      reads Counters()
      ensures |row| == BUCKETS_PER_DECIMAL
    {
      if decimalBuckets[i] == null then NO_ROW else decimalBuckets[i][..]
    }

    ghost function AllRows(): Rows
      requires Valid()
      reads Counters()
    {
      seq(DECIMAL_BUCKETS, i requires 0 <= i < DECIMAL_BUCKETS && Valid() reads Counters() => Row(i))
    }

    ghost function View(): (h: Hist)
      requires Valid()
      reads this, Counters()
      ensures |h.counts| == BUCKETS
    {
      Hist(lower, upper, sum, infinite, Flat(AllRows()))
    }

    constructor ()
      ensures Valid() && fresh(Counters()) && View() == EMPTY_HIST
    {
      decimalBuckets := new array?<nat>[DECIMAL_BUCKETS](i => null);
      lower, upper, sum, infinite := 0, 0, 0.0, false;
      new;
      assert AllRows() == NO_ROWS;
    }

    // The counters of one range, allocated if they were not.
    method Allocated(i: nat) returns (db: array<nat>)
      requires Valid() && i < DECIMAL_BUCKETS
      modifies decimalBuckets
      ensures Valid() && fresh(Counters() - old(Counters()))
      ensures db == decimalBuckets[i] && AllRows() == old(AllRows())
    {
      var found := decimalBuckets[i];
      if found == null {
        db := new nat[BUCKETS_PER_DECIMAL](j => 0);
        decimalBuckets[i] := db;
        assert db[..] == NO_ROW;
        RowsKept(i);
      } else {
        db := found;
      }
    }

    twostate lemma RowsKept(i: nat)
      requires old(Valid()) && Valid() && i < DECIMAL_BUCKETS && old(Row(i)) == Row(i)
      requires forall r :: 0 <= r < DECIMAL_BUCKETS && r != i ==> old(Row(r)) == Row(r)
      ensures AllRows() == old(AllRows())
    {
      assert forall r :: 0 <= r < DECIMAL_BUCKETS ==> AllRows()[r] == Row(r);
      assert forall r :: 0 <= r < DECIMAL_BUCKETS ==> old(AllRows()[r]) == old(Row(r));
    }

    // One more in one bucket.
    method Bump(i: nat, offset: nat)
      requires Valid() && i < DECIMAL_BUCKETS && offset < BUCKETS_PER_DECIMAL
      modifies Counters()
      ensures Valid() && fresh(Counters() - old(Counters()))
      ensures AllRows() == old(AllRows())[i := old(AllRows())[i][offset := old(AllRows())[i][offset] + 1]]
    {
      ghost var was := AllRows();
      var db := Allocated(i);
      db[offset] := db[offset] + 1;
      forall r | 0 <= r < DECIMAL_BUCKETS
        ensures AllRows()[r] == if r == i then was[i][offset := was[i][offset] + 1] else was[r] {
        assert AllRows()[r] == Row(r);
      }
    }

    // One range of the merge.
    method MergeRow(i: nat, dbSrc: array<nat>)
      requires Valid() && i < DECIMAL_BUCKETS && dbSrc.Length == BUCKETS_PER_DECIMAL && dbSrc !in Counters()
      modifies Counters()
      ensures Valid() && fresh(Counters() - old(Counters()))
      ensures AllRows() == old(AllRows())[i := RowSum(old(AllRows())[i], dbSrc[..])]
    {
      ghost var was := AllRows();
      var dbDst := Allocated(i);
      AddInto(dbDst, dbSrc);
      forall r | 0 <= r < DECIMAL_BUCKETS ensures AllRows()[r] == if r == i then RowSum(was[i], dbSrc[..]) else was[r] {
        assert AllRows()[r] == Row(r);
      }
    }

    // One more in the bucket of a number, in its range at its offset.
    method CountBucket(idx: nat)
      requires Valid() && idx < BUCKETS
      modifies Counters()
      ensures Valid() && fresh(Counters() - old(Counters()))
      ensures View() == old(View()).(counts := old(View()).counts[idx := old(View()).counts[idx] + 1])
    {
      var decimalBucketIdx, offset := idx / BUCKETS_PER_DECIMAL, idx % BUCKETS_PER_DECIMAL;
      FlatBump(AllRows(), decimalBucketIdx, offset);
      Bump(decimalBucketIdx, offset);
    }

    // Where a value counts.
    method FindPlace(log: Log, v: Float) returns (p: Place)
      requires !Skipped(v)
      ensures p == PlaceOf(log, v)
    {
      var bucketIdx := ScaledOf(log, v);
      if bucketIdx == MinusInfinity || (bucketIdx.At? && bucketIdx.x < 0.0) {
        return Lower;
      } else if bucketIdx == PlusInfinity || bucketIdx.x >= BUCKETS as real {
        return Upper;
      }
      var idx := bucketIdx.x.Floor;
      if bucketIdx.x == idx as real && idx > 0 {
        // A bound between two buckets counts in the lower one.
        idx := idx - 1;
      }
      return Bucket(idx);
    }

    method AddToSum(v: Float)
      requires Valid()
      modifies this`sum, this`infinite
      ensures View() == Summed(old(View()), v)
    {
      sum := sum + Amount(v);
      infinite := infinite || v == PlusInf;
    }

    // One more in one place.
    method CountAt(p: Place)
      requires Valid() && IsPlace(p) && p != Ignored
      modifies this`lower, this`upper, Counters()
      ensures Valid() && fresh(Counters() - old(Counters()))
      ensures View() == Bumped(old(View()), p)
    {
      match p
      case Lower => lower := lower + 1;
      case Upper => upper := upper + 1;
      case Bucket(idx) => CountBucket(idx);
    }

    // Update. NaN and negative values are ignored.
    method Update(log: Log, v: Float)
      requires Valid()
      modifies this, Counters()
      ensures Valid() && fresh(Counters() - old(Counters()))
      ensures View() == Plus(old(View()), HistOf(log, [v]))
    {
      PlusOne(View(), log, v);
      if Skipped(v) {
        return;
      }
      var place := FindPlace(log, v);
      AddToSum(v);
      CountAt(place);
    }

    // Merge. The source is another histogram and shares no counters with this one.
    method Merge(src: VmHistogram)
      requires this != src && Valid() && src.Valid() && Counters() !! src.Counters()
      modifies this, Counters()
      ensures Valid() && fresh(Counters() - old(Counters()))
      ensures src.Valid() && src.View() == old(src.View())
      ensures View() == Plus(old(View()), old(src.View()))
    {
      lower := lower + src.lower;
      upper := upper + src.upper;
      sum := sum + src.sum;
      infinite := infinite || src.infinite;
      FlatMerged(AllRows(), src.AllRows());
      MergeRows(src);
    }

    method MergeRows(src: VmHistogram)
      requires this != src && Valid() && src.Valid() && Counters() !! src.Counters()
      modifies Counters()
      ensures Valid() && fresh(Counters() - old(Counters()))
      ensures src.Valid() && src.AllRows() == old(src.AllRows())
      ensures AllRows() == MergedRows(old(AllRows()), old(src.AllRows()), DECIMAL_BUCKETS)
    {
      ghost var was, theirs := AllRows(), src.AllRows();
      MergedOneMore(was, theirs, 0);
      for i := 0 to DECIMAL_BUCKETS
        invariant Valid() && fresh(Counters() - old(Counters())) && Counters() !! src.Counters()
        invariant src.Valid() && src.AllRows() == theirs
        invariant AllRows() == MergedRows(was, theirs, i)
      {
        MergeOne(src, was, theirs, i);
      }
    }

    // One range of the loop of Merge.
    method MergeOne(src: VmHistogram, ghost was: Rows, ghost theirs: Rows, i: nat)
      requires Valid() && src.Valid() && Counters() !! src.Counters() && i < DECIMAL_BUCKETS
      requires AllRows() == MergedRows(was, theirs, i) && src.AllRows() == theirs
      modifies Counters()
      ensures Valid() && fresh(Counters() - old(Counters()))
      ensures AllRows() == MergedRows(was, theirs, i + 1)
    {
      MergedOneMore(was, theirs, i);
      var dbSrc := src.decimalBuckets[i];
      assert theirs[i] == src.Row(i);
      if dbSrc != null {
        MergeRow(i, dbSrc);
      } else {
        assert theirs[i] == NO_ROW;
        AddNothing(was[i]);
      }
    }

    method ClearRow(i: nat)
      requires Valid() && i < DECIMAL_BUCKETS
      modifies Counters()
      ensures Valid() && Counters() == old(Counters())
      ensures AllRows() == old(AllRows())[i := NO_ROW]
    {
      ghost var was := AllRows();
      var db := decimalBuckets[i];
      if db != null {
        Clear(db);
      }
      forall r | 0 <= r < DECIMAL_BUCKETS ensures AllRows()[r] == if r == i then NO_ROW else was[r] {
        assert AllRows()[r] == Row(r);
      }
    }

    // Reset. The arrays stay allocated.
    method Reset()
      requires Valid()
      modifies this, Counters()
      ensures Valid() && Counters() == old(Counters()) && View() == EMPTY_HIST
    {
      ClearRows();
      lower, upper, sum, infinite := 0, 0, 0.0, false;
      assert View().counts == EMPTY_HIST.counts;
    }

    method ClearRows()
      requires Valid()
      modifies Counters()
      ensures Valid() && Counters() == old(Counters()) && AllRows() == NO_ROWS
    {
      for i := 0 to DECIMAL_BUCKETS
        invariant Valid() && Counters() == old(Counters())
        invariant forall r :: 0 <= r < i ==> AllRows()[r] == NO_ROW
      {
        ClearRow(i);
      }
    }

    // The calls made for one range.
    method VisitRow(i: nat, before: seq<Visited>) returns (visited: seq<Visited>)
      requires Valid() && i < DECIMAL_BUCKETS
      requires before == NonZeroBuckets(Flat(AllRows()), i * BUCKETS_PER_DECIMAL)
      ensures visited == NonZeroBuckets(Flat(AllRows()), (i + 1) * BUCKETS_PER_DECIMAL)
    {
      ghost var rows := AllRows();
      assert rows[i] == Row(i);
      var db := decimalBuckets[i];
      if db == null {
        SkipRow(rows, i);
        visited := before;
      } else {
        visited := VisitRange(db, i, rows, before);
        assert AllRows() == rows;
      }
    }

    // VisitNonZeroBuckets: the calls of the function it is given, in order.
    method VisitNonZeroBuckets() returns (visited: seq<Visited>)
      requires Valid()
      ensures visited == NonZeroPlaces(View())
    {
      var calls := [];
      for i := 0 to DECIMAL_BUCKETS
        invariant calls == NonZeroBuckets(Flat(AllRows()), i * BUCKETS_PER_DECIMAL)
      {
        calls := VisitRow(i, calls);
      }
      visited := (if lower > 0 then [Visited(Lower, lower)] else []) + calls
          + (if upper > 0 then [Visited(Upper, upper)] else []);
    }

    // Read. Each range has its own label.
    method Read() returns (buckets: map<Place, nat>, count: nat, total: real, infiniteTotal: bool)
      requires Valid()
      ensures forall p :: p in buckets ==> IsPlace(p)
      ensures forall p :: IsPlace(p) ==> (p in buckets <==> CountIn(View(), p) > 0)
      ensures forall p :: p in buckets ==> buckets[p] == CountIn(View(), p)
      ensures count == lower + Total(View().counts) + upper
      ensures (total, infiniteTotal) == if count > 0 then (sum, infinite) else (0.0, false)
    {
      var calls := VisitNonZeroBuckets();
      buckets, count, total, infiniteTotal := map[], 0, 0.0, false;
      for i := 0 to |calls|
        invariant buckets == AsMap(calls, i) && count == CountOf(calls, i)
      {
        buckets := buckets[calls[i].place := calls[i].count];
        count := count + calls[i].count;
      }
      PlacesAsMap(View());
      if count > 0 {
        total, infiniteTotal := sum, infinite;
      }
    }
  }

  // What the first n calls write into a map, and their counts together.
  function AsMap(calls: seq<Visited>, n: nat): map<Place, nat>
    requires n <= |calls|
  {
    if n == 0 then map[] else AsMap(calls, n - 1)[calls[n - 1].place := calls[n - 1].count]
  }

  function CountOf(calls: seq<Visited>, n: nat): nat
    requires n <= |calls|
  {
    if n == 0 then 0 else CountOf(calls, n - 1) + calls[n - 1].count
  }

  lemma {:induction false} SamePrefix(a: seq<Visited>, b: seq<Visited>, n: nat)
    requires n <= |a|
    ensures AsMap(a + b, n) == AsMap(a, n) && CountOf(a + b, n) == CountOf(a, n)
  {
    if n > 0 {
      SamePrefix(a, b, n - 1);
    }
  }

  // One call more, or none, for one place.
  lemma OneMoreCall(calls: seq<Visited>, p: Place, count: nat, longer: seq<Visited>)
    requires longer == calls + NonZero(p, count)
    ensures AsMap(longer, |longer|) == if count > 0 then AsMap(calls, |calls|)[p := count] else AsMap(calls, |calls|)
    ensures CountOf(longer, |longer|) == CountOf(calls, |calls|) + count
  {
    if count > 0 {
      SamePrefix(calls, [Visited(p, count)], |calls|);
    } else {
      assert longer == calls;
    }
  }

  // The non-zero buckets below n, as a map.
  function BucketMap(counts: seq<nat>, n: nat): map<Place, nat>
    requires n <= |counts|
  {
    if n == 0 then map[]
    else if counts[n - 1] > 0 then BucketMap(counts, n - 1)[Bucket(n - 1) := counts[n - 1]]
    else BucketMap(counts, n - 1)
  }

  lemma {:induction false} BucketMapHolds(counts: seq<nat>, n: nat, p: Place)
    requires n <= |counts|
    ensures p in BucketMap(counts, n) <==> p.Bucket? && p.i < n && counts[p.i] > 0
    ensures p in BucketMap(counts, n) ==> BucketMap(counts, n)[p] == counts[p.i]
  {
    if n > 0 {
      BucketMapHolds(counts, n - 1, p);
    }
  }

  // The calls start with the lower range, if it was hit; the buckets follow.
  lemma {:induction false} BucketsAfterLower(h: Hist, n: nat)
    requires n <= |h.counts|
    ensures var calls := NonZero(Lower, h.lower) + NonZeroBuckets(h.counts, n);
            && AsMap(calls, |calls|) == (if h.lower > 0 then map[Lower := h.lower] else map[]) + BucketMap(h.counts, n)
            && CountOf(calls, |calls|) == h.lower + Total(h.counts[..n])
  {
    var lower := NonZero(Lower, h.lower);
    if n == 0 {
      assert lower + [] == lower && [] + lower == lower;
      OneMoreCall([], Lower, h.lower, lower);
    } else {
      BucketsAfterLower(h, n - 1);
      OneMoreCall(lower + NonZeroBuckets(h.counts, n - 1), Bucket(n - 1), h.counts[n - 1],
                  lower + NonZeroBuckets(h.counts, n));
      assert h.counts[..n][..n - 1] == h.counts[..n - 1];
    }
  }

  lemma PlacesAsMap(h: Hist)
    requires |h.counts| == BUCKETS
    ensures var calls := NonZeroPlaces(h);
            var buckets := AsMap(calls, |calls|);
            && (forall p :: p in buckets ==> IsPlace(p))
            && (forall p :: IsPlace(p) ==> (p in buckets <==> CountIn(h, p) > 0))
            && (forall p :: p in buckets ==> buckets[p] == CountIn(h, p))
            && CountOf(calls, |calls|) == h.lower + Total(h.counts) + h.upper
  {
    var front := NonZero(Lower, h.lower) + NonZeroBuckets(h.counts, BUCKETS);
    BucketsAfterLower(h, BUCKETS);
    OneMoreCall(front, Upper, h.upper, NonZeroPlaces(h));
    assert h.counts[..BUCKETS] == h.counts;
    forall p: Place
      ensures p in BucketMap(h.counts, BUCKETS) <==> p.Bucket? && p.i < BUCKETS && h.counts[p.i] > 0
      ensures p in BucketMap(h.counts, BUCKETS) ==> BucketMap(h.counts, BUCKETS)[p] == h.counts[p.i]
    {
      BucketMapHolds(h.counts, BUCKETS, p);
    }
  }

  lemma SkipRow(rows: Rows, i: nat)
    requires i < DECIMAL_BUCKETS && rows[i] == NO_ROW
    ensures NonZeroBuckets(Flat(rows), (i + 1) * BUCKETS_PER_DECIMAL)
            == NonZeroBuckets(Flat(rows), i * BUCKETS_PER_DECIMAL)
  {
    SkipZeros(Flat(rows), i * BUCKETS_PER_DECIMAL, (i + 1) * BUCKETS_PER_DECIMAL);
  }

  lemma FlatRow(rows: Rows, i: nat)
    requires i < DECIMAL_BUCKETS
    ensures forall offset :: 0 <= offset < BUCKETS_PER_DECIMAL ==>
              Flat(rows)[i * BUCKETS_PER_DECIMAL + offset] == rows[i][offset]
  {
  }

  // The rows when the first n have been added to.
  function MergedRows(a: Rows, b: Rows, n: nat): Rows
    requires n <= DECIMAL_BUCKETS
  {
    seq(DECIMAL_BUCKETS, i requires 0 <= i < DECIMAL_BUCKETS => if i < n then RowSum(a[i], b[i]) else a[i])
  }

  lemma MergedOneMore(a: Rows, b: Rows, n: nat)
    requires n < DECIMAL_BUCKETS
    ensures MergedRows(a, b, n)[n] == a[n]
    ensures MergedRows(a, b, n + 1) == MergedRows(a, b, n)[n := RowSum(a[n], b[n])]
    ensures MergedRows(a, b, 0) == a
  {
  }

  lemma AddNothing(row: seq<nat>)
    requires |row| == BUCKETS_PER_DECIMAL
    ensures RowSum(row, NO_ROW) == row
  {
  }

  lemma FlatMerged(a: Rows, b: Rows)
    ensures Flat(MergedRows(a, b, DECIMAL_BUCKETS))
            == seq(BUCKETS, k requires 0 <= k < BUCKETS => Flat(a)[k] + Flat(b)[k])
  {
    var merged := MergedRows(a, b, DECIMAL_BUCKETS);
    forall k | 0 <= k < BUCKETS ensures Flat(merged)[k] == Flat(a)[k] + Flat(b)[k] {
      assert merged[k / BUCKETS_PER_DECIMAL] == RowSum(a[k / BUCKETS_PER_DECIMAL], b[k / BUCKETS_PER_DECIMAL]);
    }
  }

  lemma FlatBump(rows: Rows, i: nat, offset: nat)
    requires i < DECIMAL_BUCKETS && offset < BUCKETS_PER_DECIMAL
    ensures var k := i * BUCKETS_PER_DECIMAL + offset;
            Flat(rows[i := rows[i][offset := rows[i][offset] + 1]]) == Flat(rows)[k := Flat(rows)[k] + 1]
  {
  }

  // One more in one place.
  function Bumped(h: Hist, p: Place): Hist
    requires |h.counts| == BUCKETS && IsPlace(p)
  {
    match p
    case Ignored => h
    case Lower => h.(lower := h.lower + 1)
    case Upper => h.(upper := h.upper + 1)
    case Bucket(i) => h.(counts := h.counts[i := h.counts[i] + 1])
  }

  // One more value in the sum.
  function Summed(h: Hist, v: Float): Hist {
    h.(sum := h.sum + Amount(v), infinite := h.infinite || v == PlusInf)
  }

  // The histogram with one more observation.
  function Counted(h: Hist, log: Log, v: Float): Hist
    requires |h.counts| == BUCKETS
  {
    if PlaceOf(log, v) == Ignored then h else Bumped(Summed(h, v), PlaceOf(log, v))
  }

  lemma CountOfOne(log: Log, v: Float, p: Place)
    ensures CountAt(log, [v], p) == if PlaceOf(log, v) == p then 1 else 0
  {
    assert [v][..0] == [];
  }

  lemma CountsOfOne(h: Hist, log: Log, v: Float, k: nat)
    requires |h.counts| == BUCKETS && k < BUCKETS
    ensures Plus(h, HistOf(log, [v])).counts[k] == h.counts[k] + if PlaceOf(log, v) == Bucket(k) then 1 else 0
  {
    CountOfOne(log, v, Bucket(k));
  }

  lemma PlusOne(h: Hist, log: Log, v: Float)
    requires |h.counts| == BUCKETS
    ensures Plus(h, HistOf(log, [v])) == Counted(h, log, v)
  {
    CountOfOne(log, v, Lower);
    CountOfOne(log, v, Upper);
    assert SumOf([v]) == Amount(v) by {
      assert [v][..0] == [];
    }
    forall k | 0 <= k < BUCKETS ensures Plus(h, HistOf(log, [v])).counts[k] == Counted(h, log, v).counts[k] {
      CountsOfOne(h, log, v, k);
    }
    assert Plus(h, HistOf(log, [v])).counts == Counted(h, log, v).counts;
  }

  method Clear(db: array<nat>)
    requires db.Length == BUCKETS_PER_DECIMAL
    modifies db
    ensures db[..] == NO_ROW
  {
    for j := 0 to db.Length
      invariant forall k :: 0 <= k < j ==> db[k] == 0
    {
      db[j] := 0;
    }
  }

  // The calls made for one allocated range.
  method VisitRange(db: array<nat>, i: nat, ghost rows: Rows, before: seq<Visited>) returns (visited: seq<Visited>)
    requires i < DECIMAL_BUCKETS && db[..] == rows[i]
    requires before == NonZeroBuckets(Flat(rows), i * BUCKETS_PER_DECIMAL)
    ensures visited == NonZeroBuckets(Flat(rows), (i + 1) * BUCKETS_PER_DECIMAL)
  {
    visited := before;
    ghost var counts := Flat(rows);
    FlatRow(rows, i);
    for offset := 0 to db.Length
      invariant visited == NonZeroBuckets(counts, i * BUCKETS_PER_DECIMAL + offset)
    {
      ghost var k := i * BUCKETS_PER_DECIMAL + offset;
      assert counts[k] == rows[i][offset] == db[offset];
      assert NonZeroBuckets(counts, k + 1) == NonZeroBuckets(counts, k) + NonZero(Bucket(k), counts[k]);
      if db[offset] > 0 {
        visited := visited + [Visited(Bucket(i * BUCKETS_PER_DECIMAL + offset), db[offset])];
      }
    }
  }

  method AddInto(dst: array<nat>, src: array<nat>)
    requires dst != src && dst.Length == src.Length
    modifies dst
    ensures dst[..] == RowSum(old(dst[..]), src[..])
  {
    for j := 0 to src.Length
      invariant forall k :: 0 <= k < j ==> dst[k] == old(dst[k]) + src[k]
      invariant forall k :: j <= k < dst.Length ==> dst[k] == old(dst[k])
    {
      dst[j] := dst[j] + src[j];
    }
  }
}
