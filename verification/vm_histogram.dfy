// The VictoriaMetrics histogram: 27 decimal ranges of 18 buckets each, allocated when first hit.
module VmHistograms {

  const BUCKETS_PER_DECIMAL := 18
  const DECIMAL_BUCKETS := 27
  const BUCKETS := 486

  // The 64-bit floats: the finite ones as reals, without their rounding.
  datatype Float = NaN | MinusInf | PlusInf | Number(v: real)

  // NaN and negative values are skipped.
  predicate Skipped(f: Float) {
    match f
    case NaN => true
    case MinusInf => true
    case PlusInf => false
    case Number(v) => v < 0.0
  }

  function Amount(f: Float): real {
    if Skipped(f) || f == PlusInf then 0.0 else f.v
  }

  // The scaled logarithm of a value that is not skipped: (log10(v) + 9) * 18.
  datatype Scaled = MinusInfinity | PlusInfinity | At(x: real)

  // What log10 is does not matter, only that it is minus infinity for zero and infinity for infinity.
  type Log = real -> real

  function ScaledOf(log: Log, f: Float): Scaled
    requires !Skipped(f)
  {
    if f == PlusInf then PlusInfinity else if f.v == 0.0 then MinusInfinity else At((log(f.v) + 9.0) * 18.0)
  }

  // ---------------------------------------------------------------- where a value counts

  datatype Place = Ignored | Lower | Upper | Bucket(i: nat)

  // The bucket of Update: the integer part, one less for an integer that is not 0.
  function PlaceOf(log: Log, f: Float): (p: Place)
    ensures p.Bucket? ==> p.i < BUCKETS
    ensures p == Ignored <==> Skipped(f)
  {
    if Skipped(f) then Ignored
    else
      match ScaledOf(log, f)
      case MinusInfinity => Lower
      case PlusInfinity => Upper
      case At(x) =>
        if x < 0.0 then Lower
        else if x >= BUCKETS as real then Upper
        else
          var idx := x.Floor;
          Bucket(if x == idx as real && idx > 0 then idx - 1 else idx)
  }

  // The range of each place, as VisitNonZeroBuckets labels it: without the lower bound, with the upper.
  ghost predicate InRange(p: Place, s: Scaled) {
    match p
    case Ignored => false
    case Lower => s == MinusInfinity || (s.At? && s.x <= 0.0)
    case Upper => s == PlusInfinity || (s.At? && s.x > BUCKETS as real)
    case Bucket(i) => s.At? && i as real < s.x <= (i + 1) as real
  }

  // Zero counts below all buckets, infinity above; a number that is not negative always counts.
  lemma CountedExactly(log: Log, f: Float)
    ensures PlaceOf(log, f) == Ignored <==> f == NaN || f == MinusInf || (f.Number? && f.v < 0.0)
    ensures PlaceOf(log, Number(0.0)) == Lower && PlaceOf(log, PlusInf) == Upper
  {
  }

  // A counted value is in the labelled range of its place if and only if it is neither the lowest nor
  // the highest bound.
  lemma RangeRule(log: Log, f: Float)
    requires !Skipped(f)
    ensures var s := ScaledOf(log, f);
            InRange(PlaceOf(log, f), s) <==> s != At(0.0) && s != At(BUCKETS as real)
  {
    var s := ScaledOf(log, f);
    if s.At? && 0.0 <= s.x < BUCKETS as real {
      var idx := s.x.Floor;
      assert idx as real <= s.x < (idx + 1) as real;
    }
  }

  // Those two, 1e-9 and 1e18, are counted one place too high.
  lemma OuterBoundsAreMisplaced(log: Log, v: real)
    requires v > 0.0
    ensures log(v) == -9.0 ==>
              && ScaledOf(log, Number(v)) == At(0.0) && PlaceOf(log, Number(v)) == Bucket(0)
              && InRange(Lower, At(0.0)) && !InRange(Bucket(0), At(0.0))
    ensures log(v) == 18.0 ==>
              && ScaledOf(log, Number(v)) == At(486.0) && PlaceOf(log, Number(v)) == Upper
              && InRange(Bucket(485), At(486.0)) && !InRange(Upper, At(486.0))
  {
    assert (0.0 as real).Floor == 0;
  }

  ghost predicate IsPlace(p: Place) {
    p.Bucket? ==> p.i < BUCKETS
  }

  // The ranges split the scaled axis: every value is in exactly one of them.
  lemma RangesAreDisjoint(p: Place, q: Place, s: Scaled)
    requires IsPlace(p) && IsPlace(q) && InRange(p, s) && InRange(q, s)
    ensures p == q
  {
    if p.Bucket? && q.Bucket? {
      assert p.i as real < (q.i + 1) as real && (q.i as real) < (p.i + 1) as real;
    }
  }

  lemma RangesCover(s: Scaled) returns (p: Place)
    ensures IsPlace(p) && InRange(p, s)
  {
    if s == MinusInfinity || (s.At? && s.x <= 0.0) {
      p := Lower;
    } else if s == PlusInfinity || s.x > BUCKETS as real {
      p := Upper;
    } else {
      var idx := s.x.Floor;
      p := Bucket(if s.x == idx as real then idx - 1 else idx);
    }
  }

  // ---------------------------------------------------------------- the histogram of some observations

  // The float sum is `sum`, or infinity if an infinite value was added to it.
  datatype Hist = Hist(lower: nat, upper: nat, sum: real, infinite: bool, counts: seq<nat>)

  const EMPTY_HIST := Hist(0, 0, 0.0, false, seq(BUCKETS, i => 0))

  function CountAt(log: Log, obs: seq<Float>, p: Place): nat {
    if obs == [] then 0
    else CountAt(log, obs[..|obs| - 1], p) + if PlaceOf(log, obs[|obs| - 1]) == p then 1 else 0
  }

  // The sum of the finite values that are not skipped, and whether there was an infinite one.
  function SumOf(obs: seq<Float>): real {
    if obs == [] then 0.0 else SumOf(obs[..|obs| - 1]) + Amount(obs[|obs| - 1])
  }

  function HistOf(log: Log, obs: seq<Float>): (h: Hist)
    ensures |h.counts| == BUCKETS
  {
    Hist(CountAt(log, obs, Lower), CountAt(log, obs, Upper), SumOf(obs), PlusInf in obs,
         seq(BUCKETS, i requires 0 <= i < BUCKETS => CountAt(log, obs, Bucket(i))))
  }

  function Plus(a: Hist, b: Hist): Hist
    requires |a.counts| == |b.counts| == BUCKETS
  {
    Hist(a.lower + b.lower, a.upper + b.upper, a.sum + b.sum, a.infinite || b.infinite,
         seq(BUCKETS, i requires 0 <= i < BUCKETS => a.counts[i] + b.counts[i]))
  }

  lemma {:induction false} CountAtConcat(log: Log, xs: seq<Float>, ys: seq<Float>, p: Place)
    ensures CountAt(log, xs + ys, p) == CountAt(log, xs, p) + CountAt(log, ys, p)
  {
    if ys == [] {
      assert xs + ys == xs;
    } else {
      CountAtConcat(log, xs, ys[..|ys| - 1], p);
      assert (xs + ys)[..|xs + ys| - 1] == xs + ys[..|ys| - 1];
    }
  }

  lemma {:induction false} SumOfConcat(xs: seq<Float>, ys: seq<Float>)
    ensures SumOf(xs + ys) == SumOf(xs) + SumOf(ys)
  {
    if ys == [] {
      assert xs + ys == xs;
    } else {
      SumOfConcat(xs, ys[..|ys| - 1]);
      assert (xs + ys)[..|xs + ys| - 1] == xs + ys[..|ys| - 1];
    }
  }

  // The numbers that count, and their sum.
  function ValueOf(f: Float): seq<real> {
    if f.Number? && 0.0 <= f.v then [f.v] else []
  }

  function Values(obs: seq<Float>): seq<real> {
    if obs == [] then [] else Values(obs[..|obs| - 1]) + ValueOf(obs[|obs| - 1])
  }

  function Added(vs: seq<real>): real {
    if vs == [] then 0.0 else Added(vs[..|vs| - 1]) + vs[|vs| - 1]
  }

  lemma AddedOneMore(vs: seq<real>, f: Float)
    ensures Added(vs + ValueOf(f)) == Added(vs) + Amount(f)
  {
    if ValueOf(f) == [] {
      assert vs + ValueOf(f) == vs;
    } else {
      assert (vs + ValueOf(f))[..|vs|] == vs;
    }
  }

  lemma ValuesOneMore(obs: seq<Float>)
    requires obs != []
    ensures Added(Values(obs)) == Added(Values(obs[..|obs| - 1])) + Amount(obs[|obs| - 1])
  {
    AddedOneMore(Values(obs[..|obs| - 1]), obs[|obs| - 1]);
  }

  lemma {:induction false} SumIsOfValues(obs: seq<Float>)
    ensures SumOf(obs) == Added(Values(obs))
  {
    if obs != [] {
      SumIsOfValues(obs[..|obs| - 1]);
      ValuesOneMore(obs);
    }
  }

  // The sum of a histogram is that of its numbers, and infinite exactly if an infinite value was among them.
  lemma HistSumIsOfValues(log: Log, obs: seq<Float>)
    ensures HistOf(log, obs).sum == Added(Values(obs))
    ensures HistOf(log, obs).infinite <==> exists i :: 0 <= i < |obs| && obs[i] == PlusInf
  {
    SumIsOfValues(obs);
  }

  // Merging the histograms of two runs of observations gives the histogram of both.
  lemma MergeIsHomomorphism(log: Log, xs: seq<Float>, ys: seq<Float>)
    ensures Plus(HistOf(log, xs), HistOf(log, ys)) == HistOf(log, xs + ys)
  {
    CountAtConcat(log, xs, ys, Lower);
    CountAtConcat(log, xs, ys, Upper);
    SumOfConcat(xs, ys);
    forall i | 0 <= i < BUCKETS
      ensures Plus(HistOf(log, xs), HistOf(log, ys)).counts[i] == HistOf(log, xs + ys).counts[i]
    {
      CountAtConcat(log, xs, ys, Bucket(i));
    }
  }

  function Total(counts: seq<nat>): nat {
    if counts == [] then 0 else Total(counts[..|counts| - 1]) + counts[|counts| - 1]
  }

  // How many observations count at all.
  function Accepted(obs: seq<Float>): nat {
    if obs == [] then 0
    else Accepted(obs[..|obs| - 1]) + if Skipped(obs[|obs| - 1]) then 0 else 1
  }

  lemma {:induction false} TotalOfBump(counts: seq<nat>, i: nat)
    requires i < |counts|
    ensures Total(counts[i := counts[i] + 1]) == Total(counts) + 1
  {
    var n := |counts| - 1;
    var bumped := counts[i := counts[i] + 1];
    if i < n {
      TotalOfBump(counts[..n], i);
      assert bumped[..n] == counts[..n][i := counts[..n][i] + 1];
    } else {
      assert bumped[..n] == counts[..n];
    }
  }

  lemma {:induction false} TotalOfZeros(n: nat)
    ensures Total(seq(n, i => 0)) == 0
  {
    if n > 0 {
      TotalOfZeros(n - 1);
      assert seq(n, i => 0)[..n - 1] == seq(n - 1, i => 0);
    }
  }

  // The counters add up to the number of accepted observations.
  lemma {:induction false} CountersSumToAccepted(log: Log, obs: seq<Float>)
    ensures var h := HistOf(log, obs); h.lower + Total(h.counts) + h.upper == Accepted(obs)
  {
    var h := HistOf(log, obs);
    if obs == [] {
      assert h.counts == seq(BUCKETS, i => 0);
      TotalOfZeros(BUCKETS);
    } else {
      var n := |obs| - 1;
      var before := HistOf(log, obs[..n]);
      CountersSumToAccepted(log, obs[..n]);
      match PlaceOf(log, obs[n])
      case Bucket(i) =>
        assert h.counts == before.counts[i := before.counts[i] + 1];
        TotalOfBump(before.counts, i);
      case _ =>
        assert h.counts == before.counts;
    }
  }

  // ---------------------------------------------------------------- reading

  function CountIn(h: Hist, p: Place): nat
    requires IsPlace(p) && |h.counts| == BUCKETS
  {
    match p
    case Ignored => 0
    case Lower => h.lower
    case Upper => h.upper
    case Bucket(i) => h.counts[i]
  }

  datatype Visited = Visited(place: Place, count: nat)

  function NonZero(p: Place, count: nat): seq<Visited> {
    if count > 0 then [Visited(p, count)] else []
  }

  // The non-zero buckets among the first n, in order.
  function NonZeroBuckets(counts: seq<nat>, n: nat): seq<Visited>
    requires n <= |counts|
  {
    if n == 0 then [] else NonZeroBuckets(counts, n - 1) + NonZero(Bucket(n - 1), counts[n - 1])
  }

  function NonZeroPlaces(h: Hist): seq<Visited> {
    NonZero(Lower, h.lower) + NonZeroBuckets(h.counts, |h.counts|) + NonZero(Upper, h.upper)
  }

  function Rank(p: Place): int {
    match p
    case Ignored => -2
    case Lower => -1
    case Bucket(i) => i
    case Upper => BUCKETS
  }

  // The places that hold anything, each once, the lowest first.
  ghost predicate Ascending(visits: seq<Visited>, end: int) {
    && (forall k :: 0 <= k < |visits| ==> -2 < Rank(visits[k].place) < end)
    && forall j, k :: 0 <= j < k < |visits| ==> Rank(visits[j].place) < Rank(visits[k].place)
  }

  lemma AscendingOneMore(visits: seq<Visited>, i: nat, count: nat)
    requires Ascending(visits, i)
    ensures Ascending(visits + NonZero(Bucket(i), count), i + 1)
  {
  }

  lemma {:induction false} BucketVisited(counts: seq<nat>, n: nat, v: Visited)
    requires n <= |counts|
    ensures v in NonZeroBuckets(counts, n)
            <==> v.place.Bucket? && v.place.i < n && v.count > 0 && v.count == counts[v.place.i]
  {
    if n > 0 {
      BucketVisited(counts, n - 1, v);
    }
  }

  lemma {:induction false} BucketsAscend(counts: seq<nat>, n: nat)
    requires n <= |counts|
    ensures Ascending(NonZeroBuckets(counts, n), n)
  {
    if n > 0 {
      BucketsAscend(counts, n - 1);
      AscendingOneMore(NonZeroBuckets(counts, n - 1), n - 1, counts[n - 1]);
    }
  }

  lemma OuterVisited(buckets: seq<Visited>, lower: nat, upper: nat)
    requires Ascending(buckets, BUCKETS) && forall k :: 0 <= k < |buckets| ==> buckets[k].place != Lower
    ensures Ascending(NonZero(Lower, lower) + buckets + NonZero(Upper, upper), BUCKETS + 1)
  {
  }

  lemma VisitedExactly(h: Hist, p: Place, count: nat)
    requires |h.counts| == BUCKETS && IsPlace(p)
    ensures Ascending(NonZeroPlaces(h), BUCKETS + 1)
    ensures Visited(p, count) in NonZeroPlaces(h) <==> p != Ignored && count > 0 && count == CountIn(h, p)
  {
    var buckets := NonZeroBuckets(h.counts, |h.counts|);
    BucketsAscend(h.counts, |h.counts|);
    forall k | 0 <= k < |buckets| ensures buckets[k].place.Bucket? {
      BucketVisited(h.counts, |h.counts|, buckets[k]);
    }
    OuterVisited(buckets, h.lower, h.upper);
    BucketVisited(h.counts, |h.counts|, Visited(p, count));
    assert Visited(p, count) in NonZeroPlaces(h)
       <==> Visited(p, count) in buckets || Visited(p, count) in NonZero(Lower, h.lower)
            || Visited(p, count) in NonZero(Upper, h.upper);
  }

  // A range that was never allocated adds nothing to the visit.
  lemma {:induction false} SkipZeros(counts: seq<nat>, from: nat, n: nat)
    requires from <= n <= |counts| && forall i :: from <= i < n ==> counts[i] == 0
    ensures NonZeroBuckets(counts, n) == NonZeroBuckets(counts, from)
  {
    if from < n {
      SkipZeros(counts, from, n - 1);
    }
  }
}
