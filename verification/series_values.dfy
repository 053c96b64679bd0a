// What an exported point says: the histogram of the latencies behind it.
module SeriesValues {
  import opened DimensionCaching
  import opened MetricFamilies
  import opened VmHistograms

  function Latencies(updates: seq<Update>): (obs: seq<Float>)
    ensures |obs| == |updates|
  {
    seq(|updates|, i requires 0 <= i < |updates| => Number(updates[i].latency))
  }

  // Latencies are lengths of spans that end after they start.
  ghost predicate Positive(updates: seq<Update>) {
    forall i :: 0 <= i < |updates| ==> updates[i].latency > 0.0
  }

  // updateHistogram on the histogram object is one more observation of the series: a histogram that
  // reads as the observations so far reads, after Update, as the observations of the longer list.
  lemma UpdateIsOneMore(log: Log, updates: seq<Update>, u: Update)
    ensures Plus(VmHistograms.HistOf(log, Latencies(updates)), VmHistograms.HistOf(log, [Number(u.latency)]))
            == VmHistograms.HistOf(log, Latencies(updates + [u]))
  {
    MergeIsHomomorphism(log, Latencies(updates), [Number(u.latency)]);
    assert Latencies(updates + [u]) == Latencies(updates) + [Number(u.latency)];
  }

  function TotalLatency(updates: seq<Update>): real {
    if updates == [] then 0.0 else TotalLatency(updates[..|updates| - 1]) + updates[|updates| - 1].latency
  }

  lemma {:induction false} AllAccepted(updates: seq<Update>)
    requires Positive(updates)
    ensures Accepted(Latencies(updates)) == |updates| && SumOf(Latencies(updates)) == TotalLatency(updates)
    ensures PlusInf !in Latencies(updates)
  {
    if updates != [] {
      var n := |updates| - 1;
      AllAccepted(updates[..n]);
      assert Latencies(updates)[..n] == Latencies(updates[..n]);
      assert forall i :: 0 <= i <= n ==> Latencies(updates)[i] == Number(updates[i].latency);
    }
  }

  // The values of a point are those of the spans behind it: as many counted as there are spans, their
  // latencies added up, and each place as often as a latency falls there.
  lemma PointIsHistogramOfItsSpans(log: Log, f: Family, visit: seq<MetricKey>, i: nat)
    requires AllHeld(f.dims, visit) && i < |visit| && Positive(Points(f, visit)[i].updates)
    ensures var updates := Points(f, visit)[i].updates;
            var h := VmHistograms.HistOf(log, Latencies(updates));
            && updates == MetricFamilies.HistOf(f.hists, visit[i])
            && h.lower + Total(h.counts) + h.upper == |updates|
            && h.sum == TotalLatency(updates) && !h.infinite
            && forall p :: IsPlace(p) && p != Ignored ==> CountIn(h, p) == CountAt(log, Latencies(updates), p)
  {
    var updates := Points(f, visit)[i].updates;
    CountersSumToAccepted(log, Latencies(updates));
    AllAccepted(updates);
  }
}
