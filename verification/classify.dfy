/** `classify_sample`: the whole classification of one query against the training
    set — partition, run the workers, gather, sort, tally and vote. */
module Classifier {
  import opened Common
  import opened Samples
  import opened Distance
  import opened Partition
  import opened Worker
  import opened Gathering
  import opened Vote

  /** The one-based predicted class and the per-class vote counts behind it. */
  datatype Prediction = Prediction(predicted: int, histogram: seq<nat>)

  /** Contents of a freshly allocated record slot; nothing depends on its value. */
  const Unset := Record(0.0, 0)

  /** Every training sample carries a class id the histogram has a slot for. */
  predicate TrainingClassesInRange(samples: seq<Sample>)
  {
    forall i :: 0 <= i < |samples| ==> 0 <= samples[i].classId < ClassCount
  }

  /** The records of the `k` training samples nearest the query, in the order the
      sort leaves them. */
  function Nearest(C: Compressor, query: Sample, samples: seq<Sample>, k: nat): (r: seq<Record>)
    requires k <= |samples| && AllComparable(query, samples)
    ensures |r| == k
  {
    SortByDistance(AllRecords(C, query, samples))[..k]
  }

  /** The `k` nearest training samples, the only records whose class ids index the
      histogram, carry class ids it has a slot for. Vacuous when some sample has no
      distance, since the classification then fails before voting. */
  predicate NearestClassesInRange(C: Compressor, query: Sample, samples: seq<Sample>, k: nat)
    requires k <= |samples|
  {
    AllComparable(query, samples) ==> ClassesInRange(Nearest(C, query, samples, k))
  }

  /** Rearranging records keeps every class id that occurs among them. */
  lemma ClassesInRangePermuted(a: seq<Record>, b: seq<Record>)
    requires multiset(a) == multiset(b) && ClassesInRange(a)
    ensures ClassesInRange(b)
  {
    forall i | 0 <= i < |b|
      ensures 0 <= b[i].classId < ClassCount
    {
      assert b[i] in multiset(a);
    }
  }

  /** Spans that tile the training set and whose samples all have a distance leave
      no training sample without one. */
  lemma SpansCoverComparable(C: Compressor, query: Sample, samples: seq<Sample>, workers: nat,
                             bufs: seq<seq<Record>>)
    requires workers >= 1 && |bufs| == workers
    requires forall t :: 0 <= t < workers ==> SpanRecords(C, query, samples, WorkerSpan(|samples|, workers, t), bufs[t])
    ensures AllComparable(query, samples)
  {
    forall j | 0 <= j < |samples|
      ensures Comparable(query, samples[j])
    {
      var o := Owner(|samples|, workers, j);
      assert SpanRecords(C, query, samples, WorkerSpan(|samples|, workers, o), bufs[o]);
    }
  }

  /** A corpus whose class ids are all in range meets the vote's requirement on the
      nearest `k`, whatever the query and the compressor. */
  lemma TrainingClassesSuffice(C: Compressor, query: Sample, samples: seq<Sample>, k: nat)
    requires k <= |samples|
    requires TrainingClassesInRange(samples)
    ensures NearestClassesInRange(C, query, samples, k)
  {
    if AllComparable(query, samples) {
      var all := AllRecords(C, query, samples);
      assert ClassesInRange(all);
      ClassesInRangePermuted(all, SortByDistance(all));
    }
  }

  /** The spawn loop with each worker run to completion: worker `i` gets its span and
      a buffer of its span's length. It fails exactly when some training sample has
      no distance from the query; otherwise every buffer holds its span's records. */
  method RunWorkers(C: Compressor, query: Sample, samples: seq<Sample>, workers: nat)
    returns (r: Result<seq<seq<Record>>>)
    requires workers >= 1
    ensures r.Ok? <==> AllComparable(query, samples)
    ensures r.Err? ==> r.error == ZeroSize
    ensures r.Ok? ==> WorkerOutputs(C, query, samples, workers, r.value)
  {
    var n := |samples|;
    var bufs: seq<seq<Record>> := [];
    var i := 0;
    while i < workers
      invariant 0 <= i <= workers && |bufs| == i
      invariant forall t :: 0 <= t < i ==> SpanRecords(C, query, samples, WorkerSpan(n, workers, t), bufs[t])
    {
      var span := WorkerSpan(n, workers, i);
      var out := FillWorker(C, query, samples, span, seq(Capacity(n, workers, i), _ => Unset));
      if out.Err? {
        return Err(out.error);
      }
      bufs := bufs + [out.value];
      i := i + 1;
    }
    SpansCoverComparable(C, query, samples, workers, bufs);
    return Ok(bufs);
  }

  /** The classification of `query` against `samples` with `workers` workers and
      `k` neighbours. It fails exactly when some training sample has no distance
      from the query. Otherwise the histogram counts the classes of the `k` nearest
      training samples, the counts add up to `k`, and the prediction is one plus
      the lowest class with the largest count. None of this depends on `workers`. */
  method ClassifySample(C: Compressor, query: Sample, samples: seq<Sample>, k: nat, workers: nat)
    returns (r: Result<Prediction>)
    requires workers >= 1
    requires k <= |samples|
    requires NearestClassesInRange(C, query, samples, k)
    ensures r.Ok? <==> AllComparable(query, samples)
    ensures r.Err? ==> r.error == ZeroSize
    ensures r.Ok? ==>
              var nearest := Nearest(C, query, samples, k);
              && r.value.histogram == Histogram(nearest)
              && Sum(r.value.histogram) == k
              && 1 <= r.value.predicted <= ClassCount
              && IsLowestMax(r.value.histogram, r.value.predicted - 1)
  {
    var n := |samples|;
    var run := RunWorkers(C, query, samples, workers);
    if run.Err? {
      return Err(run.error);
    }
    var bufs := run.value;
    var ncds := Gather(seq(n, _ => Unset), workers, bufs, workers);
    GatherComplete(C, query, samples, workers, bufs, seq(n, _ => Unset));
    var sorted := SortByDistance(ncds);
    assert ClassesInRange(sorted[..k]);
    var ks := Tally(sorted, k);
    assert ks == Histogram(sorted[..k]);
    var pred := PickClass(ks);
    return Ok(Prediction(pred, ks));
  }
}
