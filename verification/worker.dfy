/** One worker of the distance engine (`classify_sample_threaded`): it measures the
    query against every training sample of its span and writes the records into its
    own result buffer, slot `j` for training index `offset + j`. */
module Worker {
  import opened Common
  import opened Samples
  import opened Distance
  import opened Partition

  /** The record a worker writes for training sample `s`. */
  function RecordFor(C: Compressor, query: Sample, s: Sample): Record
    requires Comparable(query, s)
  {
    Record(Ncd(C, query, s), s.classId)
  }

  /** Every training sample has a distance from the query. */
  predicate AllComparable(query: Sample, samples: seq<Sample>)
  {
    forall i :: 0 <= i < |samples| ==> Comparable(query, samples[i])
  }

  /** Reference result of the whole engine, free of any partitioning: record `i`
      belongs to training sample `i`. */
  function AllRecords(C: Compressor, query: Sample, samples: seq<Sample>): (r: seq<Record>)
    requires AllComparable(query, samples)
    ensures |r| == |samples|
  {
    seq(|samples|, i requires 0 <= i < |samples| => RecordFor(C, query, samples[i]))
  }

  /** `buf` holds, in its first `len` slots, the records of the samples of `span`. */
  predicate SpanRecords(C: Compressor, query: Sample, samples: seq<Sample>, span: Span, buf: seq<Record>)
  {
    && span.End() <= |samples|
    && span.len <= |buf|
    && (forall i :: span.offset <= i < span.End() ==> Comparable(query, samples[i]))
    && (forall j :: 0 <= j < span.len ==> buf[j] == RecordFor(C, query, samples[span.offset + j]))
  }

  /** Runs one worker over `span` into the buffer `buf` (whose slots hold whatever the
      allocation left there). It succeeds exactly when the span fits the buffer and
      every sample of the span has a distance; then slot `j` holds the record of
      training sample `offset + j` and every slot past the span is untouched.
      On failure it reports the first step that went wrong. */
  method FillWorker(C: Compressor, query: Sample, samples: seq<Sample>, span: Span, buf: seq<Record>)
    returns (r: Result<seq<Record>>)
    requires span.End() <= |samples|
    ensures r.Ok? <==> span.len <= |buf| && forall i :: span.offset <= i < span.End() ==> Comparable(query, samples[i])
    ensures r.Ok? ==> |r.value| == |buf|
    ensures r.Ok? ==> SpanRecords(C, query, samples, span, r.value)
    ensures r.Ok? ==> forall j :: span.len <= j < |buf| ==> r.value[j] == buf[j]
    ensures r.Err? ==> r.error == ZeroSize || r.error == BufferOverflow
    ensures r == Err(BufferOverflow) ==> |buf| < span.len
  {
    var out := buf;
    var i := span.offset;
    var j := 0;
    while i < span.End()
      invariant span.offset <= i <= span.End() && j == i - span.offset
      invariant |out| == |buf| && j <= |buf|
      invariant forall t :: span.offset <= t < i ==> Comparable(query, samples[t])
      invariant forall t :: 0 <= t < j ==> out[t] == RecordFor(C, query, samples[span.offset + t])
      invariant forall t :: j <= t < |buf| ==> out[t] == buf[t]
    {
      if !Comparable(query, samples[i]) {
        return Err(ZeroSize);
      }
      if j >= |out| {
        return Err(BufferOverflow);
      }
      out := out[j := RecordFor(C, query, samples[i])];
      i := i + 1;
      j := j + 1;
    }
    return Ok(out);
  }

  /** Slots the source allocates for worker `i`'s buffer: `chunk_size`, for every
      worker. All buffers together hold at most `n` records and miss fewer than
      `workers` of them. */
  function CapacityAsWritten(n: nat, workers: nat, i: nat): (cap: nat)
    requires workers >= 1 && i < workers
    ensures workers * cap <= n < workers * cap + workers
  {
    ChunkSize(n, workers)
  }

  /** Slots the engine allocates for worker `i`'s buffer: the length of its span.
      Every worker but the last gets the source's `chunk_size`; the last gets
      `remain` more, so it holds the records it writes. */
  function Capacity(n: nat, workers: nat, i: nat): (cap: nat)
    requires workers >= 1 && i < workers
    ensures i < workers - 1 ==> cap == CapacityAsWritten(n, workers, i)
    ensures i == workers - 1 ==> cap == CapacityAsWritten(n, workers, i) + Remain(n, workers)
    ensures WorkerSpan(n, workers, i).len <= cap
  {
    WorkerSpan(n, workers, i).len
  }

  /** With the source's allocation a worker's span fits its buffer exactly when it is
      not the last worker or there is no remainder: the last worker writes `remain`
      records past the end of its buffer. */
  lemma CapacityAsWrittenFitsIff(n: nat, workers: nat, i: nat)
    requires workers >= 1 && i < workers
    ensures WorkerSpan(n, workers, i).len <= CapacityAsWritten(n, workers, i)
        <==> i < workers - 1 || Remain(n, workers) == 0
  {
  }

  /** Ten samples on four workers: the last worker's span has four samples but its
      buffer only two slots. */
  lemma CapacityAsWrittenOverflowExample()
    ensures WorkerSpan(10, 4, 3) == Span(6, 4) && CapacityAsWritten(10, 4, 3) == 2
  {
  }
}
