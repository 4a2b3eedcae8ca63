/** The gather step of `classify_sample`: after the workers finish, each worker's
    buffer is copied into the shared array `ncds` at the worker's offset. */
module Gathering {
  import opened Common
  import opened Samples
  import opened Distance
  import opened Partition
  import opened Worker

  /** `memcpy(dst + at, src, |src|)`: the copied range takes `src`, the rest of
      `dst` is left as it was. */
  function Blit(dst: seq<Record>, at: nat, src: seq<Record>): (r: seq<Record>)
    requires at + |src| <= |dst|
    ensures |r| == |dst|
    ensures forall j :: at <= j < at + |src| ==> r[j] == src[j - at]
    ensures forall j :: 0 <= j < |dst| && !(at <= j < at + |src|) ==> r[j] == dst[j]
  {
    dst[..at] + src + dst[at + |src|..]
  }

  /** Copying onto the start of `tail` replaces that much of it. */
  lemma BlitOnto(prefix: seq<Record>, tail: seq<Record>, src: seq<Record>)
    requires |src| <= |tail|
    ensures Blit(prefix + tail, |prefix|, src) == prefix + src + tail[|src|..]
  {
    var dst := prefix + tail;
    assert dst[..|prefix|] == prefix;
    assert dst[|prefix| + |src|..] == tail[|src|..];
  }

  /** One more chunk of `chunk` records. */
  lemma NextChunk(i: nat, chunk: nat)
    requires i >= 1
    ensures (i - 1) * chunk + chunk == i * chunk
    ensures (i - 1) * chunk <= i * chunk
  {
  }

  /** Every worker's buffer holds, in its first `len` slots, the records of its span. */
  predicate WorkerOutputs(C: Compressor, query: Sample, samples: seq<Sample>, workers: nat, bufs: seq<seq<Record>>)
    requires workers >= 1
  {
    && |bufs| == workers
    && AllComparable(query, samples)
    && forall t :: 0 <= t < workers ==> SpanRecords(C, query, samples, WorkerSpan(|samples|, workers, t), bufs[t])
  }

  /** How far the first `i` workers' spans reach. */
  function Filled(n: nat, workers: nat, i: nat): (f: nat)
    requires workers >= 1 && i <= workers
    ensures i < workers ==> f == WorkerSpan(n, workers, i).offset
    ensures i == workers ==> f == n
  {
    if i == 0 then 0
    else
      WorkerSpan(n, workers, i - 1).End()
  }

  /** The gather step, with each worker copying the `len` records of its own span to
      its offset, for the first `i` workers. */
  function Gather(ncds: seq<Record>, workers: nat, bufs: seq<seq<Record>>, i: nat): (r: seq<Record>)
    requires workers >= 1 && i <= workers && |bufs| == workers
    requires forall t :: 0 <= t < workers ==> WorkerSpan(|ncds|, workers, t).len <= |bufs[t]|
    ensures |r| == |ncds|
    decreases i
  {
    if i == 0 then ncds
    else
      var span := WorkerSpan(|ncds|, workers, i - 1);
      Blit(Gather(ncds, workers, bufs, i - 1), span.offset, bufs[i - 1][..span.len])
  }

  /** After the first `i` workers, every index past their spans still holds what
      `ncds` held before the gather. */
  lemma {:induction false} GatherUntouched(ncds: seq<Record>, workers: nat, bufs: seq<seq<Record>>, i: nat, j: nat)
    requires workers >= 1 && i <= workers && |bufs| == workers
    requires forall t :: 0 <= t < workers ==> WorkerSpan(|ncds|, workers, t).len <= |bufs[t]|
    requires Filled(|ncds|, workers, i) <= j < |ncds|
    ensures Gather(ncds, workers, bufs, i)[j] == ncds[j]
    decreases i
  {
    if i > 0 {
      assert Filled(|ncds|, workers, i - 1) == WorkerSpan(|ncds|, workers, i - 1).offset;
      GatherUntouched(ncds, workers, bufs, i - 1, j);
    }
  }

  /** After the first `i` workers, every index their spans cover holds the slot its
      owning worker computed for it. */
  lemma {:induction false} GatherOwned(ncds: seq<Record>, workers: nat, bufs: seq<seq<Record>>, i: nat, j: nat)
    requires workers >= 1 && i <= workers && |bufs| == workers
    requires forall t :: 0 <= t < workers ==> WorkerSpan(|ncds|, workers, t).len <= |bufs[t]|
    requires j < Filled(|ncds|, workers, i)
    ensures var o := Owner(|ncds|, workers, j);
            Gather(ncds, workers, bufs, i)[j] == bufs[o][j - WorkerSpan(|ncds|, workers, o).offset]
    decreases i
  {
    var span := WorkerSpan(|ncds|, workers, i - 1);
    assert Filled(|ncds|, workers, i - 1) == span.offset;
    if j < span.offset {
      GatherOwned(ncds, workers, bufs, i - 1, j);
    } else {
      assert span.Contains(j);
    }
  }

  /** The gather completes the engine: once every worker has run, `ncds` holds the
      records of all training samples in corpus order, whatever it held before and
      however many workers there are. */
  lemma GatherComplete(C: Compressor, query: Sample, samples: seq<Sample>, workers: nat,
                       bufs: seq<seq<Record>>, ncds: seq<Record>)
    requires workers >= 1 && |ncds| == |samples|
    requires WorkerOutputs(C, query, samples, workers, bufs)
    ensures Gather(ncds, workers, bufs, workers) == AllRecords(C, query, samples)
  {
    var r := Gather(ncds, workers, bufs, workers);
    var all := AllRecords(C, query, samples);
    forall j | 0 <= j < |samples|
      ensures r[j] == all[j]
    {
      var o := Owner(|samples|, workers, j);
      var span := WorkerSpan(|samples|, workers, o);
      var m := j - span.offset;
      GatherOwned(ncds, workers, bufs, workers, j);
      assert SpanRecords(C, query, samples, span, bufs[o]);
      assert 0 <= m < span.len && span.offset + m == j;
    }
  }

  /** What the first `i` workers hand over under the source's gather: the first
      `chunk` slots of each buffer, in worker order. */
  function Chunks(bufs: seq<seq<Record>>, chunk: nat, i: nat): (s: seq<Record>)
    requires i <= |bufs|
    requires forall t :: 0 <= t < i ==> chunk <= |bufs[t]|
    ensures |s| == i * chunk
    decreases i
  {
    if i == 0 then []
    else
      NextChunk(i, chunk);
      Chunks(bufs, chunk, i - 1) + bufs[i - 1][..chunk]
  }

  /** The gather step as written: every worker copies `chunk_size` records, to
      `i * chunk_size`. After the first `i` workers, `ncds` starts with their chunks
      and everything past `i * chunk_size` is untouched. */
  function GatherAsWritten(ncds: seq<Record>, chunk: nat, bufs: seq<seq<Record>>, i: nat): (r: seq<Record>)
    requires i <= |bufs| && i * chunk <= |ncds|
    requires forall t :: 0 <= t < i ==> chunk <= |bufs[t]|
    ensures r == Chunks(bufs, chunk, i) + ncds[i * chunk..]
    decreases i
  {
    if i == 0 then ncds
    else
      NextChunk(i, chunk);
      var off := (i - 1) * chunk;
      var prev := GatherAsWritten(ncds, chunk, bufs, i - 1);
      BlitOnto(Chunks(bufs, chunk, i - 1), ncds[off..], bufs[i - 1][..chunk]);
      assert ncds[off..][chunk..] == ncds[i * chunk..];
      Blit(prev, off, bufs[i - 1][..chunk])
  }

  /** The first `i` buffers each start with the records of their own `chunk`-sized
      stretch of `all`. */
  predicate ChunksMatch(all: seq<Record>, bufs: seq<seq<Record>>, chunk: nat, i: nat)
  {
    && i <= |bufs|
    && i * chunk <= |all|
    && forall t :: 0 <= t < i ==>
         && chunk <= |bufs[t]|
         && (t + 1) * chunk <= |all|
         && bufs[t][..chunk] == all[t * chunk..(t + 1) * chunk]
  }

  /** Matching chunks concatenate to the first `i * chunk` records. */
  lemma {:induction false} ChunksAreRecords(all: seq<Record>, bufs: seq<seq<Record>>, chunk: nat, i: nat)
    requires ChunksMatch(all, bufs, chunk, i)
    ensures Chunks(bufs, chunk, i) == all[..i * chunk]
    decreases i
  {
    if i > 0 {
      MulMonotone(i - 1, i, chunk);
      assert ChunksMatch(all, bufs, chunk, i - 1);
      ChunksAreRecords(all, bufs, chunk, i - 1);
      assert (i - 1) * chunk + chunk == i * chunk;
      assert all[..i * chunk] == all[..(i - 1) * chunk] + all[(i - 1) * chunk..i * chunk];
    }
  }

  /** Under the source's offsets, worker `t`'s first `chunk_size` slots are the
      records of samples `t * chunk_size` up to `(t + 1) * chunk_size`. */
  lemma WorkerChunk(C: Compressor, query: Sample, samples: seq<Sample>, workers: nat,
                    bufs: seq<seq<Record>>, t: nat)
    requires workers >= 1 && t < workers
    requires WorkerOutputs(C, query, samples, workers, bufs)
    ensures var chunk := ChunkSize(|samples|, workers);
            && chunk <= |bufs[t]|
            && (t + 1) * chunk <= |samples|
            && bufs[t][..chunk] == AllRecords(C, query, samples)[t * chunk..(t + 1) * chunk]
  {
    var n := |samples|;
    var chunk := ChunkSize(n, workers);
    var all := AllRecords(C, query, samples);
    var span := WorkerSpan(n, workers, t);
    MulMonotone(t + 1, workers, chunk);
    assert (t + 1) * chunk == t * chunk + chunk;
    assert workers * chunk <= n;
    forall m | 0 <= m < chunk
      ensures bufs[t][m] == all[t * chunk + m]
    {
      assert span.offset + m == t * chunk + m;
    }
  }

  /** All workers' chunks match the corpus records. */
  lemma WorkerChunks(C: Compressor, query: Sample, samples: seq<Sample>, workers: nat, bufs: seq<seq<Record>>)
    requires workers >= 1
    requires WorkerOutputs(C, query, samples, workers, bufs)
    ensures ChunksMatch(AllRecords(C, query, samples), bufs, ChunkSize(|samples|, workers), workers)
  {
    var n := |samples|;
    assert workers * ChunkSize(n, workers) + Remain(n, workers) == n;
    forall t | 0 <= t < workers
      ensures var chunk := ChunkSize(n, workers);
              && chunk <= |bufs[t]|
              && (t + 1) * chunk <= n
              && bufs[t][..chunk] == AllRecords(C, query, samples)[t * chunk..(t + 1) * chunk]
    {
      WorkerChunk(C, query, samples, workers, bufs, t);
    }
  }

  /** Keeping the first `cut` records of `all` and the rest of `ncds` gives `all`
      exactly when `ncds` already agrees with `all` past the cut. */
  lemma PrefixSwap(all: seq<Record>, ncds: seq<Record>, cut: nat)
    requires cut <= |all| == |ncds|
    ensures all[..cut] + ncds[cut..] == all <==> ncds[cut..] == all[cut..]
  {
    assert all == all[..cut] + all[cut..];
    if all[..cut] + ncds[cut..] == all {
      assert (all[..cut] + ncds[cut..])[cut..] == ncds[cut..];
    }
  }

  /** Even with every worker's buffer filled correctly, the source's gather yields
      the records of all training samples exactly when the last `remain` entries of
      `ncds` already held them before the gather: those entries are never written.
      With no remainder the gather is complete; otherwise the tail keeps whatever
      the uninitialised allocation held. */
  lemma GatherAsWrittenCompleteIff(C: Compressor, query: Sample, samples: seq<Sample>, workers: nat,
                                   bufs: seq<seq<Record>>, ncds: seq<Record>)
    requires workers >= 1 && |ncds| == |samples|
    requires WorkerOutputs(C, query, samples, workers, bufs)
    ensures var all := AllRecords(C, query, samples);
            var chunk := ChunkSize(|samples|, workers);
            && ChunksMatch(all, bufs, chunk, workers)
            && (GatherAsWritten(ncds, chunk, bufs, workers) == all
                <==> ncds[workers * chunk..] == all[workers * chunk..])
  {
    var all := AllRecords(C, query, samples);
    var chunk := ChunkSize(|samples|, workers);
    var cut := workers * chunk;
    WorkerChunks(C, query, samples, workers, bufs);
    ChunksAreRecords(all, bufs, chunk, workers);
    PrefixSwap(all, ncds, cut);
  }

  /** Ten samples on four workers: the gather as written never writes entries 8
      and 9, which belong to the last worker's remainder. */
  lemma GatherAsWrittenDropsTailExample(bufs: seq<seq<Record>>, ncds: seq<Record>)
    requires |ncds| == 10 && |bufs| == 4
    requires forall t :: 0 <= t < 4 ==> 2 <= |bufs[t]|
    ensures GatherAsWritten(ncds, ChunkSize(10, 4), bufs, 4)[8..] == ncds[8..]
  {
  }
}
