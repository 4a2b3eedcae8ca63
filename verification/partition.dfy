/** How `classify_sample` splits the training set between its workers: `ncores`
    contiguous chunks of `n / ncores` samples, the last one also taking the remainder. */
module Partition {

  /** The index range `[offset, offset + len)` one worker is given. */
  datatype Span = Span(offset: nat, len: nat) {
    function End(): nat
    {
      offset + len
    }

    predicate Contains(j: int)
    {
      offset <= j < offset + len
    }
  }

  /** `chunk_size`: the share of every worker but the last. */
  function ChunkSize(n: nat, workers: nat): nat
    requires workers >= 1
  {
    n / workers
  }

  /** `remain`: what is left after every worker took a chunk. It is the division
      remainder, so it is below the number of workers. */
  function Remain(n: nat, workers: nat): (r: nat)
    requires workers >= 1
    ensures n == workers * ChunkSize(n, workers) + r
    ensures r < workers
  {
    n - workers * ChunkSize(n, workers)
  }

  lemma MulMonotone(a: nat, b: nat, c: nat)
    requires a <= b
    ensures a * c <= b * c
  {
  }

  /** Worker `i` starts at `i * chunk_size`; the last worker's length absorbs the
      remainder. Every span but the last ends where the next one starts, the last
      one ends at `n`, and no span reaches past `n`. */
  function WorkerSpan(n: nat, workers: nat, i: nat): (s: Span)
    requires workers >= 1 && i < workers
    ensures s.offset == i * ChunkSize(n, workers)
    ensures i < workers - 1 ==> s.len == ChunkSize(n, workers) && s.End() == (i + 1) * ChunkSize(n, workers)
    ensures i == workers - 1 ==> s.End() == n
    ensures s.End() <= n
  {
    var c := ChunkSize(n, workers);
    var r := Remain(n, workers);
    var extra := if i == workers - 1 then r else 0;
    assert (i + 1) * c == i * c + c;
    assert i == workers - 1 ==> i * c + c == workers * c;
    MulMonotone(i + 1, workers, c);
    Span(i * c, c + extra)
  }

  /** The spans of all workers, in worker order. */
  function Plan(n: nat, workers: nat): (p: seq<Span>)
    requires workers >= 1
    ensures |p| == workers
    ensures forall i :: 0 <= i < workers ==> p[i] == WorkerSpan(n, workers, i)
  {
    seq(workers, i requires 0 <= i < workers => WorkerSpan(n, workers, i))
  }

  /** The spans tile `[0, n)` in order: the first starts at zero, each one ends where
      the next begins, and the last ends at `n`. */
  lemma PlanContiguous(n: nat, workers: nat)
    requires workers >= 1
    ensures Plan(n, workers)[0].offset == 0
    ensures forall i :: 0 <= i < workers - 1 ==> Plan(n, workers)[i].End() == Plan(n, workers)[i + 1].offset
    ensures Plan(n, workers)[workers - 1].End() == n
  {
  }

  /** Every span ends no later than any later worker's span begins. */
  lemma SpansOrdered(n: nat, workers: nat, i: nat, t: nat)
    requires workers >= 1 && i < t < workers
    ensures WorkerSpan(n, workers, i).End() <= WorkerSpan(n, workers, t).offset
  {
    MulMonotone(i + 1, t, ChunkSize(n, workers));
  }

  /** Distinct workers are given disjoint index ranges. */
  lemma PlanDisjoint(n: nat, workers: nat, i: nat, t: nat, j: int)
    requires workers >= 1 && i < workers && t < workers && i != t
    requires WorkerSpan(n, workers, i).Contains(j)
    ensures !WorkerSpan(n, workers, t).Contains(j)
  {
    if i < t {
      SpansOrdered(n, workers, i, t);
    } else {
      SpansOrdered(n, workers, t, i);
    }
  }

  /** The worker index the source's offsets give to training index `j`. */
  function OwnerIndex(n: nat, workers: nat, j: nat): nat
    requires workers >= 1
  {
    var c := ChunkSize(n, workers);
    if c == 0 || j / c >= workers - 1 then workers - 1 else j / c
  }

  lemma OwnerIndexContains(n: nat, workers: nat, j: nat)
    requires workers >= 1 && j < n
    ensures OwnerIndex(n, workers, j) < workers
    ensures WorkerSpan(n, workers, OwnerIndex(n, workers, j)).Contains(j)
  {
    var c := ChunkSize(n, workers);
    var i := OwnerIndex(n, workers, j);
    if c > 0 {
      assert (j / c) * c <= j < (j / c + 1) * c;
      MulMonotone(i, j / c, c);
    }
  }

  /** The one worker responsible for training index `j`: the span containing `j`, and
      no other span contains it. */
  function Owner(n: nat, workers: nat, j: nat): (i: nat)
    requires workers >= 1 && j < n
    ensures i < workers && WorkerSpan(n, workers, i).Contains(j)
    ensures forall t :: 0 <= t < workers && WorkerSpan(n, workers, t).Contains(j) ==> t == i
  {
    OwnerIndexContains(n, workers, j);
    var i := OwnerIndex(n, workers, j);
    assert forall t :: 0 <= t < workers && t != i ==> !WorkerSpan(n, workers, t).Contains(j) by {
      forall t | 0 <= t < workers && t != i
        ensures !WorkerSpan(n, workers, t).Contains(j)
      {
        PlanDisjoint(n, workers, i, t, j);
      }
    }
    i
  }

  /** Partition coverage: an index lies in some worker's span exactly when it is a
      training index. */
  lemma PlanCovers(n: nat, workers: nat, j: int)
    requires workers >= 1
    ensures 0 <= j < n <==> exists i :: 0 <= i < workers && Plan(n, workers)[i].Contains(j)
  {
    if 0 <= j < n {
      var i := Owner(n, workers, j);
      assert Plan(n, workers)[i].Contains(j);
    }
    if exists i :: 0 <= i < workers && Plan(n, workers)[i].Contains(j) {
      var i :| 0 <= i < workers && Plan(n, workers)[i].Contains(j);
      if i < workers - 1 {
        SpansOrdered(n, workers, i, workers - 1);
      }
    }
  }
}
