# NCD k-nearest-neighbour text classifier — Dafny model

This project models the classification engine of a gzip-based text classifier.
The engine classifies a query text against a labelled training corpus by
Normalized Compression Distance (NCD):

    NCD(x, y) = (C(x ++ y) - min(C(x), C(y))) / max(C(x), C(y))

Here `C` is the compressed size under zlib at maximum effort. The engine works
in these steps:

1. It splits the corpus into `ncores` contiguous chunks. The last chunk also
   takes the remainder.
2. Each worker computes the distance from the query to every sample of its
   chunk, writing into its own result buffer.
3. The buffers are gathered into one array, and the array is sorted by distance.
4. The engine counts the classes of the `k` nearest samples and predicts the
   class with the largest count. The lowest class wins ties, and the result is
   one-based.

The model keeps the arithmetic and the sequence manipulation exact. It replaces
the compressor with a parameter `C: seq<byte> -> nat`, treats the distance as an
exact `real`, and runs the workers one after another.

Modules, leaf first:

- `Common` (common.dfy): bytes, the oracle type, `CLASS_COUNT`, `Option`/`Result`, `MIN`/`MAX`, sums.
- `Samples` (sample.dfy): `sample_t`, `atoi`, `init` and `compress`.
- `Distance` (ncd.dfy): `ncd_t` and `ncd`.
- `Partition` (partition.dfy): `chunk_size`, `remain` and the per-worker offsets and lengths.
- `Worker` (worker.dfy): `classify_sample_threaded` and the size of each worker's buffer.
- `Gathering` (gather.dfy): the copy of worker buffers into `ncds`.
- `Vote` (vote.dfy): `cmp_ncd_distance`, the sort, the histogram and the winner scan.
- `TieOrder` (ties.dfy): what `qsort`'s freedom to order equal distances can change.
- `Classifier` (classify.dfy): the spawn loop and `classify_sample` end to end, built from the corrected steps.

Where the code has a defect (see "Findings"), the model has two members. One
keeps the code as written and comes with a lemma that exhibits the defect. The
other is the corrected definition, and `Classifier.ClassifySample` is built from
the corrected ones.

Two behaviours of the code are kept as they are:

- `k` is not range-checked. `k == 0` yields class 1 with an all-zero histogram,
  and `k > n` reads past the array, so it is a precondition.
- The sort is `qsort`, which is not stable. The model sorts with one admissible
  order, a stable insertion sort, and `TieOrder` shows when the order matters.

The model deviates from the code in these:

- A zero NCD denominator is reported as an error (`ZeroSize`). The code would
  divide by zero in floating point instead.
- A worker that meets a zero denominator fails the classification instead of
  producing an infinite or NaN distance that the sort would then order.

## Model

| member | source | states |
|---|---|---|
| Common.Min | src/main.cpp:23 | the `MIN` macro yields one of its arguments, and that argument is no larger than either |
| Common.Max | src/main.cpp:24 | the `MAX` macro yields one of its arguments, and that argument is no smaller than either |
| Samples.ParseDigitsAppend | src/main.cpp:50 | `atoi` reads digits left to right: parsing a digit run and then the rest equals parsing the whole |
| Samples.AtoI | src/main.cpp:50 | `atoi` is negative only after a minus sign, and non-zero only when the first byte past the white space is a sign or a digit; `AtoIDecimal` is its round trip |
| Samples.AtoIDecimal | src/main.cpp:50 | `atoi` returns the class ordinal written in decimal at the start of a line when a non-digit follows it |
| Samples.Init | src/main.cpp:45-52 | corrected `init`: fails with `ShortLine` exactly on lines without the two-byte prefix; otherwise the class id is `atoi(line) - 1`, the text is the line after the prefix, and the size is memoized from that text |
| Samples.InitParsesLine | src/main.cpp:45-52 | a corpus line made of an ordinal digit `d`, a separator and a text builds the sample of class `d - 1` with exactly that text and its compressed size |
| Samples.InitAsWritten | src/main.cpp:45-52 | `init` as written copies `_n` bytes from `_src + 2`; the copy stays inside the line and its NUL exactly when `_n + 1 <= |line|` |
| Samples.InitAsWrittenOverreads | src/main.cpp:42-49 | with the length the constructors pass, the copy runs past the NUL for every line |
| Samples.InitAsWrittenShortenedAgrees | src/main.cpp:49 | copying `_n - 2` bytes instead makes the code agree with the corrected `Init` |
| Samples.Compress | src/main.cpp:54 | `compress` leaves class and text alone and makes the memoized size that of the text |
| Samples.CompressAfterInit | src/main.cpp:51-54 | recompressing a sample that `init` built changes nothing, so the size is in effect computed once |
| Distance.Ncd | src/main.cpp:106-132 | the distance is non-negative iff `C(x ++ y) >= min(Cx, Cy)`, and at most 1 iff `C(x ++ y) <= Cx + Cy` (x's text comes first in the concatenation) |
| Distance.NcdInUnitInterval | src/main.cpp:108-116 | for memoized samples and a compressor that is normal on the pair, the distance lies in [0, 1] |
| Distance.NcdSymmetricIff | src/main.cpp:120-128 | `NCD(x, y) == NCD(y, x)` exactly when the oracle gives `x ++ y` and `y ++ x` the same size |
| Distance.NcdAsWritten | src/main.cpp:120-128 | the code's `ncd` has a value exactly when both texts fit the 2048-byte buffer and the denominator is non-zero |
| Distance.NcdAsWrittenAgrees | src/main.cpp:120-128 | when the texts fit and the unsigned subtraction does not wrap, the code computes the formula |
| Distance.NcdAsWrittenOverflowsScratch | src/main.cpp:120-123 | texts of 1025 and 1024 bytes have a distance, but the code overflows its buffer on them |
| Distance.NcdAsWrittenWrapsAboveOne | src/main.cpp:125-128 | whenever `C(x ++ y)` is below the smaller single size (and the sizes are below `2^63`), the true distance is negative but the code's `size_t` numerator wraps to `2^64 + numerator` and its distance exceeds 1 |
| Distance.NcdAsWrittenWraps | src/main.cpp:125-128 | example: for an oracle giving the two-byte concatenation size 1 and each one-byte text size 2, the true distance is -0.5 and the code divides `2^64 - 1` by 2 |
| Partition.Remain | src/main.cpp:181-182 | `n == ncores * chunk_size + remain` and `0 <= remain < ncores` |
| Partition.WorkerSpan | src/main.cpp:184-190 | worker `i` starts at `i * chunk_size`; each span ends where the next begins; the last ends at `n`; no span passes `n` |
| Partition.PlanContiguous | src/main.cpp:184-190 | the spans start at 0, each ends at the next one's offset, and the last ends at `n` |
| Partition.PlanDisjoint | src/main.cpp:184-190 | no index lies in the spans of two different workers |
| Partition.Owner | src/main.cpp:184-190 | every training index has exactly one worker whose span contains it |
| Partition.PlanCovers | src/main.cpp:184-190 | an index lies in some worker's span iff it is in `[0, n)` |
| Worker.FillWorker | src/main.cpp:135-160 | a worker succeeds iff its span fits its buffer and every sample has a distance; then slot `j` holds the distance and class of sample `offset + j`, and no other slot is written |
| Worker.CapacityAsWritten | src/main.cpp:192 | each buffer gets `chunk_size` slots: all `ncores` buffers together hold at most `n` records and miss fewer than `ncores` |
| Worker.Capacity | src/main.cpp:186-192 | corrected allocation: every worker but the last gets `chunk_size` slots, the last `chunk_size + remain`, so every span fits its buffer |
| Worker.CapacityAsWrittenFitsIff | src/main.cpp:187-192 | with `chunk_size` slots per buffer, a worker's span fits iff the worker is not the last or `remain == 0` |
| Worker.CapacityAsWrittenOverflowExample | src/main.cpp:189-192 | ten samples on four workers give the last worker four records but only two slots |
| Gathering.Blit | src/main.cpp:204 | `memcpy` into `ncds`: the target range takes the source records and every other entry is unchanged |
| Gathering.Gather | src/main.cpp:199-206 | corrected gather: each worker copies its own span's length to its offset; the result keeps the length of `ncds`, and its content is stated by `GatherOwned`, `GatherUntouched` and `GatherComplete` |
| Gathering.GatherOwned | src/main.cpp:199-206 | corrected gather: after the first `i` workers, every index their spans cover holds the slot of its one owning worker |
| Gathering.GatherUntouched | src/main.cpp:199-206 | corrected gather: after the first `i` workers, every index past their spans keeps its prior value |
| Gathering.GatherComplete | src/main.cpp:199-206 | after the corrected gather, `ncds` holds one record per training sample, in corpus order, for any worker count and any prior contents |
| Gathering.GatherAsWritten | src/main.cpp:199-206 | the code's gather leaves `ncds` as the workers' first `chunk_size` records followed by the untouched tail |
| Gathering.GatherAsWrittenCompleteIff | src/main.cpp:199-206 | with correctly filled buffers, the code's gather yields all records iff the last `remain` entries already held them |
| Gathering.GatherAsWrittenDropsTailExample | src/main.cpp:204 | ten samples on four workers: entries 8 and 9 are never written |
| Vote.CompareDistance | src/main.cpp:82-90 | the comparator is negative, zero or positive as `a` is nearer than, as near as, or farther than `b` |
| Vote.CompareDistancePreorder | src/main.cpp:82-90 | the comparator is antisymmetric in sign and transitive, a total preorder |
| Vote.SortByDistance | src/main.cpp:210 | the sort's result is non-decreasing under `cmp_ncd_distance` and is a permutation of its input |
| Vote.HistogramTotal | src/main.cpp:211-213 | when every class id is in range, the per-class counts add up to the number of records |
| Vote.Tally | src/main.cpp:211-213 | `ks[c]` is the number of the first `k` records with class `c`, and the counts add up to `k` |
| Vote.LowestMaxUnique | src/main.cpp:216-225 | at most one class is the lowest among those with the maximal count |
| Vote.PickClass | src/main.cpp:216-225 | `pred_class` is always set, lies in `1..CLASS_COUNT`, and is one plus the lowest class whose count is maximal |
| TieOrder.CountIfPermutation | src/main.cpp:210 | counting records by a property is unaffected by the sort's rearrangement |
| TieOrder.VoteIgnoresTieOrder | src/main.cpp:210-213 | any two sorted arrangements of the same records give the same histogram of the first `k`, unless a tie straddles position `k` |
| TieOrder.TieAtBoundaryDecidesVote | src/main.cpp:210-213 | example: a tie across position `k` can decide the vote; two records of classes 0 and 1 at equal distance give a one-neighbour vote for either class depending on the order `qsort` picks |
| Classifier.SpansCoverComparable | src/main.cpp:184-196 | when every worker's samples have a distance, every training sample has one, since the spans cover the training set |
| Classifier.RunWorkers | src/main.cpp:184-196 | with each buffer sized to its worker's span, the workers fail iff some training sample has no distance, and otherwise every buffer holds its span's records |
| Classifier.TrainingClassesSuffice | src/main.cpp:210-213 | if every training class id is in range, the `k` nearest records after the sort have class ids in range too, for any query and compressor |
| Classifier.ClassifySample | src/main.cpp:163-225 | classification fails iff some sample has no distance from the query; otherwise the histogram counts the classes of the `k` nearest samples, it sums to `k`, the prediction is one plus the lowest maximal class, and the result does not depend on the worker count |

## Findings

| source | as written | input that shows it | evidently intended | confidence | as-written member | corrected member |
|---|---|---|---|---|---|---|
| src/main.cpp:42-49 | `memcpy(clear_text, _src+2, _n)` with `_n` the full line length | any line: the copy reads one byte past the terminating NUL | copy the `_n - 2` text bytes after the prefix | high, not executed | Samples.InitAsWrittenOverreads | Samples.InitParsesLine |
| src/main.cpp:190-192 | each worker buffer has `chunk_size` slots, but the last worker writes `chunk_size + remain` records | 10 samples, 4 workers: 4 records into 2 slots | size each buffer to its worker's length | high, not executed | Worker.CapacityAsWrittenFitsIff | Classifier.RunWorkers |
| src/main.cpp:199-206 | the gather copies `chunk_size` records per worker | 10 samples, 4 workers: `ncds[8]` and `ncds[9]` stay uninitialised and are then sorted and voted on | copy each worker's own length to its offset | high, not executed | Gathering.GatherAsWrittenCompleteIff | Gathering.GatherComplete |
| src/main.cpp:120-123 | the concatenation goes into a fixed 2048-byte stack buffer | texts of 1025 and 1024 bytes | a buffer of `_x->len + _y->len` bytes, as the commented-out line 119 has it | high, not executed | Distance.NcdAsWrittenOverflowsScratch | Distance.Ncd |
| src/main.cpp:125-128 | `Cxy - min_xy` is an unsigned `size_t` subtraction | an oracle giving the concatenation size 1 and both parts size 2 | a signed numerator, as in the formula | low (zlib rarely compresses a concatenation below its parts), not executed | Distance.NcdAsWrittenWraps | Distance.Ncd |

## Left out

- `zip`, `compress2` and `compressBound` (src/main.cpp:94-103) are foreign calls. They become the deterministic oracle parameter `C`. The code ignores `compress2`'s return code, so the oracle has no failure case.
- Float rounding in the NCD division: distances are exact reals. With a zero denominator the code produces infinity or NaN; the model reports `ZeroSize` instead.
- `pthread_create`/`pthread_join` and `get_nprocs`: the workers run one after another, and the worker count is a parameter of at least one.
- `parse_training_data`, `line_count`, `main` (including its `memmove`/`resize` step and its hard-coded query), logging and `Timer` are I/O, vector plumbing and diagnostics.
- Integer widths: `atoi` overflow, and the `int`/`size_t` widths of `len`, `chunk_size`, offsets and counts, are unbounded integers. Only the `size_t` subtraction in `ncd` is modelled with its wrap-around.
- `cmp_ncd` (src/main.cpp:91) is unused by the code.
- `delete[]` and other memory release have no counterpart.
- Uninitialised memory is represented by an arbitrary record sequence (a parameter, or a fixed filler where nothing depends on it).
- The classification as written is not modelled as one member. Each defect is exhibited at the step where it occurs, and `Classifier.ClassifySample` composes the corrected steps.
- Classifier.ClassifySample: states its histogram for the stable order `Vote.SortByDistance` produces, not for every order `qsort` may choose. `TieOrder.VoteIgnoresTieOrder` shows the two agree unless distances tie across position `k`.
- Classifier.ClassifySample: requires `k <= n`, since the code reads past `ncds` otherwise. It also requires the class ids of the `k` nearest records to lie in `[0, CLASS_COUNT)`, since the code indexes past `ks` otherwise; ids of farther samples are unconstrained. `Classifier.TrainingClassesSuffice` shows that a corpus with every class id in range meets this.
