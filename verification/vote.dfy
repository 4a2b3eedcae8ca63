/** The k-nearest-neighbour vote at the end of `classify_sample`: sort the records
    by distance, count the classes of the first `k`, and pick the class with the
    largest count, the lowest class winning ties. */
module Vote {
  import opened Common
  import opened Distance

  /** `cmp_ncd_distance`: negative, zero or positive as `a` is nearer than, as near
      as, or farther than `b`. */
  function CompareDistance(a: Record, b: Record): (c: int)
    ensures -1 <= c <= 1
    ensures c < 0 <==> a.distance < b.distance
    ensures c == 0 <==> a.distance == b.distance
  {
    if a.distance < b.distance then -1
    else if a.distance > b.distance then 1
    else 0
  }

  /** The comparator is a total preorder on records: its sign flips with its
      arguments, and "not farther" is transitive. These are what `qsort` needs. */
  lemma CompareDistancePreorder(a: Record, b: Record, c: Record)
    ensures CompareDistance(a, b) == -CompareDistance(b, a)
    ensures CompareDistance(a, b) <= 0 && CompareDistance(b, c) <= 0 ==> CompareDistance(a, c) <= 0
  {
  }

  /** Non-decreasing under `cmp_ncd_distance`. */
  predicate Sorted(s: seq<Record>)
  {
    forall i, j :: 0 <= i < j < |s| ==> CompareDistance(s[i], s[j]) <= 0
  }

  /** A record no farther than the first of a sorted sequence can go in front of it. */
  lemma SortedCons(x: Record, s: seq<Record>)
    requires Sorted(s)
    requires |s| > 0 ==> x.distance <= s[0].distance
    ensures Sorted([x] + s)
  {
    var r := [x] + s;
    forall i, j | 0 <= i < j < |r|
      ensures CompareDistance(r[i], r[j]) <= 0
    {
      if i > 0 {
        assert r[i] == s[i - 1] && r[j] == s[j - 1];
      } else if j > 1 {
        assert CompareDistance(s[0], s[j - 1]) <= 0;
      }
    }
  }

  /** Places `x` before the first record farther than it. The result starts with
      `x` or with the old first record. */
  function Insert(x: Record, s: seq<Record>): (r: seq<Record>)
    requires Sorted(s)
    ensures Sorted(r)
    ensures |r| == |s| + 1
    ensures multiset(r) == multiset(s) + multiset{x}
    ensures r[0] == x || (|s| > 0 && r[0] == s[0])
    decreases |s|
  {
    if |s| == 0 then [x]
    else if CompareDistance(x, s[0]) <= 0 then
      SortedCons(x, s);
      [x] + s
    else
      var rest := Insert(x, s[1..]);
      assert s == [s[0]] + s[1..];
      assert multiset(s) == multiset{s[0]} + multiset(s[1..]);
      SortedCons(s[0], rest);
      [s[0]] + rest
  }

  /** The sort of line 210: the result is ordered by distance and is a permutation
      of its input. `qsort` may order records of equal distance any way; this sort
      keeps them in input order, which is one of the orders `qsort` may produce. */
  function SortByDistance(s: seq<Record>): (r: seq<Record>)
    ensures Sorted(r)
    ensures |r| == |s|
    ensures multiset(r) == multiset(s)
    decreases |s|
  {
    if |s| == 0 then []
    else
      assert s == [s[0]] + s[1..];
      Insert(s[0], SortByDistance(s[1..]))
  }

  /** Number of records in `s` that satisfy `p`. */
  function CountIf(s: seq<Record>, p: Record -> bool): nat
  {
    if |s| == 0 then 0
    else CountIf(s[..|s| - 1], p) + (if p(s[|s| - 1]) then 1 else 0)
  }

  /** The records of class `c`. */
  function IsClass(c: int): Record -> bool
  {
    (r: Record) => r.classId == c
  }

  /** Number of records in `s` with class `c`. */
  function CountClass(s: seq<Record>, c: int): nat
  {
    CountIf(s, IsClass(c))
  }

  /** Every record carries a class id the histogram has a slot for. */
  predicate ClassesInRange(s: seq<Record>)
  {
    forall i :: 0 <= i < |s| ==> 0 <= s[i].classId < ClassCount
  }

  /** The per-class counts of `s`. */
  function Histogram(s: seq<Record>): (h: seq<nat>)
    ensures |h| == ClassCount
  {
    seq(ClassCount, c requires 0 <= c < ClassCount => CountClass(s, c))
  }

  /** Appending one record raises exactly its class's count. */
  lemma HistogramSnoc(s: seq<Record>, x: Record)
    requires 0 <= x.classId < ClassCount
    ensures Histogram(s + [x]) == Histogram(s)[x.classId := Histogram(s)[x.classId] + 1]
  {
    assert (s + [x])[..|s|] == s;
  }

  /** With every class in range, the counts add up to the number of records. */
  lemma {:induction false} HistogramTotal(s: seq<Record>)
    requires ClassesInRange(s)
    ensures Sum(Histogram(s)) == |s|
    decreases |s|
  {
    if |s| > 0 {
      var init := s[..|s| - 1];
      var x := s[|s| - 1];
      assert s == init + [x];
      HistogramTotal(init);
      HistogramSnoc(init, x);
      var h: seq<int> := Histogram(init);
      var c: nat := x.classId as nat;
      SumIncrement(h, c);
      var hs: seq<int> := Histogram(s);
      assert hs == h[c := h[c] + 1];
      assert Sum(hs) == Sum(h) + 1;
      assert Sum(h) == |init|;
      assert Sum(Histogram(s)) == Sum(hs);
    } else {
      SumZeros(Histogram(s));
    }
  }

  /** The histogram loop of lines 211-213: `ks[c]` ends as the number of the first
      `k` records with class `c`, and the counts add up to `k`. */
  method Tally(sorted: seq<Record>, k: nat) returns (ks: seq<nat>)
    requires k <= |sorted|
    requires ClassesInRange(sorted[..k])
    ensures |ks| == ClassCount
    ensures forall c :: 0 <= c < ClassCount ==> ks[c] == CountClass(sorted[..k], c)
    ensures Sum(ks) == k
  {
    ks := seq(ClassCount, _ => 0);
    assert ks == Histogram(sorted[..0]);
    var i := 0;
    while i < k
      invariant i <= k
      invariant ks == Histogram(sorted[..i])
    {
      var c := sorted[i].classId;
      assert sorted[..k][i] == sorted[i];
      assert sorted[..i + 1] == sorted[..i] + [sorted[i]];
      HistogramSnoc(sorted[..i], sorted[i]);
      ks := ks[c := ks[c] + 1];
      i := i + 1;
    }
    HistogramTotal(sorted[..k]);
  }

  /** Class `c` has the largest count and every lower class has strictly less: it is
      the lowest class among those tied at the maximum. */
  predicate IsLowestMax(ks: seq<nat>, c: nat)
  {
    && c < |ks|
    && (forall i :: 0 <= i < |ks| ==> ks[i] <= ks[c])
    && (forall i :: 0 <= i < c ==> ks[i] < ks[c])
  }

  /** At most one class is the lowest of the maxima, so the winner is well defined. */
  lemma LowestMaxUnique(ks: seq<nat>, a: nat, b: nat)
    requires IsLowestMax(ks, a) && IsLowestMax(ks, b)
    ensures a == b
  {
    assert ks[a] <= ks[b] && ks[b] <= ks[a];
  }

  /** The winner scan of lines 216-225: the running maximum starts at -1 and moves
      only on a strictly greater count, so the result is always set, is one-based,
      and names the lowest class whose count is maximal. */
  method PickClass(ks: seq<nat>) returns (pred: int)
    requires |ks| == ClassCount
    ensures 1 <= pred <= ClassCount
    ensures IsLowestMax(ks, pred - 1)
  {
    pred := -1;
    var max := -1;
    var i := 0;
    while i < ClassCount
      invariant 0 <= i <= ClassCount
      invariant i == 0 ==> pred == -1 && max == -1
      invariant i > 0 ==> 1 <= pred <= i && max == ks[pred - 1]
      invariant forall j :: 0 <= j < i ==> ks[j] <= max
      invariant forall j :: 0 <= j < pred - 1 ==> ks[j] < max
    {
      if ks[i] > max {
        max := ks[i];
        pred := i + 1;
      }
      i := i + 1;
    }
  }
}
