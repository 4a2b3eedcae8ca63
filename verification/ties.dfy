/** `qsort` is not stable, so records at equal distance may come out of the sort in
    any order. This module shows when that freedom can and cannot reach the vote. */
module TieOrder {
  import opened Common
  import opened Distance
  import opened Vote

  /** The records satisfying `p` that are no farther than `t`. */
  function Within(p: Record -> bool, t: real): Record -> bool
  {
    (r: Record) => p(r) && r.distance <= t
  }

  /** Every record. */
  function Always(): Record -> bool
  {
    (r: Record) => true
  }

  /** `k` splits `s` at distance `t`: the first `k` records are no farther than `t`
      and all later ones are farther. */
  predicate CutAt(s: seq<Record>, k: nat, t: real)
  {
    && k <= |s|
    && (forall i :: 0 <= i < k ==> s[i].distance <= t)
    && (forall i :: k <= i < |s| ==> s[i].distance > t)
  }

  lemma {:induction false} CountIfAppend(u: seq<Record>, v: seq<Record>, p: Record -> bool)
    ensures CountIf(u + v, p) == CountIf(u, p) + CountIf(v, p)
    decreases |v|
  {
    if |v| == 0 {
      assert u + v == u;
    } else {
      assert (u + v)[..|u + v| - 1] == u + v[..|v| - 1];
      CountIfAppend(u, v[..|v| - 1], p);
    }
  }

  /** Predicates that agree on every record of `s` count the same. */
  lemma {:induction false} CountIfAgree(s: seq<Record>, p: Record -> bool, q: Record -> bool)
    requires forall i :: 0 <= i < |s| ==> p(s[i]) == q(s[i])
    ensures CountIf(s, p) == CountIf(s, q)
    decreases |s|
  {
    if |s| > 0 {
      CountIfAgree(s[..|s| - 1], p, q);
    }
  }

  /** A predicate no record satisfies counts zero. */
  lemma {:induction false} CountIfNone(s: seq<Record>, p: Record -> bool)
    requires forall i :: 0 <= i < |s| ==> !p(s[i])
    ensures CountIf(s, p) == 0
    decreases |s|
  {
    if |s| > 0 {
      CountIfNone(s[..|s| - 1], p);
    }
  }

  /** Every record counts under `Always`. */
  lemma {:induction false} CountAlways(s: seq<Record>)
    ensures CountIf(s, Always()) == |s|
    decreases |s|
  {
    if |s| > 0 {
      CountAlways(s[..|s| - 1]);
    }
  }

  /** Taking one record out of a sequence lowers its count by that record's share. */
  lemma CountIfRemove(b: seq<Record>, j: nat, p: Record -> bool)
    requires j < |b|
    ensures CountIf(b, p) == CountIf(b[..j] + b[j + 1..], p) + (if p(b[j]) then 1 else 0)
  {
    assert b == b[..j] + [b[j]] + b[j + 1..];
    CountIfAppend(b[..j] + [b[j]], b[j + 1..], p);
    CountIfAppend(b[..j], [b[j]], p);
    CountIfAppend(b[..j], b[j + 1..], p);
    assert [b[j]][..0] == [];
  }

  /** Taking one record out of a sequence takes it out of its multiset. */
  lemma MultisetRemove(b: seq<Record>, j: nat)
    requires j < |b|
    ensures multiset(b[..j] + b[j + 1..]) == multiset(b) - multiset{b[j]}
  {
    assert b == b[..j] + [b[j]] + b[j + 1..];
    assert multiset(b) == multiset(b[..j]) + multiset{b[j]} + multiset(b[j + 1..]);
  }

  /** A count depends only on which records there are, not on their order. */
  lemma {:induction false} CountIfPermutation(a: seq<Record>, b: seq<Record>, p: Record -> bool)
    requires multiset(a) == multiset(b)
    ensures CountIf(a, p) == CountIf(b, p)
    decreases |a|
  {
    if |a| == 0 {
      assert |b| == |multiset(b)| == 0;
    } else {
      var x := a[|a| - 1];
      var a' := a[..|a| - 1];
      assert a == a' + [x];
      assert multiset(a') == multiset(a) - multiset{x};
      assert x in multiset(b);
      var j :| 0 <= j < |b| && b[j] == x;
      MultisetRemove(b, j);
      CountIfPermutation(a', b[..j] + b[j + 1..], p);
      CountIfRemove(b, j, p);
    }
  }

  /** At a cut, counting `p` among the records within `t` is counting `p` in the prefix. */
  lemma CountAtCut(s: seq<Record>, k: nat, t: real, p: Record -> bool)
    requires CutAt(s, k, t)
    ensures CountIf(s, Within(p, t)) == CountIf(s[..k], p)
  {
    assert s == s[..k] + s[k..];
    CountIfAppend(s[..k], s[k..], Within(p, t));
    CountIfAgree(s[..k], Within(p, t), p);
    CountIfNone(s[k..], Within(p, t));
  }

  /** A sorted sequence has a cut at every distance: the records no farther than `t`
      form a prefix. */
  function CutIndex(s: seq<Record>, t: real): (m: nat)
    requires Sorted(s)
    ensures CutAt(s, m, t)
    decreases |s|
  {
    if |s| == 0 then 0
    else if s[0].distance > t then
      assert forall i :: 0 < i < |s| ==> CompareDistance(s[0], s[i]) <= 0;
      0
    else
      var m := CutIndex(s[1..], t);
      1 + m
  }

  /** Unless two records tie across the `k`-th position, every sorted arrangement of
      the same records puts the same classes among the `k` nearest: the histogram
      does not depend on how `qsort` orders records of equal distance. */
  lemma VoteIgnoresTieOrder(a: seq<Record>, b: seq<Record>, k: nat)
    requires Sorted(a) && Sorted(b) && multiset(a) == multiset(b)
    requires k <= |a|
    requires 0 < k < |a| ==> a[k - 1].distance < a[k].distance
    ensures |a| == |b|
    ensures Histogram(a[..k]) == Histogram(b[..k])
  {
    assert |a| == |multiset(a)| == |multiset(b)| == |b|;
    if k == |a| {
      assert a[..k] == a && b[..k] == b;
      forall c | 0 <= c < ClassCount
        ensures CountClass(a, c) == CountClass(b, c)
      {
        CountIfPermutation(a, b, IsClass(c));
      }
    } else if k > 0 {
      var t := a[k - 1].distance;
      assert forall i :: 0 <= i < k - 1 ==> CompareDistance(a[i], a[k - 1]) <= 0;
      assert forall i :: k < i < |a| ==> CompareDistance(a[k], a[i]) <= 0;
      assert CutAt(a, k, t);
      var m := CutIndex(b, t);
      CountAtCut(a, k, t, Always());
      CountAtCut(b, m, t, Always());
      CountIfPermutation(a, b, Within(Always(), t));
      CountAlways(a[..k]);
      CountAlways(b[..m]);
      assert m == k;
      forall c | 0 <= c < ClassCount
        ensures CountClass(a[..k], c) == CountClass(b[..k], c)
      {
        CountAtCut(a, k, t, IsClass(c));
        CountAtCut(b, k, t, IsClass(c));
        CountIfPermutation(a, b, Within(IsClass(c), t));
      }
    }
  }

  /** With a tie across the boundary the order does matter: two records of classes 0
      and 1 at the same distance give a one-neighbour vote for either class,
      depending on which one the sort puts first. */
  lemma TieAtBoundaryDecidesVote()
    ensures var a := [Record(0.5, 0), Record(0.5, 1)];
            var b := [Record(0.5, 1), Record(0.5, 0)];
            && Sorted(a) && Sorted(b) && multiset(a) == multiset(b)
            && Histogram(a[..1])[0] == 1 && Histogram(b[..1])[0] == 0
  {
    var a := [Record(0.5, 0), Record(0.5, 1)];
    var b := [Record(0.5, 1), Record(0.5, 0)];
    assert a[..1][..0] == [] && b[..1][..0] == [];
  }
}
