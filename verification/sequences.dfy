/**
  Order-independent facts about sequences that several of the dashboard
  scripts share: sorting by an integer key (the scripts sort with
  `Array.prototype.sort` and a numeric comparator, which the engine implements
  as a stable sort), summing a numeric field (`reduce((sum, o) => sum + o.n, 0)`)
  and taking the largest value of a field (`Math.max(...xs)`).
*/
module Sequences {

  predicate SortedBy<T>(s: seq<T>, key: T -> int)
  {
    forall i, j :: 0 <= i < j < |s| ==> key(s[i]) <= key(s[j])
  }

  /** Puts `x` in front of the first element whose key is not smaller than its own. */
  function InsertBy<T>(x: T, s: seq<T>, key: T -> int): (r: seq<T>)
    requires SortedBy(s, key)
    ensures SortedBy(r, key)
    ensures multiset(r) == multiset(s) + multiset{x}
    ensures |r| == |s| + 1 && (r[0] == x || (s != [] && r[0] == s[0]))
  {
    if s == [] then [x]
    else if key(x) <= key(s[0]) then
      SortedCons(x, s, key);
      [x] + s
    else
      var t := InsertBy(x, s[1..], key);
      assert s == [s[0]] + s[1..];
      SortedCons(s[0], t, key);
      [s[0]] + t
  }

  /** An element no larger than the head of a sorted list can go in front of it. */
  lemma SortedCons<T>(h: T, t: seq<T>, key: T -> int)
    requires SortedBy(t, key)
    requires t != [] ==> key(h) <= key(t[0])
    ensures SortedBy([h] + t, key)
  {
    var r := [h] + t;
    forall i, j | 0 <= i < j < |r| ensures key(r[i]) <= key(r[j]) {
      if i == 0 {
        assert r[j] == t[j - 1];
      } else {
        assert r[i] == t[i - 1] && r[j] == t[j - 1];
      }
    }
  }

  /** A sort by ascending key, as `xs.sort((a, b) => key(a) - key(b))` leaves `xs`:
      ordered, and a rearrangement of the input. */
  function SortBy<T>(s: seq<T>, key: T -> int): (r: seq<T>)
    ensures SortedBy(r, key)
    ensures multiset(r) == multiset(s)
    ensures |r| == |s|
  {
    if s == [] then []
    else
      assert s == [s[0]] + s[1..];
      InsertBy(s[0], SortBy(s[1..], key), key)
  }

  /** The sum of `f` over the elements, as `reduce((sum, x) => sum + f(x), 0)` computes
      it; a sum of non-negative terms is non-negative. */
  function SumBy<T>(s: seq<T>, f: T -> int): (r: int)
    ensures (forall k :: 0 <= k < |s| ==> f(s[k]) >= 0) ==> r >= 0
  {
    if s == [] then 0 else f(s[0]) + SumBy(s[1..], f)
  }

  lemma {:induction false} SumByAppend<T>(a: seq<T>, b: seq<T>, f: T -> int)
    ensures SumBy(a + b, f) == SumBy(a, f) + SumBy(b, f)
  {
    if a == [] {
      assert a + b == b;
    } else {
      assert (a + b)[0] == a[0];
      assert (a + b)[1..] == a[1..] + b;
      SumByAppend(a[1..], b, f);
    }
  }

  /** With non-negative terms, a longer suffix has at least the sum of a shorter one. */
  lemma SumBySuffixMonotone<T>(s: seq<T>, i: nat, j: nat, f: T -> int)
    requires i <= j <= |s|
    requires forall k :: 0 <= k < |s| ==> f(s[k]) >= 0
    ensures SumBy(s[j..], f) <= SumBy(s[i..], f)
  {
    var a := s[i..j];
    assert s[i..] == a + s[j..];
    SumByAppend(a, s[j..], f);
    assert forall k :: 0 <= k < |a| ==> a[k] == s[i + k];
  }

  /** Taking one term out of a sum. */
  lemma SumByRemove<T>(b: seq<T>, i: nat, f: T -> int)
    requires i < |b|
    ensures SumBy(b, f) == f(b[i]) + SumBy(b[..i] + b[i + 1..], f)
  {
    var tail := b[i..];
    assert b == b[..i] + tail;
    SumByAppend(b[..i], tail, f);
    assert tail[0] == b[i] && tail[1..] == b[i + 1..];
    assert SumBy(tail, f) == f(b[i]) + SumBy(b[i + 1..], f);
    SumByAppend(b[..i], b[i + 1..], f);
  }

  lemma MultisetRemove<T>(b: seq<T>, i: nat)
    requires i < |b|
    ensures multiset(b[..i] + b[i + 1..]) == multiset(b) - multiset{b[i]}
  {
    assert b == b[..i] + [b[i]] + b[i + 1..];
  }

  /** Finds the first element of `a` in its rearrangement `b`; the rest of `a` is a
      rearrangement of `b` without it. */
  lemma MatchFirst<T>(a: seq<T>, b: seq<T>) returns (i: nat)
    requires a != [] && multiset(a) == multiset(b)
    ensures i < |b| && b[i] == a[0]
    ensures multiset(a[1..]) == multiset(b[..i] + b[i + 1..])
  {
    assert a == [a[0]] + a[1..];
    assert multiset(a[1..]) == multiset(a) - multiset{a[0]};
    assert a[0] in multiset(b);
    i :| 0 <= i < |b| && b[i] == a[0];
    MultisetRemove(b, i);
  }

  /** A sum does not depend on the order of its terms. */
  lemma {:induction false} SumByPermutation<T>(a: seq<T>, b: seq<T>, f: T -> int)
    requires multiset(a) == multiset(b)
    ensures SumBy(a, f) == SumBy(b, f)
    decreases |a|
  {
    if a == [] {
      assert b == [] by { assert |b| == |multiset(b)|; }
    } else {
      var i := MatchFirst(a, b);
      SumByPermutation(a[1..], b[..i] + b[i + 1..], f);
      SumByRemove(b, i, f);
    }
  }

  /** The largest value of `f` over a non-empty sequence, as `Math.max` over the mapped
      values computes it. */
  function MaxBy<T>(s: seq<T>, f: T -> int): (m: int)
    requires s != []
    ensures forall k :: 0 <= k < |s| ==> f(s[k]) <= m
    ensures exists k :: 0 <= k < |s| && f(s[k]) == m
  {
    if |s| == 1 then f(s[0])
    else
      var m := MaxBy(s[1..], f);
      assert forall k :: 1 <= k < |s| ==> s[k] == s[1..][k - 1];
      if f(s[0]) >= m then f(s[0]) else m
  }

  /** The largest value does not depend on the order of the elements. */
  lemma MaxByPermutation<T>(a: seq<T>, b: seq<T>, f: T -> int)
    requires a != [] && multiset(a) == multiset(b)
    ensures b != [] && MaxBy(a, f) == MaxBy(b, f)
  {
    assert |b| == |multiset(b)| == |multiset(a)| == |a|;
    var i :| 0 <= i < |a| && f(a[i]) == MaxBy(a, f);
    assert a[i] in multiset(b);
    var j :| 0 <= j < |b| && f(b[j]) == MaxBy(b, f);
    assert b[j] in multiset(a);
  }
}
