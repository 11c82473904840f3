/** Orders and sorting, as the built-in sort of the modelled scripts provides them: a stable sort
    by a total preorder.  The lemmas say what a caller may rely on: the result is sorted, it holds
    the same elements, and for an order that is antisymmetric it does not depend on the order in
    which the elements were given. */
module Ordering {
  import opened Folds

  predicate AllDifferent<T(==)>(xs: seq<T>) {
    forall i, j :: 0 <= i < j < |xs| ==> xs[i] != xs[j]
  }

  ghost predicate Preorder<T(!new)>(leq: (T, T) -> bool) {
    && (forall a, b :: leq(a, b) || leq(b, a))
    && (forall a, b, c :: leq(a, b) && leq(b, c) ==> leq(a, c))
  }

  ghost predicate Antisymmetric<T(!new)>(leq: (T, T) -> bool) {
    forall a, b :: leq(a, b) && leq(b, a) ==> a == b
  }

  ghost predicate Sorted<T>(xs: seq<T>, leq: (T, T) -> bool) {
    forall i, j :: 0 <= i < j < |xs| ==> leq(xs[i], xs[j])
  }

  function Insert<T>(x: T, xs: seq<T>, leq: (T, T) -> bool): (r: seq<T>)
    ensures |r| == |xs| + 1
    ensures multiset(r) == multiset(xs) + multiset{x}
  {
    if xs == [] || leq(x, xs[0]) then
      [x] + xs
    else
      assert xs == [xs[0]] + xs[1..];
      [xs[0]] + Insert(x, xs[1..], leq)
  }

  /** A stable sort: equal elements keep the order in which they were given. */
  function Sort<T>(xs: seq<T>, leq: (T, T) -> bool): (r: seq<T>)
    ensures |r| == |xs|
    ensures multiset(r) == multiset(xs)
  {
    if xs == [] then
      []
    else
      assert xs == [xs[0]] + xs[1..];
      Insert(xs[0], Sort(xs[1..], leq), leq)
  }

  lemma {:induction false} InsertSorted<T(!new)>(x: T, xs: seq<T>, leq: (T, T) -> bool)
    requires Preorder(leq) && Sorted(xs, leq)
    ensures Sorted(Insert(x, xs, leq), leq)
  {
    if xs == [] || leq(x, xs[0]) {
    } else {
      var tail := Insert(x, xs[1..], leq);
      InsertSorted(x, xs[1..], leq);
      forall k | 0 <= k < |tail|
        ensures leq(xs[0], tail[k])
      {
        assert tail[k] in multiset(tail);
        assert tail[k] == x || tail[k] in xs[1..];
      }
    }
  }

  lemma {:induction false} SortSorted<T(!new)>(xs: seq<T>, leq: (T, T) -> bool)
    requires Preorder(leq)
    ensures Sorted(Sort(xs, leq), leq)
  {
    if xs != [] {
      SortSorted(xs[1..], leq);
      InsertSorted(xs[0], Sort(xs[1..], leq), leq);
    }
  }

  lemma SortMembers<T>(xs: seq<T>, leq: (T, T) -> bool)
    ensures forall x :: x in Sort(xs, leq) <==> x in xs
  {
    forall x
      ensures x in Sort(xs, leq) <==> x in xs
    {
      assert x in multiset(Sort(xs, leq)) <==> x in multiset(xs);
    }
  }

  // ----- a sorted sequence is determined by its elements -----

  /** The step that counts the elements up to `t`. */
  function Counting<T>(leq: (T, T) -> bool, t: T): (nat, T) -> nat {
    (n, x) => if leq(x, t) then n + 1 else n
  }

  function CountUpTo<T>(xs: seq<T>, leq: (T, T) -> bool, t: T): nat {
    Fold(0, Counting(leq, t), xs)
  }

  lemma {:induction false} CountStep<T>(front: seq<T>, last: T, leq: (T, T) -> bool, t: T)
    ensures CountUpTo(front + [last], leq, t) == CountUpTo(front, leq, t) + if leq(last, t) then 1 else 0
  {
    assert (front + [last])[..|front|] == front;
  }

  /** In a sorted sequence the element at position `k` is at most `t` exactly when more than `k` elements are. */
  lemma {:induction false} PositionByCount<T(!new)>(xs: seq<T>, leq: (T, T) -> bool, k: nat, t: T)
    requires Preorder(leq) && Sorted(xs, leq) && k < |xs|
    ensures leq(xs[k], t) <==> CountUpTo(xs, leq, t) > k
    ensures CountUpTo(xs, leq, t) <= |xs|
  {
    var n := |xs| - 1;
    var front, last := xs[..n], xs[n];
    assert xs == front + [last];
    CountStep(front, last, leq, t);
    if n > 0 {
      var j := if k < n then k else n - 1;
      PositionByCount(front, leq, j, t);
      assert leq(xs[j], xs[n]) && front[j] == xs[j];
      assert leq(last, t) ==> leq(xs[j], t);
    } else {
      assert CountUpTo(front, leq, t) == 0;
    }
  }

  /** So two sorted sequences with the same elements agree at every position. */
  lemma {:induction false} SameAtEveryPosition<T(!new)>(xs: seq<T>, ys: seq<T>, leq: (T, T) -> bool)
    requires Preorder(leq) && Antisymmetric(leq) && Sorted(xs, leq) && Sorted(ys, leq)
    requires multiset(xs) == multiset(ys)
    ensures xs == ys
  {
    assert |multiset(xs)| == |xs| && |multiset(ys)| == |ys|;
    forall k | 0 <= k < |xs|
      ensures xs[k] == ys[k]
    {
      assert leq(xs[k], xs[k]) && leq(ys[k], ys[k]);
      forall t
        ensures leq(xs[k], t) <==> leq(ys[k], t)
      {
        FoldPermutation(0, Counting(leq, t), xs, ys);
        PositionByCount(xs, leq, k, t);
        PositionByCount(ys, leq, k, t);
      }
    }
  }

  lemma SortOfPermutation<T(!new)>(xs: seq<T>, ys: seq<T>, leq: (T, T) -> bool)
    requires Preorder(leq) && Antisymmetric(leq)
    requires multiset(xs) == multiset(ys)
    ensures Sort(xs, leq) == Sort(ys, leq)
  {
    SortSorted(xs, leq);
    SortSorted(ys, leq);
    SameAtEveryPosition(Sort(xs, leq), Sort(ys, leq), leq);
  }

  // ----- the two orders the scripts sort by -----

  function Min(a: int, b: int): int {
    if a <= b then a else b
  }

  function Max(a: int, b: int): int {
    if a <= b then b else a
  }

  predicate RealLeq(a: real, b: real) {
    a <= b
  }

  /** Strings compare character by character, a proper prefix first. */
  predicate StrLeq(a: string, b: string) {
    if a == [] then true
    else if b == [] then false
    else if a[0] != b[0] then a[0] < b[0]
    else StrLeq(a[1..], b[1..])
  }

  lemma {:induction false} StrLeqTotal(a: string, b: string)
    ensures StrLeq(a, b) || StrLeq(b, a)
  {
    if a != [] && b != [] && a[0] == b[0] {
      StrLeqTotal(a[1..], b[1..]);
    }
  }

  lemma {:induction false} StrLeqTransitive(a: string, b: string, c: string)
    requires StrLeq(a, b) && StrLeq(b, c)
    ensures StrLeq(a, c)
  {
    if a != [] && a[0] == b[0] && b[0] == c[0] {
      StrLeqTransitive(a[1..], b[1..], c[1..]);
    }
  }

  lemma {:induction false} StrLeqAntisymmetric(a: string, b: string)
    requires StrLeq(a, b) && StrLeq(b, a)
    ensures a == b
  {
    if a != [] {
      StrLeqAntisymmetric(a[1..], b[1..]);
    }
  }

  predicate IsLeast(s: set<string>, x: string) {
    x in s && forall y :: y in s ==> StrLeq(x, y)
  }

  lemma {:induction false} Least(s: set<string>) returns (m: string)
    requires s != {}
    ensures IsLeast(s, m)
  {
    var z :| z in s;
    var rest := s - {z};
    m := z;
    if rest != {} {
      var n := Least(rest);
      if StrLeq(n, z) {
        m := n;
      }
      StrLeqTotal(n, z);
      StrLeqTotal(n, n);
      forall y | y in s
        ensures StrLeq(m, y)
      {
        if y == z {
          StrLeqTotal(z, z);
        } else {
          assert y in rest;
          StrLeqTransitive(m, n, y);
        }
      }
    } else {
      assert s == {z};
      StrLeqTotal(z, z);
    }
  }

  lemma LeastUnique(s: set<string>)
    requires s != {}
    ensures exists x :: IsLeast(s, x)
    ensures forall x, y :: IsLeast(s, x) && IsLeast(s, y) ==> x == y
  {
    var m := Least(s);
    assert IsLeast(s, m);
    forall x, y | IsLeast(s, x) && IsLeast(s, y)
      ensures x == y
    {
      StrLeqAntisymmetric(x, y);
    }
  }

  /** The elements of a set of strings in order, each once. */
  function SortedSet(s: set<string>): (r: seq<string>)
    ensures |r| == |s|
    ensures forall x :: x in r <==> x in s
    ensures forall i, j :: 0 <= i < j < |r| ==> r[i] != r[j] && StrLeq(r[i], r[j])
  {
    if s == {} then
      []
    else
      LeastUnique(s);
      var x :| IsLeast(s, x);
      [x] + SortedSet(s - {x})
  }
}
