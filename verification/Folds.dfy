/** Accumulating loops: a loop that only accumulates is a fold, and a fold whose steps commute does not depend
    on the order of its input. */
module Folds {

  function Fold<S, X>(init: S, step: (S, X) -> S, xs: seq<X>): S {
    if xs == [] then init else step(Fold(init, step, xs[..|xs| - 1]), xs[|xs| - 1])
  }

  lemma {:induction false} FoldStep<S, X>(init: S, step: (S, X) -> S, xs: seq<X>, i: nat)
    requires i < |xs|
    ensures Fold(init, step, xs[..i + 1]) == step(Fold(init, step, xs[..i]), xs[i])
  {
    assert xs[..i + 1][..i] == xs[..i];
  }

  ghost predicate Commutes<S(!new), X(!new)>(step: (S, X) -> S) {
    forall s, a, b :: step(step(s, a), b) == step(step(s, b), a)
  }

  function Without<X>(xs: seq<X>, k: nat): seq<X>
    requires k < |xs|
  {
    xs[..k] + xs[k + 1..]
  }

  lemma WithoutMultiset<X>(xs: seq<X>, k: nat)
    requires k < |xs|
    ensures multiset(Without(xs, k)) == multiset(xs) - multiset{xs[k]}
  {
    assert xs == xs[..k] + [xs[k]] + xs[k + 1..];
  }

  /** The element at any position can be folded last. */
  lemma {:induction false} FoldLast<S(!new), X(!new)>(init: S, step: (S, X) -> S, xs: seq<X>, k: nat)
    requires Commutes(step) && k < |xs|
    ensures Fold(init, step, xs) == step(Fold(init, step, Without(xs, k)), xs[k])
  {
    var front, last := xs[..|xs| - 1], xs[|xs| - 1];
    if k == |xs| - 1 {
      assert Without(xs, k) == front;
    } else {
      FoldLast(init, step, front, k);
      var rest := Without(xs, k);
      assert rest[..|rest| - 1] == Without(front, k) && rest[|rest| - 1] == last;
    }
  }

  lemma {:induction false} FoldPermutation<S(!new), X(!new)>(init: S, step: (S, X) -> S, xs: seq<X>, ys: seq<X>)
    requires Commutes(step) && multiset(xs) == multiset(ys)
    ensures Fold(init, step, xs) == Fold(init, step, ys)
  {
    assert |multiset(xs)| == |xs| && |multiset(ys)| == |ys|;
    if xs != [] {
      var front, last := xs[..|xs| - 1], xs[|xs| - 1];
      assert xs == front + [last];
      assert last in multiset(ys);
      var k :| 0 <= k < |ys| && ys[k] == last;
      WithoutMultiset(ys, k);
      FoldLast(init, step, ys, k);
      assert multiset(front) == multiset(xs) - multiset{last};
      FoldPermutation(init, step, front, Without(ys, k));
    }
  }
}
