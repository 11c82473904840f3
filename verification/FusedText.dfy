/** Types written side by side with `|` or `&` and no parentheses.  Read with `&` tighter, the text of an
    intersection falls into alternatives; each joins alternatives of some neighbouring branches and is cut loose
    from the other branches.  The text means the intersection exactly when every alternative is contained in the
    branches it was cut loose from. */
module FusedText {
  import opened Schemas
  import opened Types
  import opened PrintedTypes

  lemma {:induction false} InOne(env: map<string, Alt>, fuel: nat, cut: bool, p: Prim, v: Json)
    ensures InhabitsAlt(env, fuel, cut, One(p), v) <==> InhabitsPrim(env, fuel, cut, p, v)
  {
    var a := One(p);
    assert a.groups[0].prims[0] == p;
    if InhabitsPrim(env, fuel, cut, p, v) {
      assert InhabitsGroup(env, fuel, cut, a.groups[0], v);
    }
  }

  lemma {:induction false} InAppend(env: map<string, Alt>, fuel: nat, cut: bool, a: seq<Group>, b: seq<Group>, v: Json)
    ensures InhabitsAlt(env, fuel, cut, Alt(a + b), v) <==>
            InhabitsAlt(env, fuel, cut, Alt(a), v) || InhabitsAlt(env, fuel, cut, Alt(b), v)
  {
    var ab := Alt(a + b);
    forall k | 0 <= k < |a|
      ensures ab.groups[k] == Alt(a).groups[k]
    {
    }
    forall k | 0 <= k < |b|
      ensures ab.groups[|a| + k] == Alt(b).groups[k]
    {
    }
    if k :| 0 <= k < |a + b| && InhabitsGroup(env, fuel, cut, ab.groups[k], v) {
      if k < |a| {
        assert InhabitsGroup(env, fuel, cut, Alt(a).groups[k], v);
      } else {
        assert InhabitsGroup(env, fuel, cut, Alt(b).groups[k - |a|], v);
      }
    }
  }

  lemma {:induction false} InConcat(env: map<string, Alt>, fuel: nat, cut: bool, xs: seq<Alt>, v: Json)
    ensures InhabitsAlt(env, fuel, cut, Alt(Concat(xs)), v) <==>
            exists i :: 0 <= i < |xs| && InhabitsAlt(env, fuel, cut, xs[i], v)
  {
    if xs != [] {
      var rest := xs[1..];
      InConcat(env, fuel, cut, rest, v);
      InAppend(env, fuel, cut, xs[0].groups, Concat(rest), v);
      assert Alt(xs[0].groups) == xs[0];
      assert forall i :: 0 <= i < |rest| ==> rest[i] == xs[i + 1];
      assert forall i :: 1 <= i < |xs| ==> xs[i] == rest[i - 1];
    }
  }

  lemma {:induction false} InGroupAppend(env: map<string, Alt>, fuel: nat, cut: bool, g: Group, h: Group, v: Json)
    ensures InhabitsGroup(env, fuel, cut, Group(g.prims + h.prims), v) <==>
            InhabitsGroup(env, fuel, cut, g, v) && InhabitsGroup(env, fuel, cut, h, v)
  {
    var gh := Group(g.prims + h.prims);
    forall j | 0 <= j < |g.prims|
      ensures gh.prims[j] == g.prims[j]
    {
    }
    forall j | 0 <= j < |h.prims|
      ensures gh.prims[|g.prims| + j] == h.prims[j]
    {
    }
  }

  /** `a & b` read without parentheses: the last alternative of `a` meets the first of `b`, and every other
      alternative of either side is cut loose from the other side. */
  lemma {:induction false} InFuse(env: map<string, Alt>, fuel: nat, cut: bool, a: seq<Group>, b: seq<Group>, v: Json)
    requires a != [] && b != []
    ensures InhabitsAlt(env, fuel, cut, Alt(Fuse(a, b)), v) <==>
            || InhabitsAlt(env, fuel, cut, Alt(a[..|a| - 1]), v)
            || (InhabitsGroup(env, fuel, cut, a[|a| - 1], v) && InhabitsGroup(env, fuel, cut, b[0], v))
            || InhabitsAlt(env, fuel, cut, Alt(b[1..]), v)
  {
    var n := |a| - 1;
    var middle := Group(a[n].prims + b[0].prims);
    InAppend(env, fuel, cut, a[..n] + [middle], b[1..], v);
    InAppend(env, fuel, cut, a[..n], [middle], v);
    InSingle(env, fuel, cut, middle, v);
    InGroupAppend(env, fuel, cut, a[n], b[0], v);
  }

  lemma {:induction false} InSingle(env: map<string, Alt>, fuel: nat, cut: bool, g: Group, v: Json)
    ensures InhabitsAlt(env, fuel, cut, Alt([g]), v) <==> InhabitsGroup(env, fuel, cut, g, v)
  {
    assert Alt([g]).groups[0] == g;
  }

  /** What the two sides admit, alternative by alternative. */
  lemma {:induction false} InSides(env: map<string, Alt>, fuel: nat, cut: bool, a: seq<Group>, b: seq<Group>, v: Json)
    requires a != [] && b != []
    ensures InhabitsAlt(env, fuel, cut, Alt(a), v) <==>
            InhabitsAlt(env, fuel, cut, Alt(a[..|a| - 1]), v) || InhabitsGroup(env, fuel, cut, a[|a| - 1], v)
    ensures InhabitsAlt(env, fuel, cut, Alt(b), v) <==>
            InhabitsGroup(env, fuel, cut, b[0], v) || InhabitsAlt(env, fuel, cut, Alt(b[1..]), v)
  {
    var n := |a| - 1;
    assert a == a[..n] + [a[n]] && b == [b[0]] + b[1..];
    InAppend(env, fuel, cut, a[..n], [a[n]], v);
    InAppend(env, fuel, cut, [b[0]], b[1..], v);
    InSingle(env, fuel, cut, a[n], v);
    InSingle(env, fuel, cut, b[0], v);
  }

  /** Written without parentheses, `a & b` means the intersection for a value exactly when what is cut loose
      from one side is contained in that side all the same. */
  lemma {:induction false} FusedExactly(env: map<string, Alt>, fuel: nat, cut: bool, a: seq<Group>, b: seq<Group>,
                                        v: Json)
    requires a != [] && b != []
    ensures (InhabitsAlt(env, fuel, cut, Alt(Fuse(a, b)), v) <==>
               InhabitsAlt(env, fuel, cut, Alt(a), v) && InhabitsAlt(env, fuel, cut, Alt(b), v))
            <==>
            && (InhabitsAlt(env, fuel, cut, Alt(a[..|a| - 1]), v) ==> InhabitsAlt(env, fuel, cut, Alt(b), v))
            && (InhabitsAlt(env, fuel, cut, Alt(b[1..]), v) ==> InhabitsAlt(env, fuel, cut, Alt(a), v))
  {
    InFuse(env, fuel, cut, a, b, v);
    InSides(env, fuel, cut, a, b, v);
  }

  lemma {:induction false} InFuseAll(env: map<string, Alt>, fuel: nat, cut: bool, xs: seq<Alt>, v: Json)
    requires xs != [] && forall i :: 0 <= i < |xs| ==> WfAlt(xs[i])
    requires forall i :: 0 <= i < |xs| ==> InhabitsAlt(env, fuel, cut, xs[i], v)
    ensures InhabitsAlt(env, fuel, cut, Alt(FuseAll(xs)), v)
  {
    assert Alt(xs[0].groups) == xs[0];
    if |xs| > 1 {
      InFuseAll(env, fuel, cut, xs[1..], v);
      FuseAllWf(xs[1..]);
      assert WfAlt(xs[0]);
      InFuse(env, fuel, cut, xs[0].groups, FuseAll(xs[1..]), v);
      InSides(env, fuel, cut, xs[0].groups, FuseAll(xs[1..]), v);
    }
  }

  /** The branches, from one index to another, that an alternative of the text joins. */
  datatype Span = Span(first: nat, last: nat)

  /** Every branch has an alternative. */
  predicate Whole(xs: seq<Alt>) {
    forall i :: 0 <= i < |xs| ==> xs[i].groups != []
  }

  /** The span of each alternative of `FuseAll(xs)`, the first of `xs` being branch number `base`. */
  function Spans(xs: seq<Alt>, base: nat): (r: seq<Span>)
    requires Whole(xs)
    ensures |r| == |FuseAll(xs)|
    ensures xs != [] ==> r != [] && r[0].first == base
  {
    if |xs| == 0 then []
    else if |xs| == 1 then seq(|xs[0].groups|, _ => Span(base, base))
    else
      var rest := Spans(xs[1..], base + 1);
      seq(|xs[0].groups| - 1, _ => Span(base, base)) + [Span(base, rest[0].last)] + rest[1..]
  }

  /** Where an alternative of the text comes from: an alternative of the first branch, the one that joins it to the
      rest, or one of the rest. */
  lemma {:induction false} Origin(xs: seq<Alt>, base: nat, p: nat)
    requires |xs| > 1 && Whole(xs) && p < |FuseAll(xs)|
    ensures var n, b, rest := |xs[0].groups| - 1, FuseAll(xs[1..]), Spans(xs[1..], base + 1);
            && |b| == |rest| > 0
            && (p < n ==> FuseAll(xs)[p] == xs[0].groups[p] && Spans(xs, base)[p] == Span(base, base))
            && (p == n ==> FuseAll(xs)[p] == Group(xs[0].groups[n].prims + b[0].prims)
                           && Spans(xs, base)[p] == Span(base, rest[0].last))
            && (p > n ==> p - n < |b| && FuseAll(xs)[p] == b[p - n] && Spans(xs, base)[p] == rest[p - n])
  {
  }

  lemma {:induction false} InBranch(env: map<string, Alt>, fuel: nat, cut: bool, a: Alt, p: nat, v: Json)
    requires p < |a.groups| && InhabitsGroup(env, fuel, cut, a.groups[p], v)
    ensures InhabitsAlt(env, fuel, cut, a, v)
  {
  }

  /** `v` is in every branch of the span. */
  ghost predicate InSpan(env: map<string, Alt>, fuel: nat, cut: bool, xs: seq<Alt>, base: nat, span: Span, v: Json) {
    forall i :: 0 <= i < |xs| && span.first <= base + i <= span.last ==> InhabitsAlt(env, fuel, cut, xs[i], v)
  }

  lemma {:induction false} InSpanShifted(env: map<string, Alt>, fuel: nat, cut: bool, xs: seq<Alt>, base: nat,
                                         span: Span, v: Json)
    requires xs != [] && InSpan(env, fuel, cut, xs[1..], base + 1, span, v)
    requires span.first <= base ==> InhabitsAlt(env, fuel, cut, xs[0], v)
    ensures InSpan(env, fuel, cut, xs, base, span, v)
  {
    forall i | 0 <= i < |xs| && span.first <= base + i <= span.last
      ensures InhabitsAlt(env, fuel, cut, xs[i], v)
    {
      assert i > 0 ==> xs[i] == xs[1..][i - 1];
    }
  }

  lemma {:induction false} InSpanExtended(env: map<string, Alt>, fuel: nat, cut: bool, xs: seq<Alt>, base: nat,
                                          span: Span, v: Json)
    requires xs != [] && InSpan(env, fuel, cut, xs[1..], base + 1, span, v)
    requires span.first == base + 1 && InhabitsAlt(env, fuel, cut, xs[0], v)
    ensures InSpan(env, fuel, cut, xs, base, Span(base, span.last), v)
  {
    forall i | 0 <= i < |xs| && base + i <= span.last
      ensures InhabitsAlt(env, fuel, cut, xs[i], v)
    {
      assert i > 0 ==> xs[i] == xs[1..][i - 1];
    }
  }

  /** An alternative is contained in every branch it joins. */
  lemma {:induction false} InJoined(env: map<string, Alt>, fuel: nat, cut: bool, xs: seq<Alt>, base: nat, p: nat,
                                    v: Json)
    requires Whole(xs) && p < |FuseAll(xs)| && InhabitsGroup(env, fuel, cut, FuseAll(xs)[p], v)
    ensures InSpan(env, fuel, cut, xs, base, Spans(xs, base)[p], v)
  {
    if |xs| == 1 {
      InBranch(env, fuel, cut, xs[0], p, v);
    } else {
      var n, rest := |xs[0].groups| - 1, xs[1..];
      Origin(xs, base, p);
      if p < n {
        InBranch(env, fuel, cut, xs[0], p, v);
      } else if p == n {
        InGroupAppend(env, fuel, cut, xs[0].groups[n], FuseAll(rest)[0], v);
        InBranch(env, fuel, cut, xs[0], n, v);
        InJoined(env, fuel, cut, rest, base + 1, 0, v);
        InSpanExtended(env, fuel, cut, xs, base, Spans(rest, base + 1)[0], v);
      } else {
        SpanStarts(rest, base + 1, p - n);
        InJoined(env, fuel, cut, rest, base + 1, p - n, v);
        InSpanShifted(env, fuel, cut, xs, base, Spans(xs, base)[p], v);
      }
    }
  }

  lemma {:induction false} SpanStarts(xs: seq<Alt>, base: nat, p: nat)
    requires Whole(xs)
    requires p < |Spans(xs, base)|
    ensures base <= Spans(xs, base)[p].first <= Spans(xs, base)[p].last < base + |xs|
  {
    var n := |xs[0].groups| - 1;
    if |xs| > 1 && p >= n {
      SpanStarts(xs[1..], base + 1, p - n);
    }
  }

  /** Every alternative of the text that `v` inhabits is contained in the branches it was cut loose from. */
  ghost predicate LooseContained(env: map<string, Alt>, fuel: nat, cut: bool, xs: seq<Alt>, v: Json)
    requires Whole(xs)
  {
    forall p, l :: 0 <= p < |FuseAll(xs)| && 0 <= l < |xs| && !(Spans(xs, 0)[p].first <= l <= Spans(xs, 0)[p].last)
                   && InhabitsGroup(env, fuel, cut, FuseAll(xs)[p], v) ==>
      InhabitsAlt(env, fuel, cut, xs[l], v)
  }

  ghost predicate InEvery(env: map<string, Alt>, fuel: nat, cut: bool, xs: seq<Alt>, v: Json) {
    forall i :: 0 <= i < |xs| ==> InhabitsAlt(env, fuel, cut, xs[i], v)
  }

  /** The text of an intersection means the intersection, for a value, exactly when nothing cut loose strays. */
  lemma {:induction false} FusedAllExactly(env: map<string, Alt>, fuel: nat, cut: bool, xs: seq<Alt>, v: Json)
    requires xs != [] && Whole(xs) && forall i :: 0 <= i < |xs| ==> WfAlt(xs[i])
    ensures (InhabitsAlt(env, fuel, cut, Alt(FuseAll(xs)), v) <==> InEvery(env, fuel, cut, xs, v))
            <==> LooseContained(env, fuel, cut, xs, v)
  {
    var text := Alt(FuseAll(xs));
    if InEvery(env, fuel, cut, xs, v) {
      InFuseAll(env, fuel, cut, xs, v);
    }
    forall p | 0 <= p < |text.groups| && InhabitsGroup(env, fuel, cut, text.groups[p], v)
      ensures InSpan(env, fuel, cut, xs, 0, Spans(xs, 0)[p], v)
    {
      InJoined(env, fuel, cut, xs, 0, p, v);
    }
  }

  /** Branches without a top-level `|` leave one alternative that joins them all. */
  lemma {:induction false} SingleSpan(xs: seq<Alt>, base: nat)
    requires xs != [] && forall i :: 0 <= i < |xs| ==> |xs[i].groups| == 1
    ensures Spans(xs, base) == [Span(base, base + |xs| - 1)]
  {
    if |xs| > 1 {
      SingleSpan(xs[1..], base + 1);
    }
  }
}
