/** The bounded load generator (scripts/perf-http-load.py): a window of requests in flight, refilled as
    requests complete.  Which of them complete next, and in which order they are collected, is left open: the
    proofs cover every choice. */
module BoundedLoad {
  import opened Folds
  import opened Sums
  import opened Ordering

  datatype Response = Response(ok: bool, ms: real, status: nat)

  /** The numbers below n. */
  function Ids(n: nat): (r: set<nat>)
    ensures forall i: nat :: i in r <==> i < n
    ensures |r| == n
  {
    if n == 0 then {} else Ids(n - 1) + {n - 1}
  }

  function Members(s: seq<nat>): set<nat> {
    set x | x in s
  }

  lemma SplitCount(s: set<nat>, part: set<nat>)
    requires part <= s
    ensures |s - part| == |s| - |part|
  {
  }

  predicate Placed(submitted: nat, pending: set<nat>, finished: set<nat>, collected: seq<nat>) {
    && Members(collected) + pending + finished == Ids(submitted)
    && Members(collected) !! pending && Members(collected) !! finished && pending !! finished
    && AllDifferent(collected)
  }

  lemma {:induction false} PlaceNew(submitted: nat, pending: set<nat>, finished: set<nat>, collected: seq<nat>)
    requires Placed(submitted, pending, finished, collected)
    ensures Placed(submitted + 1, pending + {submitted}, finished, collected)
    ensures |pending + {submitted}| == |pending| + 1
  {
    assert submitted !in Ids(submitted);
    assert Ids(submitted + 1) == Ids(submitted) + {submitted};
  }

  lemma {:induction false} MoveOne(done: set<nat>, pending: set<nat>, finished: set<nat>, request: nat)
    requires request in finished && done !! pending && done !! finished && pending !! finished
    ensures (done + {request}) + pending + (finished - {request}) == done + pending + finished
    ensures done + {request} !! pending && done + {request} !! finished - {request} && pending !! finished - {request}
  {
  }

  lemma {:induction false} DifferentStep(s: seq<nat>, x: nat)
    requires AllDifferent(s) && x !in Members(s)
    ensures AllDifferent(s + [x])
  {
    forall i | 0 <= i < |s|
      ensures s[i] != x
    {
      assert s[i] in Members(s);
    }
  }

  lemma {:induction false} PlaceCollected(submitted: nat, pending: set<nat>, finished: set<nat>, collected: seq<nat>,
                                          request: nat)
    requires Placed(submitted, pending, finished, collected) && request in finished
    ensures Placed(submitted, pending, finished - {request}, collected + [request])
    ensures |finished - {request}| == |finished| - 1
  {
    SplitCount(finished, {request});
    MembersStep(collected, request);
    MoveOne(Members(collected), pending, finished, request);
    DifferentStep(collected, request);
  }

  lemma {:induction false} PlaceFinished(submitted: nat, pending: set<nat>, finished: set<nat>, collected: seq<nat>)
    requires Placed(submitted, pending, {}, collected) && finished <= pending
    ensures Placed(submitted, pending - finished, finished, collected)
    ensures |pending - finished| == |pending| - |finished|
  {
    SplitCount(pending, finished);
    assert pending == (pending - finished) + finished;
  }

  lemma MembersStep(s: seq<nat>, x: nat)
    ensures Members(s + [x]) == Members(s) + {x}
  {
    assert forall y :: y in s + [x] <==> y in s || y == x;
  }

  /** How many requests may be in flight. */
  function Window(concurrency: nat, total: nat): nat {
    Min(total, Max(concurrency, concurrency * 2))
  }

  /** Twice as many as the workers, but no more than there are requests. */
  lemma {:induction false} WindowMeans(concurrency: nat, total: nat)
    ensures total >= 2 * concurrency ==> Window(concurrency, total) == 2 * concurrency
    ensures total <= 2 * concurrency ==> Window(concurrency, total) == total
  {
  }

  /** Requests are numbered in the order they are submitted. */
  class Scheduler {
    const total: nat
    const limit: nat
    var submitted: nat
    var pending: set<nat>
    var collected: seq<nat>

    constructor (concurrency: nat, total: nat)
      requires concurrency >= 1
      ensures this.total == total && limit == Window(concurrency, total)
      ensures Balanced({}) && pending == {} && submitted == 0
    {
      this.total := total;
      limit := Min(total, Max(concurrency, concurrency * 2));
      submitted, pending, collected := 0, {}, [];
    }

    /** The books balance, `finished` being the requests that have completed and are not collected yet: every
        submitted request is in flight, finished or collected, each in one place only and collected once; and
        no more than the limit are in flight or waiting to be collected. */
    ghost predicate Balanced(finished: set<nat>)
      reads this
    {
      && Placed(submitted, pending, finished, collected)
      && submitted == |collected| + |pending| + |finished|
      && |pending| + |finished| <= limit && submitted <= total
      && limit <= total && (total > 0 ==> limit > 0)
    }

    /** As long as requests remain, the window is full. */
    ghost predicate Full(finished: set<nat>)
      reads this
    {
      submitted < total ==> |pending| + |finished| == limit
    }

    method Submit(ghost finished: set<nat>)
      requires Balanced(finished) && submitted < total && |pending| + |finished| < limit
      modifies this`submitted, this`pending
      ensures Balanced(finished) && submitted == old(submitted) + 1
      ensures pending == old(pending) + {old(submitted)} && |pending| == old(|pending|) + 1
    {
      PlaceNew(submitted, pending, finished, collected);
      pending := pending + {submitted};
      submitted := submitted + 1;
    }

    method Fill()
      requires Balanced({}) && pending == {} && submitted == 0
      modifies this`submitted, this`pending
      ensures Balanced({}) && Full({}) && submitted == limit
      ensures |pending| == limit
    {
      while submitted < limit
        invariant Balanced({}) && collected == [] && submitted <= limit
        decreases limit - submitted
      {
        Submit({});
      }
    }

    /** Collects one finished request and submits a new one in its place, if there is one left. */
    method Collect(request: nat, ghost finished: set<nat>)
      requires Balanced(finished) && Full(finished) && request in finished
      modifies this`submitted, this`pending, this`collected
      ensures Balanced(finished - {request}) && Full(finished - {request})
      ensures collected == old(collected) + [request] && |finished - {request}| == |finished| - 1
    {
      PlaceCollected(submitted, pending, finished, collected, request);
      collected := collected + [request];
      if submitted < total {
        Submit(finished - {request});
      }
    }

    /** One turn of the main loop: takes the finished requests out of the window and collects them, in some
        order. */
    method Turn(finished: set<nat>)
      requires Balanced({}) && Full({}) && finished <= pending && finished != {}
      modifies this`submitted, this`pending, this`collected
      ensures Balanced({}) && Full({})
      ensures |collected| == old(|collected|) + |finished|
      ensures |pending| == Min(limit, total - |collected|)
    {
      PlaceFinished(submitted, pending, finished, collected);
      pending := pending - finished;
      var left := finished;
      while left != {}
        invariant Balanced(left) && Full(left)
        invariant |collected| + |left| == old(|collected|) + |finished|
      {
        var request :| request in left;
        Collect(request, left);
        left := left - {request};
      }
    }

    method Run()
      requires Balanced({}) && pending == {} && submitted == 0
      modifies this`submitted, this`pending, this`collected
      ensures |collected| == total && AllDifferent(collected) && Members(collected) == Ids(total)
    {
      Fill();
      while pending != {}
        invariant Balanced({}) && Full({})
        decreases total - |collected|
      {
        var finished :| finished <= pending && finished != {};
        assert |finished| > 0;
        Turn(finished);
      }
      assert submitted == total;
    }
  }

  /** What the server answers to a request, which may depend on how many answers came before. */
  type Server = (nat, nat) -> Response

  function Answers(respond: Server, order: seq<nat>): seq<Response> {
    seq(|order|, i requires 0 <= i < |order| => respond(order[i], i))
  }

  /** Runs all requests; the results come in the order of completion. */
  method RunBounded(respond: Server, concurrency: nat, total: nat) returns (results: seq<Response>,
                    order: seq<nat>)
    requires concurrency >= 1
    ensures results == Answers(respond, order)
    ensures |order| == total && AllDifferent(order) && Members(order) == Ids(total)
  {
    var scheduler := new Scheduler(concurrency, total);
    scheduler.Run();
    order := scheduler.collected;
    results := Answers(respond, order);
  }

  // ----- the counters -----

  datatype StatusClass = Network | Hundreds(n: nat)

  function ClassOf(r: Response): StatusClass {
    if r.status == 0 then Network else Hundreds(r.status / 100)
  }

  type Classes = map<StatusClass, nat>

  function Count(classes: Classes, r: Response): Classes {
    var key := ClassOf(r);
    classes[key := (if key in classes then classes[key] else 0) + 1]
  }

  function CountError(errors: nat, r: Response): nat {
    if r.ok then errors else errors + 1
  }

  datatype Counters = Counters(errors: nat, classes: Classes)

  function CountersOf(results: seq<Response>): Counters {
    Counters(Fold(0, CountError, results), Fold(map[], Count, results))
  }

  method CountResults(results: seq<Response>) returns (c: Counters)
    ensures c == CountersOf(results)
  {
    var errors: nat, classes: Classes := 0, map[];
    for i := 0 to |results|
      invariant errors == Fold(0, CountError, results[..i])
      invariant classes == Fold(map[], Count, results[..i])
    {
      FoldStep(0, CountError, results, i);
      FoldStep(map[], Count, results, i);
      errors := CountError(errors, results[i]);
      classes := Count(classes, results[i]);
    }
    assert results[..|results|] == results;
    c := Counters(errors, classes);
  }

  function Reals(classes: Classes): map<StatusClass, real> {
    map k | k in classes :: classes[k] as real
  }

  /** The status classes add up to the number of results. */
  lemma {:induction false} ClassesAddUp(results: seq<Response>)
    ensures MapSum(Reals(CountersOf(results).classes)) == |results| as real
    ensures CountersOf(results).errors <= |results|
  {
    if results == [] {
      assert Reals(map[]) == map[];
    } else {
      var front, last := results[..|results| - 1], results[|results| - 1];
      ClassesAddUp(front);
      var before := CountersOf(front).classes;
      var n := if ClassOf(last) in before then before[ClassOf(last)] else 0;
      assert Reals(Count(before, last)) == Reals(before)[ClassOf(last) := (n + 1) as real];
      MapSumUpdate(Reals(before), ClassOf(last), (n + 1) as real);
    }
  }

  /** Each class counts the results that belong to it. */
  lemma {:induction false} ClassMeans(results: seq<Response>, c: StatusClass)
    ensures var classes := CountersOf(results).classes;
            (if c in classes then classes[c] else 0) == |set i | 0 <= i < |results| && ClassOf(results[i]) == c|
  {
    var here := set i | 0 <= i < |results| && ClassOf(results[i]) == c;
    if results == [] {
      assert here == {};
    } else {
      var front, last := results[..|results| - 1], results[|results| - 1];
      ClassMeans(front, c);
      var before := set i | 0 <= i < |front| && ClassOf(front[i]) == c;
      assert here == before + if ClassOf(last) == c then {|front|} else {};
    }
  }

  /** The errors are the responses that are not ok. */
  lemma {:induction false} ErrorsMean(results: seq<Response>)
    ensures CountersOf(results).errors == |set i | 0 <= i < |results| && !results[i].ok|
  {
    var here := set i | 0 <= i < |results| && !results[i].ok;
    if results == [] {
      assert here == {};
    } else {
      var front, last := results[..|results| - 1], results[|results| - 1];
      ErrorsMean(front);
      var before := set i | 0 <= i < |front| && !front[i].ok;
      assert here == before + if last.ok then {} else {|front|};
    }
  }

  /** A response without a status is a network failure; the others are classed by their hundreds. */
  lemma {:induction false} ClassIs(r: Response, n: nat)
    ensures ClassOf(r) == Network <==> r.status == 0
    ensures ClassOf(r) == Hundreds(n) <==> r.status > 0 && 100 * n <= r.status <= 100 * n + 99
  {
  }

  lemma {:induction false} CountingCommutes()
    ensures Commutes(Count) && Commutes(CountError)
  {
    forall s: Classes, a: Response, b: Response
      ensures Count(Count(s, a), b) == Count(Count(s, b), a)
    {
      if ClassOf(a) != ClassOf(b) {
        assert Count(Count(s, a), b) == Count(Count(s, b), a);
      }
    }
  }

  // ----- the order of completion -----

  function FirstIds(n: nat): seq<nat> {
    seq(n, i requires 0 <= i < n => i)
  }

  /** A list of all the numbers below n, each once, is a rearrangement of 0, 1, ..., n - 1. */
  lemma {:induction false} Rearranged(order: seq<nat>, n: nat)
    requires AllDifferent(order) && Members(order) == Ids(n)
    ensures multiset(order) == multiset(FirstIds(n))
  {
    forall x: nat
      ensures multiset(order)[x] == multiset(FirstIds(n))[x]
    {
      OnceEach(order, x);
      OnceEach(FirstIds(n), x);
      assert x in Ids(n) <==> x in Members(order);
      assert x < n ==> FirstIds(n)[x] == x;
    }
  }

  lemma {:induction false} OnceEach(s: seq<nat>, x: nat)
    requires AllDifferent(s)
    ensures multiset(s)[x] == if x in s then 1 else 0
  {
    if s != [] {
      var front, last := s[..|s| - 1], s[|s| - 1];
      assert s == front + [last];
      OnceEach(front, x);
      assert last !in front;
    }
  }

  /** Answers that depend on the request alone. */
  function FixedAnswers(respond: nat -> Response, order: seq<nat>): seq<Response> {
    seq(|order|, i requires 0 <= i < |order| => respond(order[i]))
  }

  lemma {:induction false} AnswerAt(respond: nat -> Response, order: seq<nat>, k: nat)
    requires k < |order|
    ensures multiset(FixedAnswers(respond, order)) ==
              multiset(FixedAnswers(respond, Without(order, k))) + multiset{respond(order[k])}
  {
    WithoutMultiset(FixedAnswers(respond, order), k);
    assert Without(FixedAnswers(respond, order), k) == FixedAnswers(respond, Without(order, k));
    assert FixedAnswers(respond, order)[k] in multiset(FixedAnswers(respond, order));
  }

  lemma {:induction false} AnswersRearranged(respond: nat -> Response, a: seq<nat>, b: seq<nat>)
    requires multiset(a) == multiset(b)
    ensures multiset(FixedAnswers(respond, a)) == multiset(FixedAnswers(respond, b))
  {
    assert |multiset(a)| == |a| && |multiset(b)| == |b|;
    if a != [] {
      assert a[0] in multiset(b);
      var k :| 0 <= k < |b| && b[k] == a[0];
      WithoutMultiset(a, 0);
      WithoutMultiset(b, k);
      AnswersRearranged(respond, Without(a, 0), Without(b, k));
      AnswerAt(respond, a, 0);
      AnswerAt(respond, b, k);
    }
  }

  /** The answer to a request does not depend on when it comes. */
  ghost predicate Timeless(respond: Server) {
    forall request, a, b :: respond(request, a) == respond(request, b)
  }

  /** For a server whose answers do not depend on timing: whatever the order in which requests complete, the
      results are the answers to requests 0, 1, ... in some order, so the counters come out the same. */
  lemma {:induction false} CompletionOrderDoesNotMatter(respond: Server, order: seq<nat>, total: nat)
    requires Timeless(respond) && AllDifferent(order) && Members(order) == Ids(total)
    ensures multiset(Answers(respond, order)) == multiset(Answers(respond, FirstIds(total)))
    ensures CountersOf(Answers(respond, order)) == CountersOf(Answers(respond, FirstIds(total)))
  {
    var fixed := (request: nat) => respond(request, 0);
    Rearranged(order, total);
    AnswersRearranged(fixed, order, FirstIds(total));
    assert Answers(respond, order) == FixedAnswers(fixed, order);
    assert Answers(respond, FirstIds(total)) == FixedAnswers(fixed, FirstIds(total));
    CountingCommutes();
    FoldPermutation(0, CountError, Answers(respond, order), Answers(respond, FirstIds(total)));
    FoldPermutation(map[], Count, Answers(respond, order), Answers(respond, FirstIds(total)));
  }
}
