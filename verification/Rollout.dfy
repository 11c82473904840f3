/** The rollout controller (evals/release_control.py): a candidate version advances through five canary
    stages, one healthy observation at a time, and can be rolled back at any point.  Whole runs are sequences
    of events; an event that is refused leaves the state as it was. */
module Rollout {
  import opened Text
  import opened TextLaws

  datatype Stage = Internal | Percent5 | Percent25 | Percent50 | Percent100 | OtherStage(name: string)

  datatype Status = Shadow | Canary | Promoted | RolledBack | OtherStatus(name: string)

  datatype State = State(baseline: string, candidate: string, alias: string, stage: Stage, status: Status)

  /** A numeric field of an observation: left out, a number, or something else. */
  datatype Reading = Absent | Number(x: real) | NotANumber

  /** The two flags say whether the field is exactly true. */
  datatype Observation = Observation(
    providerFailure: bool, gatePassed: bool, critical: Reading, errorRatio: Reading, costRatio: Reading,
    qualityDelta: Reading)

  datatype Action = Continue | RollBack(reason: string)

  datatype Result = Done(state: State) | Refused(error: string)

  predicate Zero(r: Reading) {
    match r
    case Absent => true
    case Number(x) => x == 0.0
    case NotANumber => false
  }

  /** A number on the right side of its limit; a field that is left out has its default. */
  predicate AtMost(r: Reading, byDefault: real, high: real) {
    match r
    case Absent => byDefault <= high
    case Number(x) => x <= high
    case NotANumber => false
  }

  predicate AtLeast(r: Reading, byDefault: real, low: real) {
    match r
    case Absent => byDefault >= low
    case Number(x) => x >= low
    case NotANumber => false
  }

  function CanaryAction(o: Observation): Action {
    if o.providerFailure then RollBack("provider_failure")
    else if !o.gatePassed then RollBack("release_gate_not_green")
    else if !Zero(o.critical) then RollBack("critical_failure")
    else if !AtMost(o.errorRatio, 1.0, 1.2) then RollBack("error_regression")
    else if !AtMost(o.costRatio, 1.0, 1.2) then RollBack("cost_regression")
    else if !AtLeast(o.qualityDelta, 0.0, -0.02) then RollBack("quality_regression")
    else Continue
  }

  function Canaries(): seq<Stage> {
    [Internal, Percent5, Percent25, Percent50, Percent100]
  }

  function IndexOf(stage: Stage): (i: nat)
    requires !stage.OtherStage?
    ensures i < 5 && Canaries()[i] == stage
  {
    match stage
    case Internal => 0
    case Percent5 => 1
    case Percent25 => 2
    case Percent50 => 3
    case Percent100 => 4
  }

  function Advance(s: State, o: Observation): Result {
    if s.status != Shadow && s.status != Canary then
      Refused("cannot advance")
    else if CanaryAction(o) != Continue then
      Refused("canary requires rollback")
    else if s.stage.OtherStage? then
      Refused("invalid canary stage")
    else
      var index := IndexOf(s.stage);
      if index == |Canaries()| - 1 then
        Done(s.(alias := s.candidate, status := Promoted))
      else
        Done(s.(stage := Canaries()[index + 1], status := Canary))
  }

  function Rollback(s: State, reason: string): Result {
    if Strip(reason) == "" then Refused("rollback requires a reason")
    else Done(s.(alias := s.baseline, status := RolledBack))
  }

  // ----- whole runs -----

  datatype Event = Try(observation: Observation) | Undo(reason: string)

  function Apply(s: State, e: Event): Result {
    match e
    case Try(o) => Advance(s, o)
    case Undo(reason) => Rollback(s, reason)
  }

  /** A refused event changes nothing. */
  function Step(s: State, e: Event): State {
    match Apply(s, e)
    case Done(next) => next
    case Refused(_) => s
  }

  function Run(s: State, events: seq<Event>): State {
    if events == [] then s else Step(Run(s, events[..|events| - 1]), events[|events| - 1])
  }

  function Start(baseline: string, candidate: string): State {
    State(baseline, candidate, baseline, Internal, Shadow)
  }

  // ----- what a run amounts to -----

  /** An advance that every guardrail lets through. */
  predicate Healthy(e: Event) {
    && e.Try?
    && var o := e.observation;
    && !o.providerFailure && o.gatePassed
    && (o.critical == Absent || o.critical == Number(0.0))
    && (o.errorRatio == Absent || (o.errorRatio.Number? && o.errorRatio.x <= 1.2))
    && (o.costRatio == Absent || (o.costRatio.Number? && o.costRatio.x <= 1.2))
    && (o.qualityDelta == Absent || (o.qualityDelta.Number? && o.qualityDelta.x >= -0.02))
  }

  /** A rollback with a reason. */
  predicate Effective(e: Event) {
    e.Undo? && Strip(e.reason) != ""
  }

  /** How many events come before the first effective rollback. */
  function BeforeRollback(events: seq<Event>): (n: nat)
    ensures n <= |events|
    ensures forall i :: 0 <= i < n ==> !Effective(events[i])
    ensures n < |events| ==> Effective(events[n])
  {
    if events == [] || Effective(events[0]) then 0 else 1 + BeforeRollback(events[1..])
  }

  function CountHealthy(events: seq<Event>): nat {
    if events == [] then 0 else
    CountHealthy(events[..|events| - 1]) + if Healthy(events[|events| - 1]) then 1 else 0
  }

  /** The healthy advances before the first effective rollback. */
  function Progress(events: seq<Event>): nat {
    CountHealthy(events[..BeforeRollback(events)])
  }

  predicate WasRolledBack(events: seq<Event>) {
    BeforeRollback(events) < |events|
  }

  function StageAfter(progress: nat): Stage {
    if progress >= 4 then Percent100 else Canaries()[progress]
  }

  /** The state that a run must have reached, from the number of healthy advances and from whether there was a
      rollback. */
  function Expected(baseline: string, candidate: string, progress: nat, rolledBack: bool): State {
    if rolledBack then State(baseline, candidate, baseline, StageAfter(progress), RolledBack)
    else if progress == 0 then Start(baseline, candidate)
    else if progress < 5 then State(baseline, candidate, baseline, StageAfter(progress), Canary)
    else State(baseline, candidate, candidate, Percent100, Promoted)
  }

  lemma {:induction false} ActionMeans(o: Observation)
    ensures CanaryAction(o) == Continue <==> Healthy(Try(o))
  {
  }

  lemma {:induction false} StepMeans(baseline: string, candidate: string, progress: nat, rolledBack: bool, e: Event)
    ensures Step(Expected(baseline, candidate, progress, rolledBack), e) ==
            Expected(baseline, candidate, if !rolledBack && Healthy(e) then progress + 1 else progress,
                     rolledBack || Effective(e))
  {
    if e.Try? {
      ActionMeans(e.observation);
    }
  }

  lemma {:induction false} BeforeRollbackStep(events: seq<Event>, last: Event)
    ensures BeforeRollback(events + [last]) ==
            if WasRolledBack(events) || Effective(last) then BeforeRollback(events) else |events| + 1
  {
    var all := events + [last];
    var n, m := BeforeRollback(events), BeforeRollback(all);
    assert all[|events|] == last && forall i :: 0 <= i < |events| ==> all[i] == events[i];
    if WasRolledBack(events) {
      assert Effective(all[n]);
    }
  }

  lemma {:induction false} ProgressStep(events: seq<Event>, last: Event)
    ensures Progress(events + [last]) ==
            if !WasRolledBack(events) && Healthy(last) then Progress(events) + 1 else Progress(events)
    ensures WasRolledBack(events + [last]) <==> WasRolledBack(events) || Effective(last)
  {
    var all := events + [last];
    BeforeRollbackStep(events, last);
    if WasRolledBack(events) {
      assert all[..BeforeRollback(events)] == events[..BeforeRollback(events)];
    } else if Effective(last) {
      assert all[..|events|] == events && events[..|events|] == events;
    } else {
      assert all[..|all|] == all && all[..|all| - 1] == events && events[..|events|] == events;
    }
  }

  /** The state after any run of events is determined by two things: the number of healthy advances before the
      first effective rollback, and whether there was one. */
  lemma {:induction false} RunMeans(baseline: string, candidate: string, events: seq<Event>)
    ensures Run(Start(baseline, candidate), events) ==
            Expected(baseline, candidate, Progress(events), WasRolledBack(events))
  {
    if events != [] {
      var front, last := events[..|events| - 1], events[|events| - 1];
      assert events == front + [last];
      RunMeans(baseline, candidate, front);
      StepMeans(baseline, candidate, Progress(front), WasRolledBack(front), last);
      ProgressStep(front, last);
    }
  }

  /** Users get the candidate exactly when it has been promoted, which takes at least five healthy advances and
      no effective rollback since the start. */
  lemma {:induction false} AliasIsSafe(baseline: string, candidate: string, events: seq<Event>)
    requires baseline != candidate
    ensures var s := Run(Start(baseline, candidate), events);
            && (s.alias == candidate <==> s.status == Promoted)
            && (s.status == Promoted <==> CountHealthy(events) >= 5 && forall i :: 0 <= i < |events| ==>
                !Effective(events[i]))
            && (s.alias == baseline || s.alias == candidate)
  {
    RunMeans(baseline, candidate, events);
    if !WasRolledBack(events) {
      assert events[..|events|] == events;
    }
  }

  /** Promotion happens at the fifth healthy advance: the event that promotes is healthy, exactly four healthy
      ones precede it, and none of the earlier events is an effective rollback. */
  lemma {:induction false} PromotedAtTheFifth(baseline: string, candidate: string, events: seq<Event>, e: Event)
    requires Run(Start(baseline, candidate), events).status != Promoted
    requires Run(Start(baseline, candidate), events + [e]).status == Promoted
    ensures Healthy(e) && CountHealthy(events) == 4
    ensures forall i :: 0 <= i < |events| ==> !Effective(events[i])
  {
    RunMeans(baseline, candidate, events);
    RunMeans(baseline, candidate, events + [e]);
    ProgressStep(events, e);
    assert events[..|events|] == events;
  }

  lemma {:induction false} StageMonotone(s: State, e: Event)
    requires !s.stage.OtherStage?
    ensures !Step(s, e).stage.OtherStage? && IndexOf(s.stage) <= IndexOf(Step(s, e).stage) <= IndexOf(s.stage) + 1
  {
  }

  /** From any state with a known stage, however it was reached: the stage never moves backwards. */
  lemma {:induction false} NeverBackwards(s: State, events: seq<Event>)
    requires !s.stage.OtherStage?
    ensures !Run(s, events).stage.OtherStage? && IndexOf(s.stage) <= IndexOf(Run(s, events).stage)
  {
    if events != [] {
      NeverBackwards(s, events[..|events| - 1]);
      StageMonotone(Run(s, events[..|events| - 1]), events[|events| - 1]);
    }
  }

  /** A rollout that was rolled back stays so; a promoted one stays promoted until an effective rollback. */
  lemma {:induction false} FinalStatuses(s: State, events: seq<Event>)
    ensures s.status == RolledBack ==> Run(s, events) == s || Run(s, events) == s.(alias := s.baseline)
    ensures s.status == Promoted && (forall i :: 0 <= i < |events| ==> !Effective(events[i])) ==> Run(s, events) == s
    ensures s.status == Promoted && (exists i :: 0 <= i < |events| && Effective(events[i])) ==>
              Run(s, events) == s.(alias := s.baseline, status := RolledBack)
  {
    if events != [] {
      var front, last := events[..|events| - 1], events[|events| - 1];
      FinalStatuses(s, front);
      if i :| 0 <= i < |front| && Effective(front[i]) {
        assert Effective(events[i]);
      }
      if i :| 0 <= i < |events| && Effective(events[i]) {
        assert i < |front| ==> Effective(front[i]);
      }
    }
  }

  // ----- each step, in its fields -----

  /** The stage after a stage. */
  predicate Follows(stage: Stage, next: Stage) {
    || (stage == Internal && next == Percent5) || (stage == Percent5 && next == Percent25)
    || (stage == Percent25 && next == Percent50) || (stage == Percent50 && next == Percent100)
  }

  /** An advance is made exactly from shadow or canary, at a known stage, on a healthy observation; it moves to the
      next stage, or from the last one promotes the candidate. */
  lemma {:induction false} AdvanceMeans(s: State, o: Observation)
    ensures Advance(s, o).Done? <==>
            (s.status == Shadow || s.status == Canary) && Healthy(Try(o)) && !s.stage.OtherStage?
    ensures Advance(s, o).Done? ==>
              var next := Advance(s, o).state;
              && next.baseline == s.baseline && next.candidate == s.candidate
              && (s.stage == Percent100 ==>
                    next.status == Promoted && next.alias == s.candidate && next.stage == Percent100)
              && (s.stage != Percent100 ==>
                    next.status == Canary && next.alias == s.alias && Follows(s.stage, next.stage))
  {
    ActionMeans(o);
  }

  /** A rollback is made exactly for a reason that is not blank, from any state; users get the baseline again. */
  lemma {:induction false} RollbackMeans(s: State, reason: string)
    ensures Rollback(s, reason).Done? <==> !AllWhite(reason)
    ensures Rollback(s, reason).Done? ==>
              var next := Rollback(s, reason).state;
              && next.baseline == s.baseline && next.candidate == s.candidate && next.stage == s.stage
              && next.alias == s.baseline && next.status == RolledBack
    ensures Effective(Undo(reason)) <==> !AllWhite(reason)
  {
    StripsToNothing(reason);
  }

  /** The first guardrail that fails gives the reason. */
  lemma {:induction false} ReasonMeans(o: Observation)
    ensures CanaryAction(o) == RollBack("provider_failure") <==> o.providerFailure
    ensures CanaryAction(o) == RollBack("release_gate_not_green") <==> !o.providerFailure && !o.gatePassed
    ensures CanaryAction(o) == RollBack("critical_failure") <==> Sane(o) && Failures(o)
    ensures CanaryAction(o) == RollBack("error_regression") <==> Sane(o) && !Failures(o) && TooHigh(o.errorRatio)
    ensures CanaryAction(o) == RollBack("cost_regression") <==>
            Sane(o) && !Failures(o) && !TooHigh(o.errorRatio) && TooHigh(o.costRatio)
    ensures CanaryAction(o) == RollBack("quality_regression") <==>
            && Sane(o) && !Failures(o) && !TooHigh(o.errorRatio) && !TooHigh(o.costRatio)
            && (o.qualityDelta == NotANumber || (o.qualityDelta.Number? && o.qualityDelta.x < -0.02))
  {
    ReasonsDiffer();
  }

  predicate Sane(o: Observation) {
    !o.providerFailure && o.gatePassed
  }

  predicate Failures(o: Observation) {
    o.critical != Absent && o.critical != Number(0.0)
  }

  predicate TooHigh(r: Reading) {
    r == NotANumber || (r.Number? && r.x > 1.2)
  }

  lemma {:induction false} ReasonsDiffer()
    ensures |"provider_failure"| == 16 && |"release_gate_not_green"| == 22 && |"error_regression"| == 16
    ensures |"critical_failure"| == 16 && |"cost_regression"| == 15 && |"quality_regression"| == 18
    ensures "provider_failure"[0] == 'p' && "critical_failure"[0] == 'c' && "error_regression"[0] == 'e'
  {
  }

  /** The state after a run, in its fields: rolled back exactly after an effective rollback; otherwise in shadow until
      the first healthy advance, then in canary, promoted from the fifth; the stage counts the healthy advances
      before the first effective rollback, up to four. */
  lemma {:induction false} RunInFields(baseline: string, candidate: string, events: seq<Event>)
    ensures var s, rolledBack, n := Run(Start(baseline, candidate), events), WasRolledBack(events), Progress(events);
            && s.baseline == baseline && s.candidate == candidate
            && s.alias == (if !rolledBack && n >= 5 then candidate else baseline)
            && (s.status == RolledBack <==> rolledBack) && (s.status == Promoted <==> !rolledBack && n >= 5)
            && (s.status == Canary <==> !rolledBack && 1 <= n < 5) && (s.status == Shadow <==> !rolledBack && n == 0)
            && (s.stage == Internal <==> n == 0) && (s.stage == Percent5 <==> n == 1)
            && (s.stage == Percent25 <==> n == 2) && (s.stage == Percent50 <==> n == 3)
            && (s.stage == Percent100 <==> n >= 4)
    ensures WasRolledBack(events) <==> exists i :: 0 <= i < |events| && Effective(events[i])
  {
    RunMeans(baseline, candidate, events);
  }
}
