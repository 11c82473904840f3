/** Deriving the latency of AI tasks from stage events and browser samples
    (scripts/derive_performance_ai_latency.py), over exact reals. */
module Latency {
  import opened Schemas
  import opened Ordering
  import opened Folds
  import opened Sums
  import OrderStatistics

  datatype Stage =
    | Enqueue | Routing | Download | Postprocess | Validation | ArtifactPersist | UiPropagation
    | Provider | PlatformOverhead | OtherStage(name: string)

  datatype Outcome = Success | Error | OtherOutcome(name: string)

  datatype Event = Event(
    schemaVersion: int, runId: string, profileId: string, sourceSha: string, operationId: string, service: string,
    taskId: string, stage: Stage, startedNs: int, completedNs: int, durationMs: real, outcome: Outcome, attempt: int)

  /** A browser sample; `createdMs` is its ISO timestamp, when that parses and names a time zone. */
  datatype UiSample = UiSample(
    schemaVersion: int, eventType: string, eventId: string, runId: string, taskId: string,
    createdMs: Option<int>, sourceMs: int, paintedMs: int, durationMs: real)

  datatype Profile = Profile(id: string, measures: seq<string>)

  type Totals = map<Stage, real>

  datatype Row = Row(taskId: string, operationId: string, totals: Totals, overhead: real)

  datatype Summary = Summary(samples: nat, p50: real, p95: real)

  datatype Report = Report(
    runId: string, profileId: string, sourceSha: string, uiSamples: nat, required: seq<Stage>,
    stages: map<Stage, Summary>, provider: Option<Summary>, overhead: Summary, tasks: seq<Row>)

  function NonProvider(): seq<Stage> {
    [Enqueue, Routing, Download, Postprocess, Validation, ArtifactPersist, UiPropagation]
  }

  // ----- the profile -----

  function StageOf(measure: string): Option<Stage> {
    if measure == "enqueue_p50_ms" || measure == "enqueue_p95_ms" || measure == "queue_wait_ms" then Some(Enqueue)
    else if measure == "routing_ms" then Some(Routing)
    else if measure == "provider_latency_ms" then Some(Provider)
    else if measure == "download_ms" then Some(Download)
    else if measure == "postprocess_ms" then Some(Postprocess)
    else if measure == "validation_ms" then Some(Validation)
    else if measure == "artifact_persist_ms" then Some(ArtifactPersist)
    else if measure == "sse_platform_propagation_ms" then Some(UiPropagation)
    else None
  }

  function Listed(stages: seq<Stage>, measure: string): seq<Stage> {
    match StageOf(measure)
    case Some(stage) => if stage in stages then stages else stages + [stage]
    case None => stages
  }

  function RequiredStages(measures: seq<string>): seq<Stage> {
    Fold([], Listed, measures)
  }

  method ListStages(measures: seq<string>) returns (stages: seq<Stage>)
    ensures stages == RequiredStages(measures)
  {
    stages := [];
    for i := 0 to |measures|
      invariant stages == RequiredStages(measures[..i])
    {
      assert measures[..i + 1][..i] == measures[..i];
      stages := Listed(stages, measures[i]);
    }
    assert measures[..|measures|] == measures;
  }

  /** Each required stage is listed once, and a stage is required exactly when some measure asks for it. */
  lemma {:induction false} RequiredStagesAre(measures: seq<string>)
    ensures AllDifferent(RequiredStages(measures))
    ensures forall s :: s in RequiredStages(measures) <==>
            exists i :: 0 <= i < |measures| && StageOf(measures[i]) == Some(s)
  {
    if measures != [] {
      var front, last := measures[..|measures| - 1], measures[|measures| - 1];
      RequiredStagesAre(front);
      var before := RequiredStages(front);
      assert RequiredStages(measures) == Listed(before, last);
      forall s
        ensures s in Listed(before, last) <==> s in before || StageOf(last) == Some(s)
      {
      }
      forall s
        ensures s in RequiredStages(measures) <==> exists i :: 0 <= i < |measures| && StageOf(measures[i]) == Some(s)
      {
        AskedBy(measures, s);
      }
    }
  }

  /** The measures that ask for a stage, as a property of the last one and those before it. */
  lemma {:induction false} AskedBy(measures: seq<string>, s: Stage)
    requires measures != []
    ensures var front, last := measures[..|measures| - 1], measures[|measures| - 1];
            (exists i :: 0 <= i < |measures| && StageOf(measures[i]) == Some(s)) <==>
            (exists i :: 0 <= i < |front| && StageOf(front[i]) == Some(s)) || StageOf(last) == Some(s)
  {
    AnyOfLast(measures, m => StageOf(m) == Some(s));
  }

  lemma {:induction false} AnyOfLast(ms: seq<string>, asks: string -> bool)
    requires ms != []
    ensures var front := ms[..|ms| - 1];
            (exists i :: 0 <= i < |ms| && asks(ms[i])) <==>
            (exists i :: 0 <= i < |front| && asks(front[i])) || asks(ms[|ms| - 1])
  {
    var front := ms[..|ms| - 1];
    if i :| 0 <= i < |front| && asks(front[i]) {
      assert asks(ms[i]);
    }
    if i :| 0 <= i < |ms| && asks(ms[i]) {
      assert i < |front| ==> asks(front[i]);
    }
  }

  // ----- one event, one sample -----

  predicate Near(a: real, b: real, tolerance: real) {
    -tolerance <= a - b <= tolerance
  }

  predicate ValidEvent(e: Event) {
    && e.schemaVersion == 1
    && !e.stage.OtherStage? && !e.stage.PlatformOverhead?
    && e.taskId != "" && e.runId != "" && e.profileId != "" && e.sourceSha != "" && e.operationId != "" &&
       e.service != ""
    && !e.outcome.OtherOutcome? && e.attempt >= 1
    && 0 <= e.startedNs <= e.completedNs && e.durationMs >= 0.0
    && Near(e.durationMs, (e.completedNs - e.startedNs) as real / 1000000.0, 0.001)
  }

  predicate ValidSample(u: UiSample) {
    && u.schemaVersion == 1 && u.eventType == "artifact.created"
    && u.eventId != "" && u.runId != "" && u.taskId != ""
    && 0 <= u.sourceMs <= u.paintedMs
    && u.createdMs.Some? && -1 <= u.createdMs.value - u.sourceMs <= 1
    && u.durationMs >= 0.0 && Near(u.durationMs, (u.paintedMs - u.sourceMs) as real, 0.001)
  }

  predicate AllValid(events: seq<Event>) {
    forall e :: e in events ==> ValidEvent(e)
  }

  predicate AllSamplesValid(ui: seq<UiSample>) {
    forall u :: u in ui ==> ValidSample(u)
  }

  // ----- grouping -----

  type ByTask = map<string, Totals>

  function Charge(totals: Totals, stage: Stage, ms: real): Totals {
    totals[stage := ValueOr(totals, stage) + ms]
  }

  /** Adds a duration under a task and a stage; both start at nothing. */
  function Spend(t: ByTask, task: string, stage: Stage, ms: real): ByTask {
    var totals := if task in t then t[task] else map[];
    t[task := Charge(totals, stage, ms)]
  }

  function AddEvent(t: ByTask, e: Event): ByTask {
    Spend(t, e.taskId, e.stage, e.durationMs)
  }

  function AddSample(t: ByTask, u: UiSample): ByTask {
    Spend(t, u.taskId, UiPropagation, u.durationMs)
  }

  function Tally(events: seq<Event>, ui: seq<UiSample>): ByTask {
    Fold(Fold(map[], AddEvent, events), AddSample, ui)
  }

  lemma {:induction false} SpendInTask(totals: Totals, stage: Stage, ms: real, stage': Stage, ms': real)
    ensures Charge(Charge(totals, stage, ms), stage', ms') == Charge(Charge(totals, stage', ms'), stage, ms)
  {
  }

  lemma {:induction false} SpendApart(t: ByTask, task: string, stage: Stage, ms: real, task': string, stage': Stage,
                                      ms': real)
    requires task != task'
    ensures Spend(Spend(t, task, stage, ms), task', stage', ms') == Spend(Spend(t, task', stage', ms'), task, stage, ms)
  {
  }

  lemma {:induction false} SpendTwice(t: ByTask, task: string, stage: Stage, ms: real, stage': Stage, ms': real)
    ensures var totals := if task in t then t[task] else map[];
            Spend(Spend(t, task, stage, ms), task, stage', ms') ==
                  t[task := Charge(Charge(totals, stage, ms), stage', ms')]
  {
  }

  lemma {:induction false} SpendCommutes(t: ByTask, task: string, stage: Stage, ms: real, task': string,
                                         stage': Stage, ms': real)
    ensures Spend(Spend(t, task, stage, ms), task', stage', ms') == Spend(Spend(t, task', stage', ms'), task, stage, ms)
  {
    if task != task' {
      SpendApart(t, task, stage, ms, task', stage', ms');
    } else {
      SpendInTask(if task in t then t[task] else map[], stage, ms, stage', ms');
      SpendTwice(t, task, stage, ms, stage', ms');
      SpendTwice(t, task, stage', ms', stage, ms);
    }
  }

  lemma {:induction false} AddingCommutes()
    ensures Commutes(AddEvent) && Commutes(AddSample)
  {
    forall t: ByTask, a: Event, b: Event
      ensures AddEvent(AddEvent(t, a), b) == AddEvent(AddEvent(t, b), a)
    {
      SpendCommutes(t, a.taskId, a.stage, a.durationMs, b.taskId, b.stage, b.durationMs);
    }
    forall t: ByTask, a: UiSample, b: UiSample
      ensures AddSample(AddSample(t, a), b) == AddSample(AddSample(t, b), a)
    {
      SpendCommutes(t, a.taskId, UiPropagation, a.durationMs, b.taskId, UiPropagation, b.durationMs);
    }
  }

  /** No task changes its operation. */
  predicate NoDrift(events: seq<Event>) {
    forall e, f :: e in events && f in events && e.taskId == f.taskId ==> e.operationId == f.operationId
  }

  function Operations(events: seq<Event>): map<string, string>
    requires NoDrift(events)
  {
    map e | e in events :: e.taskId := e.operationId
  }

  function Failed(events: seq<Event>): set<string> {
    set e | e in events && e.outcome == Error :: e.taskId
  }

  datatype Grouped = Grouped(byTask: ByTask, operations: map<string, string>, failed: set<string>)

  lemma {:induction false} DriftStep(events: seq<Event>, e: Event)
    requires NoDrift(events)
    ensures NoDrift(events + [e]) <==>
            (e.taskId in Operations(events) ==> Operations(events)[e.taskId] == e.operationId)
    ensures NoDrift(events + [e]) ==> Operations(events + [e]) == Operations(events)[e.taskId := e.operationId]
  {
    var all := events + [e];
    assert forall x :: x in all <==> x in events || x == e;
    if NoDrift(all) {
      if e.taskId in Operations(events) {
        var f :| f in events && f.taskId == e.taskId;
        assert f in all;
      }
      var now, later := Operations(all), Operations(events)[e.taskId := e.operationId];
      forall k
        ensures k in now <==> k in later
      {
        if k in now {
          var f :| f in all && f.taskId == k;
          assert f in events || f == e;
        }
        if k in Operations(events) {
          var f :| f in events && f.taskId == k;
          assert f in all;
        }
      }
    }
  }

  lemma {:induction false} DriftFound(events: seq<Event>, i: nat)
    requires i < |events| && NoDrift(events[..i]) && events[i].taskId in Operations(events[..i])
    requires Operations(events[..i])[events[i].taskId] != events[i].operationId
    ensures !NoDrift(events)
  {
    var f :| f in events[..i] && f.taskId == events[i].taskId;
    assert f in events && events[i] in events;
  }

  /** What the loop over the events has built after i of them. */
  predicate GroupedSoFar(events: seq<Event>, i: nat, g: Grouped)
    requires i <= |events|
  {
    && NoDrift(events[..i])
    && g == Grouped(Fold(map[], AddEvent, events[..i]), Operations(events[..i]), Failed(events[..i]))
  }

  lemma {:induction false} GroupStep(events: seq<Event>, i: nat, g: Grouped)
    requires i < |events| && GroupedSoFar(events, i, g)
    requires events[i].taskId in g.operations ==> g.operations[events[i].taskId] == events[i].operationId
    ensures var e := events[i];
            GroupedSoFar(events, i + 1, Grouped(AddEvent(g.byTask, e), g.operations[e.taskId := e.operationId],
                                                g.failed + if e.outcome == Error then {e.taskId} else {}))
  {
    var e := events[i];
    assert events[..i + 1] == events[..i] + [e];
    FoldStep(map[], AddEvent, events, i);
    DriftStep(events[..i], e);
    FailedStep(events[..i], e);
  }

  /** The loop over the events: totals, operation of each task, tasks with a failed event. */
  method GroupEvents(events: seq<Event>) returns (r: Option<Grouped>)
    ensures r.Some? <==> NoDrift(events)
    ensures r.Some? ==> r.value == Grouped(Fold(map[], AddEvent, events), Operations(events), Failed(events))
  {
    var byTask: ByTask, operations: map<string, string>, failed: set<string> := map[], map[], {};
    for i := 0 to |events|
      invariant GroupedSoFar(events, i, Grouped(byTask, operations, failed))
    {
      var e := events[i];
      if e.taskId in operations && operations[e.taskId] != e.operationId {
        DriftFound(events, i);
        return None;
      }
      GroupStep(events, i, Grouped(byTask, operations, failed));
      operations := operations[e.taskId := e.operationId];
      byTask := AddEvent(byTask, e);
      if e.outcome == Error {
        failed := failed + {e.taskId};
      }
    }
    assert events[..|events|] == events;
    r := Some(Grouped(byTask, operations, failed));
  }

  lemma {:induction false} FailedStep(events: seq<Event>, e: Event)
    ensures Failed(events + [e]) == Failed(events) + if e.outcome == Error then {e.taskId} else {}
  {
    assert forall x :: x in events + [e] <==> x in events || x == e;
  }

  // ----- browser samples -----

  predicate DifferentIds(ui: seq<UiSample>) {
    forall i, j :: 0 <= i < j < |ui| ==> ui[i].eventId != ui[j].eventId
  }

  /** The identifiers seen so far, or nothing once one has been seen twice. */
  function See(seen: Option<set<string>>, u: UiSample): Option<set<string>> {
    if seen.None? || u.eventId in seen.value then None else Some(seen.value + {u.eventId})
  }

  function Ids(ui: seq<UiSample>): set<string> {
    set u | u in ui :: u.eventId
  }

  lemma {:induction false} IdsStep(ui: seq<UiSample>, last: UiSample)
    ensures DifferentIds(ui + [last]) <==> DifferentIds(ui) && last.eventId !in Ids(ui)
    ensures Ids(ui + [last]) == Ids(ui) + {last.eventId}
  {
    var all := ui + [last];
    assert forall u :: u in all <==> u in ui || u == last;
    assert all[|ui|] == last && forall i :: 0 <= i < |ui| ==> all[i] == ui[i];
    if last.eventId in Ids(ui) {
      var i :| 0 <= i < |ui| && ui[i].eventId == last.eventId;
      assert all[i].eventId == all[|ui|].eventId;
    }
  }

  lemma {:induction false} SeenAreDifferent(ui: seq<UiSample>)
    ensures Fold(Some({}), See, ui) == if DifferentIds(ui) then Some(Ids(ui)) else None
  {
    if ui != [] {
      var front, last := ui[..|ui| - 1], ui[|ui| - 1];
      assert ui == front + [last];
      SeenAreDifferent(front);
      IdsStep(front, last);
    } else {
      assert Ids(ui) == {};
    }
  }

  predicate KnownTasks(ui: seq<UiSample>, tasks: set<string>) {
    forall u :: u in ui ==> u.taskId in tasks
  }

  method JoinSamples(byTask: ByTask, tasks: set<string>, ui: seq<UiSample>) returns (r: Option<ByTask>)
    ensures r.Some? <==> DifferentIds(ui) && KnownTasks(ui, tasks)
    ensures r.Some? ==> r.value == Fold(byTask, AddSample, ui)
  {
    var joined, seen := byTask, {};
    for i := 0 to |ui|
      invariant DifferentIds(ui[..i]) && seen == Ids(ui[..i])
      invariant KnownTasks(ui[..i], tasks)
      invariant joined == Fold(byTask, AddSample, ui[..i])
    {
      var u := ui[i];
      assert ui[..i + 1] == ui[..i] + [u];
      IdsStep(ui[..i], u);
      FoldStep(byTask, AddSample, ui, i);
      if u.eventId in seen || u.taskId !in tasks {
        assert DifferentIds(ui) ==> DifferentIds(ui[..i + 1]);
        return None;
      }
      seen := seen + {u.eventId};
      joined := AddSample(joined, u);
    }
    assert ui[..|ui|] == ui;
    r := Some(joined);
  }

  // ----- rows and summaries -----

  function Overhead(totals: Totals): real {
    SumOf(totals, NonProvider())
  }

  function RowOf(task: string, operation: string, totals: Totals): Row {
    Row(task, operation, totals, Overhead(totals))
  }

  predicate CompleteTask(task: string, totals: Totals, required: seq<Stage>, failed: set<string>) {
    (forall s :: s in required ==> s in totals) && task !in failed
  }

  predicate Complete(t: ByTask, required: seq<Stage>, failed: set<string>) {
    forall task :: task in t ==> CompleteTask(task, t[task], required, failed)
  }

  function RowsFor(tasks: seq<string>, t: ByTask, operations: map<string, string>): seq<Row>
    requires forall i :: 0 <= i < |tasks| ==> tasks[i] in t && tasks[i] in operations
  {
    seq(|tasks|, i requires 0 <= i < |tasks| => RowOf(tasks[i], operations[tasks[i]], t[tasks[i]]))
  }

  function Rows(t: ByTask, operations: map<string, string>): seq<Row>
    requires t.Keys <= operations.Keys
  {
    RowsFor(SortedSet(t.Keys), t, operations)
  }

  lemma {:induction false} CompleteInOrder(t: ByTask, required: seq<Stage>, failed: set<string>)
    ensures var tasks := SortedSet(t.Keys);
            && (forall i :: 0 <= i < |tasks| ==> tasks[i] in t)
            && (Complete(t, required, failed) <==>
                forall i :: 0 <= i < |tasks| ==> CompleteTask(tasks[i], t[tasks[i]], required, failed))
  {
    var tasks := SortedSet(t.Keys);
    forall i | 0 <= i < |tasks|
      ensures tasks[i] in t
    {
      assert tasks[i] in tasks;
    }
    forall task | task in t
      ensures exists i :: 0 <= i < |tasks| && tasks[i] == task
    {
      assert task in tasks;
    }
  }

  method BuildRowsFor(tasks: seq<string>, t: ByTask, operations: map<string, string>, required: seq<Stage>,
                      failed: set<string>)
    returns (r: Option<seq<Row>>)
    requires forall i :: 0 <= i < |tasks| ==> tasks[i] in t && tasks[i] in operations
    ensures r == if forall i :: 0 <= i < |tasks| ==> CompleteTask(tasks[i], t[tasks[i]], required, failed)
                 then Some(RowsFor(tasks, t, operations)) else None
  {
    var rows := [];
    for i := 0 to |tasks|
      invariant |rows| == i && forall j :: 0 <= j < i ==> rows[j] == RowOf(tasks[j], operations[tasks[j]], t[tasks[j]])
      invariant forall j :: 0 <= j < i ==> CompleteTask(tasks[j], t[tasks[j]], required, failed)
    {
      if !CompleteTask(tasks[i], t[tasks[i]], required, failed) {
        return None;
      }
      rows := rows + [RowOf(tasks[i], operations[tasks[i]], t[tasks[i]])];
    }
    assert rows == RowsFor(tasks, t, operations);
    r := Some(rows);
  }

  method BuildRows(t: ByTask, operations: map<string, string>, required: seq<Stage>, failed: set<string>)
    returns (r: Option<seq<Row>>)
    requires t.Keys <= operations.Keys
    ensures r == if Complete(t, required, failed) then Some(Rows(t, operations)) else None
  {
    CompleteInOrder(t, required, failed);
    r := BuildRowsFor(SortedSet(t.Keys), t, operations, required, failed);
  }

  function Summarize(values: seq<real>): Summary
    requires values != []
  {
    Summary(|values|, OrderStatistics.Percentile(values, 0.5).value, OrderStatistics.Percentile(values, 0.95).value)
  }

  /** The rows' totals of one stage, for the rows that have it. */
  function Column(rows: seq<Row>, stage: Stage): seq<real> {
    if rows == [] then [] else
    Column(rows[..|rows| - 1], stage)
    + if stage in rows[|rows| - 1].totals then [rows[|rows| - 1].totals[stage]] else []
  }

  function Overheads(rows: seq<Row>): seq<real> {
    seq(|rows|, i requires 0 <= i < |rows| => rows[i].overhead)
  }

  lemma {:induction false} ColumnLength(rows: seq<Row>, stage: Stage)
    requires forall i :: 0 <= i < |rows| ==> stage in rows[i].totals
    ensures |Column(rows, stage)| == |rows|
  {
    if rows != [] {
      ColumnLength(rows[..|rows| - 1], stage);
    }
  }

  predicate HasAll(rows: seq<Row>, required: seq<Stage>) {
    forall i, s :: 0 <= i < |rows| && s in required ==> s in rows[i].totals
  }

  function StageSummaries(rows: seq<Row>, required: seq<Stage>): map<Stage, Summary>
    requires rows != [] && HasAll(rows, required)
  {
    map s | s in required :: ColumnLength(rows, s); Summarize(Column(rows, s))
  }

  function ReportOf(first: Event, uiSamples: nat, required: seq<Stage>, rows: seq<Row>): Report
    requires rows != [] && HasAll(rows, required)
  {
    Report(first.runId, first.profileId, first.sourceSha, uiSamples, required, StageSummaries(rows, required),
           if Column(rows, Provider) == [] then None else Some(Summarize(Column(rows, Provider))),
           Summarize(Overheads(rows)), rows)
  }

  // ----- the derivation -----

  predicate SameProvenance(events: seq<Event>, profileId: string) {
    forall e, f :: e in events && f in events ==>
      e.runId == f.runId && e.sourceSha == f.sourceSha && e.profileId == f.profileId == profileId
  }

  /** Nothing blocks before the rows are built. */
  predicate Admissible(profile: Profile, events: seq<Event>, ui: seq<UiSample>) {
    && RequiredStages(profile.measures) != []
    && AllValid(events) && events != []
    && SameProvenance(events, profile.id)
    && NoDrift(events)
    && AllSamplesValid(ui)
    && (ui != [] ==> forall e :: e in events ==> e.stage != UiPropagation)
    && DifferentIds(ui) && KnownTasks(ui, Operations(events).Keys)
  }

  lemma {:induction false} TallyTasks(events: seq<Event>, ui: seq<UiSample>)
    requires NoDrift(events) && KnownTasks(ui, Operations(events).Keys)
    ensures Tally(events, ui).Keys == Operations(events).Keys
  {
    EventTasks(events);
    SampleTasks(Fold(map[], AddEvent, events), ui);
  }

  lemma {:induction false} EventTasks(events: seq<Event>)
    requires NoDrift(events)
    ensures Fold(map[], AddEvent, events).Keys == Operations(events).Keys
  {
    if events != [] {
      var front, last := events[..|events| - 1], events[|events| - 1];
      assert events == front + [last];
      assert NoDrift(front) by {
        assert forall e :: e in front ==> e in events;
      }
      EventTasks(front);
      DriftStep(front, last);
    }
  }

  lemma {:induction false} SampleTasks(t: ByTask, ui: seq<UiSample>)
    requires KnownTasks(ui, t.Keys)
    ensures Fold(t, AddSample, ui).Keys == t.Keys
  {
    if ui != [] {
      SampleTasks(t, ui[..|ui| - 1]);
      assert ui[|ui| - 1] in ui;
    }
  }

  lemma {:induction false} RowsAreComplete(t: ByTask, operations: map<string, string>, required: seq<Stage>,
                                           failed: set<string>)
    requires t.Keys <= operations.Keys && t != map[] && Complete(t, required, failed)
    ensures Rows(t, operations) != [] && HasAll(Rows(t, operations), required)
  {
    CompleteInOrder(t, required, failed);
    var task :| task in t;
    assert task in SortedSet(t.Keys);
  }

  predicate Usable(g: Grouped) {
    g.byTask != map[] && g.byTask.Keys <= g.operations.Keys
  }

  /** Rows and summaries; nothing when some task is incomplete. */
  function ReportIfComplete(g: Grouped, required: seq<Stage>, first: Event, uiSamples: nat): Option<Report>
    requires Usable(g)
  {
    if !Complete(g.byTask, required, g.failed) then None else
    RowsAreComplete(g.byTask, g.operations, required, g.failed);
    Some(ReportOf(first, uiSamples, required, Rows(g.byTask, g.operations)))
  }

  function GroupedBy(events: seq<Event>, ui: seq<UiSample>): Grouped
    requires NoDrift(events)
  {
    Grouped(Tally(events, ui), Operations(events), Failed(events))
  }

  lemma {:induction false} GroupedIsUsable(events: seq<Event>, ui: seq<UiSample>)
    requires NoDrift(events) && events != [] && KnownTasks(ui, Operations(events).Keys)
    ensures Usable(GroupedBy(events, ui))
  {
    TallyTasks(events, ui);
    assert events[0].taskId in Operations(events);
    assert events[0].taskId in Tally(events, ui);
  }

  /** What the derivation returns; nothing when it blocks. */
  function Derived(profile: Profile, events: seq<Event>, ui: seq<UiSample>): Option<Report> {
    if !Admissible(profile, events, ui) then None else
    GroupedIsUsable(events, ui);
    ReportIfComplete(GroupedBy(events, ui), RequiredStages(profile.measures), events[0], |ui|)
  }

  predicate AnyUi(t: ByTask) {
    exists task :: task in t && UiPropagation in t[task]
  }

  lemma {:induction false} AnyUiMeans(events: seq<Event>)
    ensures AnyUi(Fold(map[], AddEvent, events)) <==> exists e :: e in events && e.stage == UiPropagation
  {
    if events != [] {
      var front, last := events[..|events| - 1], events[|events| - 1];
      assert events == front + [last];
      AnyUiMeans(front);
      var before, after := Fold(map[], AddEvent, front), Fold(map[], AddEvent, events);
      assert after == AddEvent(before, last);
      if task :| task in before && UiPropagation in before[task] {
        assert UiPropagation in after[task];
      }
      if last.stage == UiPropagation {
        assert UiPropagation in after[last.taskId];
      }
      if e :| e in front && e.stage == UiPropagation {
        assert e in events;
      }
      if e :| e in events && e.stage == UiPropagation {
        assert e in front || e == last;
      }
    }
  }

  /** The checks and the two loops over events and samples. */
  method Group(profile: Profile, required: seq<Stage>, events: seq<Event>,
               ui: seq<UiSample>) returns (r: Option<Grouped>)
    requires required == RequiredStages(profile.measures)
    ensures r.Some? <==> Admissible(profile, events, ui)
    ensures r.Some? ==> r.value == GroupedBy(events, ui)
  {
    if required == [] || !AllValid(events) || events == [] || !SameProvenance(events, profile.id) {
      return None;
    }
    var grouped := GroupEvents(events);
    if grouped.None? || !AllSamplesValid(ui) {
      return None;
    }
    AnyUiMeans(events);
    if ui != [] && AnyUi(grouped.value.byTask) {
      return None;
    }
    var joined := JoinSamples(grouped.value.byTask, grouped.value.operations.Keys, ui);
    if joined.None? {
      return None;
    }
    r := Some(grouped.value.(byTask := joined.value));
  }

  method ReportTasks(g: Grouped, required: seq<Stage>, first: Event, uiSamples: nat) returns (r: Option<Report>)
    requires Usable(g)
    ensures r == ReportIfComplete(g, required, first, uiSamples)
  {
    var rows := BuildRows(g.byTask, g.operations, required, g.failed);
    if rows.None? {
      return None;
    }
    RowsAreComplete(g.byTask, g.operations, required, g.failed);
    r := Some(ReportOf(first, uiSamples, required, rows.value));
  }

  method Derive(profile: Profile, events: seq<Event>, ui: seq<UiSample>) returns (r: Option<Report>)
    ensures r == Derived(profile, events, ui)
  {
    var required := ListStages(profile.measures);
    var grouped := Group(profile, required, events, ui);
    if grouped.None? {
      return None;
    }
    GroupedIsUsable(events, ui);
    r := ReportTasks(grouped.value, required, events[0], |ui|);
  }
}
