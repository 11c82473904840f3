/** What the latency report says: where each total comes from, that nothing is lost or counted twice, and that
    the order of the input lines does not matter. */
module LatencyLaws {
  import opened Schemas
  import opened Ordering
  import opened Folds
  import opened Sums
  import opened Latency

  // ----- each total -----

  function EventMs(events: seq<Event>): real {
    if events == [] then 0.0 else EventMs(events[..|events| - 1]) + events[|events| - 1].durationMs
  }

  function SampleMs(ui: seq<UiSample>): real {
    if ui == [] then 0.0 else SampleMs(ui[..|ui| - 1]) + ui[|ui| - 1].durationMs
  }

  /** The time that events report for one task and stage. */
  function Reported(events: seq<Event>, task: string, stage: Stage): real {
    if events == [] then 0.0 else
    var last := events[|events| - 1];
    Reported(events[..|events| - 1], task, stage)
    + if last.taskId == task && last.stage == stage then last.durationMs else 0.0
  }

  function Painted(ui: seq<UiSample>, task: string): real {
    if ui == [] then 0.0 else
    var last := ui[|ui| - 1];
    Painted(ui[..|ui| - 1], task) + if last.taskId == task then last.durationMs else 0.0
  }

  function At(t: ByTask, task: string, stage: Stage): real {
    if task in t then ValueOr(t[task], stage) else 0.0
  }

  predicate Has(t: ByTask, task: string, stage: Stage) {
    task in t && stage in t[task]
  }

  predicate Named(events: seq<Event>, task: string, stage: Stage) {
    exists e :: e in events && e.taskId == task && e.stage == stage
  }

  predicate Sampled(ui: seq<UiSample>, task: string) {
    exists u :: u in ui && u.taskId == task
  }

  lemma {:induction false} NamedStep(events: seq<Event>, last: Event, task: string, stage: Stage)
    ensures Named(events + [last], task, stage) <==>
            Named(events, task, stage) || (last.taskId == task && last.stage == stage)
  {
    assert forall e :: e in events + [last] <==> e in events || e == last;
  }

  lemma {:induction false} SampledStep(ui: seq<UiSample>, last: UiSample, task: string)
    ensures Sampled(ui + [last], task) <==> Sampled(ui, task) || last.taskId == task
  {
    assert forall u :: u in ui + [last] <==> u in ui || u == last;
  }

  lemma {:induction false} SpendAt(t: ByTask, task: string, stage: Stage, ms: real, task': string, stage': Stage)
    ensures var r := Spend(t, task, stage, ms);
            && At(r, task', stage') == At(t, task', stage') + (if task' == task && stage' == stage then ms else 0.0)
            && (Has(r, task', stage') <==> Has(t, task', stage') || (task' == task && stage' == stage))
  {
  }

  lemma {:induction false} EventTotals(events: seq<Event>, task: string, stage: Stage)
    ensures At(Fold(map[], AddEvent, events), task, stage) == Reported(events, task, stage)
    ensures Has(Fold(map[], AddEvent, events), task, stage) <==> Named(events, task, stage)
  {
    if events != [] {
      var front, last := events[..|events| - 1], events[|events| - 1];
      assert events == front + [last];
      EventTotals(front, task, stage);
      SpendAt(Fold(map[], AddEvent, front), last.taskId, last.stage, last.durationMs, task, stage);
      NamedStep(front, last, task, stage);
    }
  }

  lemma {:induction false} SampleTotals(t: ByTask, ui: seq<UiSample>, task: string, stage: Stage)
    ensures At(Fold(t, AddSample, ui), task, stage) ==
            At(t, task, stage) + if stage == UiPropagation then Painted(ui, task) else 0.0
    ensures Has(Fold(t, AddSample, ui), task, stage) <==>
            Has(t, task, stage) || (stage == UiPropagation && Sampled(ui, task))
  {
    if ui != [] {
      var front, last := ui[..|ui| - 1], ui[|ui| - 1];
      assert ui == front + [last];
      SampleTotals(t, front, task, stage);
      SpendAt(Fold(t, AddSample, front), last.taskId, UiPropagation, last.durationMs, task, stage);
      SampledStep(front, last, task);
    }
  }

  // ----- conservation -----

  ghost function TaskSums(t: ByTask): map<string, real> {
    map task | task in t :: MapSum(t[task])
  }

  ghost function GrandTotal(t: ByTask): real {
    MapSum(TaskSums(t))
  }

  lemma {:induction false} EmptySum()
    ensures MapSum<Stage>(map[]) == 0.0
  {
  }

  lemma {:induction false} SpendAdds(t: ByTask, task: string, stage: Stage, ms: real)
    ensures GrandTotal(Spend(t, task, stage, ms)) == GrandTotal(t) + ms
  {
    var totals := if task in t then t[task] else map[];
    var charged := Charge(totals, stage, ms);
    MapSumUpdate(totals, stage, ValueOr(totals, stage) + ms);
    assert TaskSums(Spend(t, task, stage, ms)) == TaskSums(t)[task := MapSum(charged)];
    MapSumUpdate(TaskSums(t), task, MapSum(charged));
    EmptySum();
  }

  lemma {:induction false} EventsAdd(events: seq<Event>)
    ensures GrandTotal(Fold(map[], AddEvent, events)) == EventMs(events)
  {
    if events == [] {
      assert TaskSums(map[]) == map[];
    } else {
      var front, last := events[..|events| - 1], events[|events| - 1];
      EventsAdd(front);
      SpendAdds(Fold(map[], AddEvent, front), last.taskId, last.stage, last.durationMs);
    }
  }

  lemma {:induction false} SamplesAdd(t: ByTask, ui: seq<UiSample>)
    ensures GrandTotal(Fold(t, AddSample, ui)) == GrandTotal(t) + SampleMs(ui)
  {
    if ui != [] {
      var front, last := ui[..|ui| - 1], ui[|ui| - 1];
      SamplesAdd(t, front);
      SpendAdds(Fold(t, AddSample, front), last.taskId, UiPropagation, last.durationMs);
    }
  }

  /** Stages that a validated event can name, plus the one browser samples go to. */
  predicate Canonical(t: ByTask) {
    forall task, stage :: task in t && stage in t[task] ==> stage in NonProvider() + [Provider]
  }

  lemma {:induction false} CanonicalStages(stage: Stage)
    requires !stage.OtherStage? && !stage.PlatformOverhead?
    ensures stage in NonProvider() + [Provider]
  {
    var keys := NonProvider() + [Provider];
    assert keys[0] == Enqueue && keys[1] == Routing && keys[2] == Download && keys[3] == Postprocess;
    assert keys[4] == Validation && keys[5] == ArtifactPersist && keys[6] == UiPropagation && keys[7] == Provider;
  }

  lemma {:induction false} TallyIsCanonical(events: seq<Event>, ui: seq<UiSample>)
    requires AllValid(events)
    ensures Canonical(Tally(events, ui))
  {
    var t := Tally(events, ui);
    forall task, stage | task in t && stage in t[task]
      ensures stage in NonProvider() + [Provider]
    {
      assert Has(t, task, stage);
      SampleTotals(Fold(map[], AddEvent, events), ui, task, stage);
      EventTotals(events, task, stage);
      if Named(events, task, stage) {
        var e :| e in events && e.taskId == task && e.stage == stage;
        assert ValidEvent(e);
      }
      CanonicalStages(stage);
    }
  }

  /** A task's overhead and its provider time make up its total: no stage is left out or counted twice. */
  lemma {:induction false} OverheadPlusProvider(totals: Totals)
    requires forall stage :: stage in totals ==> stage in NonProvider() + [Provider]
    ensures Overhead(totals) + ValueOr(totals, Provider) == MapSum(totals)
  {
    var keys := NonProvider() + [Provider];
    assert keys[..|keys| - 1] == NonProvider();
    SumOfAll(totals, keys);
  }

  /** Overhead plus provider time, over all rows. */
  function RowsMs(rows: seq<Row>): real {
    if rows == [] then 0.0 else
    RowsMs(rows[..|rows| - 1]) + rows[|rows| - 1].overhead + ValueOr(rows[|rows| - 1].totals, Provider)
  }

  lemma {:induction false} RowsSum(tasks: seq<string>, t: ByTask, operations: map<string, string>)
    requires forall i :: 0 <= i < |tasks| ==> tasks[i] in t && tasks[i] in operations
    requires Canonical(t)
    ensures RowsMs(RowsFor(tasks, t, operations)) == SumOf(TaskSums(t), tasks)
  {
    if tasks != [] {
      var front, last := tasks[..|tasks| - 1], tasks[|tasks| - 1];
      var rows := RowsFor(tasks, t, operations);
      assert rows[..|rows| - 1] == RowsFor(front, t, operations);
      RowsSum(front, t, operations);
      OverheadPlusProvider(t[last]);
    }
  }

  lemma {:induction false} TallyAdds(events: seq<Event>, ui: seq<UiSample>)
    ensures GrandTotal(Tally(events, ui)) == EventMs(events) + SampleMs(ui)
  {
    EventsAdd(events);
    SamplesAdd(Fold(map[], AddEvent, events), ui);
  }

  lemma {:induction false} RowsAdd(t: ByTask, operations: map<string, string>)
    requires Canonical(t) && t.Keys <= operations.Keys
    ensures var tasks := SortedSet(t.Keys);
            && (forall i :: 0 <= i < |tasks| ==> tasks[i] in t)
            && RowsMs(RowsFor(tasks, t, operations)) == GrandTotal(t)
  {
    var tasks := SortedSet(t.Keys);
    forall i | 0 <= i < |tasks| ensures tasks[i] in t {
      assert tasks[i] in tasks;
    }
    RowsSum(tasks, t, operations);
    SumOfAll(TaskSums(t), tasks);
  }

  /** Conservation: what the rows attribute, as overhead and as provider time, is exactly what the events and
      the browser samples reported. */
  lemma {:induction false} ReportConservesTime(profile: Profile, events: seq<Event>, ui: seq<UiSample>)
    requires Derived(profile, events, ui).Some?
    ensures RowsMs(Derived(profile, events, ui).value.tasks) == EventMs(events) + SampleMs(ui)
  {
    GroupedIsUsable(events, ui);
    TallyIsCanonical(events, ui);
    RowsAdd(Tally(events, ui), Operations(events));
    TallyAdds(events, ui);
  }

  function Attributed(events: seq<Event>, ui: seq<UiSample>, task: string, stage: Stage): real {
    Reported(events, task, stage) + if stage == UiPropagation then Painted(ui, task) else 0.0
  }

  /** Each stage of the row holds exactly the time reported for its task and that stage, and its overhead and
      provider time make up the whole. */
  ghost predicate RowTimed(row: Row, events: seq<Event>, ui: seq<UiSample>) {
    && (forall stage :: ValueOr(row.totals, stage) == Attributed(events, ui, row.taskId, stage))
    && row.overhead + ValueOr(row.totals, Provider) == MapSum(row.totals)
  }

  /** The row's task has events, they all belong to the row's operation, and none of them failed. */
  predicate RowBacked(row: Row, events: seq<Event>) {
    && (exists e :: e in events && e.taskId == row.taskId)
    && (forall e :: e in events && e.taskId == row.taskId ==> e.operationId == row.operationId && e.outcome != Error)
  }

  predicate RowHasAll(row: Row, required: seq<Stage>) {
    forall stage :: stage in required ==> stage in row.totals
  }

  lemma {:induction false} TimedRow(events: seq<Event>, ui: seq<UiSample>, task: string, operation: string)
    requires AllValid(events) && task in Tally(events, ui)
    ensures RowTimed(RowOf(task, operation, Tally(events, ui)[task]), events, ui)
  {
    var t := Tally(events, ui);
    forall stage
      ensures ValueOr(t[task], stage) == Attributed(events, ui, task, stage)
    {
      EventTotals(events, task, stage);
      SampleTotals(Fold(map[], AddEvent, events), ui, task, stage);
    }
    TallyIsCanonical(events, ui);
    OverheadPlusProvider(t[task]);
  }

  lemma {:induction false} BackedRow(t: ByTask, events: seq<Event>, required: seq<Stage>, task: string)
    requires NoDrift(events) && task in t && task in Operations(events)
    requires CompleteTask(task, t[task], required, Failed(events))
    ensures RowBacked(RowOf(task, Operations(events)[task], t[task]), events)
    ensures RowHasAll(RowOf(task, Operations(events)[task], t[task]), required)
  {
    forall e | e in events && e.taskId == task
      ensures e.outcome != Error
    {
      assert e.outcome == Error ==> e.taskId in Failed(events);
    }
  }

  /** What every row of a report says. */
  lemma {:induction false} RowMeans(profile: Profile, events: seq<Event>, ui: seq<UiSample>, k: nat)
    requires Derived(profile, events, ui).Some? && k < |Derived(profile, events, ui).value.tasks|
    ensures RowTimed(Derived(profile, events, ui).value.tasks[k], events, ui)
    ensures RowBacked(Derived(profile, events, ui).value.tasks[k], events)
    ensures RowHasAll(Derived(profile, events, ui).value.tasks[k], RequiredStages(profile.measures))
  {
    var t, required := Tally(events, ui), RequiredStages(profile.measures);
    GroupedIsUsable(events, ui);
    CompleteInOrder(t, required, Failed(events));
    var task := SortedSet(t.Keys)[k];
    TimedRow(events, ui, task, Operations(events)[task]);
    BackedRow(t, events, required, task);
  }

  predicate RowsInOrder(rows: seq<Row>) {
    forall i, j :: 0 <= i < j < |rows| ==> rows[i].taskId != rows[j].taskId && StrLeq(rows[i].taskId, rows[j].taskId)
  }

  predicate HasRow(rows: seq<Row>, task: string) {
    exists k :: 0 <= k < |rows| && rows[k].taskId == task
  }

  lemma {:induction false} RowsOfTally(t: ByTask, operations: map<string, string>, task: string)
    requires t.Keys <= operations.Keys
    ensures RowsInOrder(Rows(t, operations))
    ensures task in t ==> HasRow(Rows(t, operations), task)
  {
    var tasks, rows := SortedSet(t.Keys), Rows(t, operations);
    assert forall i :: 0 <= i < |rows| ==> rows[i].taskId == tasks[i];
    if task in t {
      assert task in tasks;
      var k :| 0 <= k < |tasks| && tasks[k] == task;
      assert rows[k].taskId == task;
    }
  }

  lemma {:induction false} DerivedRows(profile: Profile, events: seq<Event>, ui: seq<UiSample>)
    requires Derived(profile, events, ui).Some?
    ensures NoDrift(events) && Tally(events, ui).Keys == Operations(events).Keys
    ensures Derived(profile, events, ui).value.tasks == Rows(Tally(events, ui), Operations(events))
  {
    GroupedIsUsable(events, ui);
    TallyTasks(events, ui);
  }

  lemma {:induction false} TaskKnown(events: seq<Event>, e: Event)
    requires NoDrift(events) && e in events
    ensures e.taskId in Operations(events)
  {
  }

  /** Every task that has events has exactly one row, and the rows come in the order of their tasks. */
  lemma {:induction false} OneRowPerTask(profile: Profile, events: seq<Event>, ui: seq<UiSample>, e: Event)
    requires Derived(profile, events, ui).Some? && e in events
    ensures RowsInOrder(Derived(profile, events, ui).value.tasks)
    ensures HasRow(Derived(profile, events, ui).value.tasks, e.taskId)
  {
    DerivedRows(profile, events, ui);
    TaskKnown(events, e);
    RowsOfTally(Tally(events, ui), Operations(events), e.taskId);
  }

  // ----- order -----

  lemma {:induction false} SameElements<T>(xs: seq<T>, ys: seq<T>)
    requires multiset(xs) == multiset(ys)
    ensures |xs| == |ys| && forall x :: x in xs <==> x in ys
  {
    assert |multiset(xs)| == |xs| && |multiset(ys)| == |ys|;
    forall x
      ensures x in xs <==> x in ys
    {
      assert x in multiset(xs) <==> x in multiset(ys);
    }
  }

  lemma {:induction false} SeeingCommutes()
    ensures Commutes(See)
  {
    forall s: Option<set<string>>, a: UiSample, b: UiSample
      ensures See(See(s, a), b) == See(See(s, b), a)
    {
      if s.Some? {
        assert s.value + {a.eventId} + {b.eventId} == s.value + {b.eventId} + {a.eventId};
      }
    }
  }

  lemma {:induction false} DifferentInAnyOrder(ui: seq<UiSample>, ui': seq<UiSample>)
    requires multiset(ui) == multiset(ui')
    ensures DifferentIds(ui) <==> DifferentIds(ui')
  {
    SeenAreDifferent(ui);
    SeenAreDifferent(ui');
    SeeingCommutes();
    FoldPermutation(Some({}), See, ui, ui');
  }

  lemma {:induction false} TallyInAnyOrder(events: seq<Event>, events': seq<Event>, ui: seq<UiSample>,
                                           ui': seq<UiSample>)
    requires multiset(events) == multiset(events') && multiset(ui) == multiset(ui')
    ensures Tally(events, ui) == Tally(events', ui')
  {
    AddingCommutes();
    FoldPermutation(map[], AddEvent, events, events');
    FoldPermutation(Fold(map[], AddEvent, events), AddSample, ui, ui');
  }

  lemma {:induction false} GroupsInAnyOrder(events: seq<Event>, events': seq<Event>)
    requires forall e :: e in events <==> e in events'
    ensures NoDrift(events) <==> NoDrift(events')
    ensures NoDrift(events) ==> Operations(events) == Operations(events')
    ensures Failed(events) == Failed(events')
  {
    if NoDrift(events) && NoDrift(events') {
      var a, b := Operations(events), Operations(events');
      forall k
        ensures k in a <==> k in b
      {
      }
    }
  }

  lemma {:induction false} AdmissibleInAnyOrder(profile: Profile, events: seq<Event>, events': seq<Event>,
                                                ui: seq<UiSample>, ui': seq<UiSample>)
    requires multiset(events) == multiset(events') && multiset(ui) == multiset(ui')
    requires Admissible(profile, events, ui)
    ensures Admissible(profile, events', ui')
  {
    SameElements(events, events');
    SameElements(ui, ui');
    GroupsInAnyOrder(events, events');
    DifferentInAnyOrder(ui, ui');
  }

  /** Shuffling the event lines and the sample lines changes nothing: the same report, or a block either way. */
  lemma {:induction false} OrderDoesNotMatter(profile: Profile, events: seq<Event>, events': seq<Event>,
                                              ui: seq<UiSample>, ui': seq<UiSample>)
    requires multiset(events) == multiset(events') && multiset(ui) == multiset(ui')
    ensures Derived(profile, events, ui) == Derived(profile, events', ui')
  {
    if Admissible(profile, events, ui) {
      AdmissibleInAnyOrder(profile, events, events', ui, ui');
      SameElements(events, events');
      SameElements(ui, ui');
      GroupsInAnyOrder(events, events');
      TallyInAnyOrder(events, events', ui, ui');
      GroupedIsUsable(events, ui);
      GroupedIsUsable(events', ui');
      assert events[0] in events && events'[0] in events;
      SameReport(GroupedBy(events, ui), RequiredStages(profile.measures), events[0], events'[0], |ui|);
    } else if Admissible(profile, events', ui') {
      AdmissibleInAnyOrder(profile, events', events, ui', ui);
    }
  }

  lemma {:induction false} SameReport(g: Grouped, required: seq<Stage>, first: Event, first': Event, uiSamples: nat)
    requires Usable(g)
    requires first.runId == first'.runId && first.profileId == first'.profileId && first.sourceSha == first'.sourceSha
    ensures ReportIfComplete(g, required, first, uiSamples) == ReportIfComplete(g, required, first', uiSamples)
  {
  }
}
