/** When a latency report is derived, in the fields of the events and samples, and what its summaries are. */
module LatencyReports {
  import opened Schemas
  import opened Ordering
  import opened Folds
  import opened Sums
  import opened OrderStatistics
  import L = Latency
  import opened LatencyLaws

  // ----- summaries -----

  /** The time attributed to one stage of each row's task, row by row. */
  function Times(rows: seq<L.Row>, events: seq<L.Event>, ui: seq<L.UiSample>, stage: L.Stage): seq<real> {
    seq(|rows|, i requires 0 <= i < |rows| => Attributed(events, ui, rows[i].taskId, stage))
  }

  /** The summary counts the values and holds their median and their 95th percentile. */
  ghost predicate Summarizes(s: L.Summary, values: seq<real>) {
    && s.samples == |values| && IsPercentile(values, 0.5, s.p50) && IsPercentile(values, 0.95, s.p95)
    && s.p50 <= s.p95
  }

  lemma {:induction false} SummarizeMeans(values: seq<real>)
    requires values != []
    ensures Summarizes(L.Summarize(values), values)
  {
    PercentileIs(values, 0.5);
    PercentileIs(values, 0.95);
    PercentileMonotoneInP(values, 0.5, 0.95);
  }

  lemma {:induction false} TwoSamples()
    ensures L.Summarize([10.0, 20.0]) == L.Summary(2, 10.0, 20.0)
  {
    var values := [10.0, 20.0];
    SummarizeMeans(values);
    Counted(10.0, 20.0, 10.0);
    Counted(10.0, 20.0, 20.0);
    PercentileUnique(values, 0.5, 10.0);
    PercentileUnique(values, 0.95, 20.0);
  }

  lemma {:induction false} Counted(x: real, y: real, t: real)
    ensures CountLe([x, y], t) == (if x <= t then 1 else 0) + (if y <= t then 1 else 0)
    ensures CountLt([x, y], t) == (if x < t then 1 else 0) + (if y < t then 1 else 0)
  {
    var rest := [y];
    assert [x, y][1..] == rest && rest[1..] == [];
    assert CountLe(rest, t) == (if y <= t then 1 else 0) && CountLt(rest, t) == (if y < t then 1 else 0);
  }

  lemma {:induction false} ColumnTimes(rows: seq<L.Row>, events: seq<L.Event>, ui: seq<L.UiSample>, stage: L.Stage)
    requires forall i :: 0 <= i < |rows| ==> stage in rows[i].totals && RowTimed(rows[i], events, ui)
    ensures L.Column(rows, stage) == Times(rows, events, ui, stage)
  {
    if rows != [] {
      var n := |rows| - 1;
      ColumnTimes(rows[..n], events, ui, stage);
      assert Times(rows, events, ui, stage) ==
             Times(rows[..n], events, ui, stage) + [Attributed(events, ui, rows[n].taskId, stage)];
      assert ValueOr(rows[n].totals, stage) == Attributed(events, ui, rows[n].taskId, stage);
    }
  }

  /** The summary of a required stage: one sample for each row, over the times attributed to the stage. */
  lemma {:induction false} StageSummaryMeans(profile: L.Profile, events: seq<L.Event>, ui: seq<L.UiSample>,
                                             stage: L.Stage)
    requires L.Derived(profile, events, ui).Some?
    ensures var r := L.Derived(profile, events, ui).value;
            && (stage in r.stages <==> stage in r.required)
            && (stage in r.required ==>
                  && r.stages[stage].samples == |r.tasks|
                  && Summarizes(r.stages[stage], Times(r.tasks, events, ui, stage)))
  {
    var r := L.Derived(profile, events, ui).value;
    if stage in r.required {
      forall i | 0 <= i < |r.tasks|
        ensures stage in r.tasks[i].totals && RowTimed(r.tasks[i], events, ui)
      {
        RowMeans(profile, events, ui, i);
      }
      ColumnTimes(r.tasks, events, ui, stage);
      SummarizeMeans(Times(r.tasks, events, ui, stage));
    }
  }

  /** The overhead of a task is the time attributed to the seven stages that are not the provider's. */
  function OverheadTime(events: seq<L.Event>, ui: seq<L.UiSample>, task: string): real {
    Attributed(events, ui, task, L.Enqueue) + Attributed(events, ui, task, L.Routing)
    + Attributed(events, ui, task, L.Download) + Attributed(events, ui, task, L.Postprocess)
    + Attributed(events, ui, task, L.Validation) + Attributed(events, ui, task, L.ArtifactPersist)
    + Attributed(events, ui, task, L.UiPropagation)
  }

  lemma {:induction false} SumOfSeven<K>(m: map<K, real>, a: K, b: K, c: K, d: K, e: K, f: K, g: K)
    ensures SumOf(m, [a, b, c, d, e, f, g]) ==
            ValueOr(m, a) + ValueOr(m, b) + ValueOr(m, c) + ValueOr(m, d) + ValueOr(m, e) + ValueOr(m, f)
            + ValueOr(m, g)
  {
    SumOfLast(m, [], a);
    SumOfLast(m, [a], b);
    SumOfLast(m, [a, b], c);
    SumOfLast(m, [a, b, c], d);
    SumOfLast(m, [a, b, c, d], e);
    SumOfLast(m, [a, b, c, d, e], f);
    SumOfLast(m, [a, b, c, d, e, f], g);
    assert [] + [a] == [a] && [a] + [b] == [a, b] && [a, b] + [c] == [a, b, c];
    assert [a, b, c] + [d] == [a, b, c, d] && [a, b, c, d] + [e] == [a, b, c, d, e];
    assert [a, b, c, d, e] + [f] == [a, b, c, d, e, f] && [a, b, c, d, e, f] + [g] == [a, b, c, d, e, f, g];
  }

  lemma {:induction false} SumOfLast<K>(m: map<K, real>, keys: seq<K>, last: K)
    ensures SumOf(m, keys + [last]) == SumOf(m, keys) + ValueOr(m, last)
  {
    assert (keys + [last])[..|keys|] == keys;
  }

  lemma {:induction false} OverheadIs(events: seq<L.Event>, ui: seq<L.UiSample>, row: L.Row)
    requires RowTimed(row, events, ui) && row.overhead == L.Overhead(row.totals)
    ensures row.overhead == OverheadTime(events, ui, row.taskId)
  {
    SumOfSeven(row.totals, L.Enqueue, L.Routing, L.Download, L.Postprocess, L.Validation, L.ArtifactPersist,
               L.UiPropagation);
  }

  lemma {:induction false} RowIsComputed(profile: L.Profile, events: seq<L.Event>, ui: seq<L.UiSample>, k: nat)
    requires L.Derived(profile, events, ui).Some? && k < |L.Derived(profile, events, ui).value.tasks|
    ensures var row := L.Derived(profile, events, ui).value.tasks[k];
            row.overhead == L.Overhead(row.totals) && row.taskId in L.Tally(events, ui)
            && row.totals == L.Tally(events, ui)[row.taskId]
  {
    DerivedRows(profile, events, ui);
    var tasks := SortedSet(L.Tally(events, ui).Keys);
    assert tasks[k] in tasks;
  }

  function OverheadTimes(rows: seq<L.Row>, events: seq<L.Event>, ui: seq<L.UiSample>): seq<real> {
    seq(|rows|, i requires 0 <= i < |rows| => OverheadTime(events, ui, rows[i].taskId))
  }

  lemma {:induction false} RowOverhead(profile: L.Profile, events: seq<L.Event>, ui: seq<L.UiSample>, k: nat)
    requires L.Derived(profile, events, ui).Some? && k < |L.Derived(profile, events, ui).value.tasks|
    ensures var row := L.Derived(profile, events, ui).value.tasks[k];
            row.overhead == OverheadTime(events, ui, row.taskId)
  {
    RowMeans(profile, events, ui, k);
    RowIsComputed(profile, events, ui, k);
    OverheadIs(events, ui, L.Derived(profile, events, ui).value.tasks[k]);
  }

  lemma {:induction false} OverheadsAre(rows: seq<L.Row>, events: seq<L.Event>, ui: seq<L.UiSample>)
    requires forall i :: 0 <= i < |rows| ==> rows[i].overhead == OverheadTime(events, ui, rows[i].taskId)
    ensures L.Overheads(rows) == OverheadTimes(rows, events, ui)
  {
  }

  /** The overhead of each row, and its summary over all rows. */
  lemma {:induction false} OverheadMeans(profile: L.Profile, events: seq<L.Event>, ui: seq<L.UiSample>)
    requires L.Derived(profile, events, ui).Some?
    ensures var r := L.Derived(profile, events, ui).value;
            && (forall i :: 0 <= i < |r.tasks| ==> r.tasks[i].overhead == OverheadTime(events, ui, r.tasks[i].taskId))
            && r.overhead.samples == |r.tasks| && Summarizes(r.overhead, OverheadTimes(r.tasks, events, ui))
  {
    var r := L.Derived(profile, events, ui).value;
    forall i | 0 <= i < |r.tasks|
      ensures r.tasks[i].overhead == OverheadTime(events, ui, r.tasks[i].taskId)
    {
      RowOverhead(profile, events, ui, i);
    }
    OverheadsAre(r.tasks, events, ui);
    SummarizeMeans(OverheadTimes(r.tasks, events, ui));
  }

  /** The provider times of the rows whose task has a provider event, in order. */
  function ProviderTimes(rows: seq<L.Row>, events: seq<L.Event>, ui: seq<L.UiSample>): seq<real> {
    if rows == [] then [] else
    var last := rows[|rows| - 1];
    ProviderTimes(rows[..|rows| - 1], events, ui)
    + if Named(events, last.taskId, L.Provider) then [Attributed(events, ui, last.taskId, L.Provider)] else []
  }

  lemma {:induction false} ProviderColumn(rows: seq<L.Row>, events: seq<L.Event>, ui: seq<L.UiSample>)
    requires forall i :: 0 <= i < |rows| ==>
               && RowTimed(rows[i], events, ui)
               && (L.Provider in rows[i].totals <==> Named(events, rows[i].taskId, L.Provider))
    ensures L.Column(rows, L.Provider) == ProviderTimes(rows, events, ui)
  {
    if rows != [] {
      var n := |rows| - 1;
      ProviderColumn(rows[..n], events, ui);
      assert ValueOr(rows[n].totals, L.Provider) == Attributed(events, ui, rows[n].taskId, L.Provider);
    }
  }

  lemma {:induction false} SomeProvider(rows: seq<L.Row>, events: seq<L.Event>, ui: seq<L.UiSample>)
    ensures ProviderTimes(rows, events, ui) == [] <==>
            forall i :: 0 <= i < |rows| ==> !Named(events, rows[i].taskId, L.Provider)
  {
    if rows != [] {
      SomeProvider(rows[..|rows| - 1], events, ui);
      assert forall i :: 0 <= i < |rows| - 1 ==> rows[..|rows| - 1][i] == rows[i];
    }
  }

  /** A provider summary is there exactly when some task has a provider event, and it covers those tasks. */
  lemma {:induction false} ProviderMeans(profile: L.Profile, events: seq<L.Event>, ui: seq<L.UiSample>)
    requires L.Derived(profile, events, ui).Some?
    ensures var r := L.Derived(profile, events, ui).value;
            && (r.provider.Some? <==> exists e :: e in events && e.stage == L.Provider)
            && (r.provider.Some? ==> Summarizes(r.provider.value, ProviderTimes(r.tasks, events, ui)))
  {
    var r := L.Derived(profile, events, ui).value;
    forall i | 0 <= i < |r.tasks|
      ensures RowTimed(r.tasks[i], events, ui)
      ensures L.Provider in r.tasks[i].totals <==> Named(events, r.tasks[i].taskId, L.Provider)
    {
      RowMeans(profile, events, ui, i);
      RowIsComputed(profile, events, ui, i);
      StageInTotals(events, ui, r.tasks[i].taskId, L.Provider);
    }
    ProviderColumn(r.tasks, events, ui);
    SomeProvider(r.tasks, events, ui);
    if e :| e in events && e.stage == L.Provider {
      OneRowPerTask(profile, events, ui, e);
      assert Named(events, e.taskId, L.Provider);
    }
    if r.provider.Some? {
      SummarizeMeans(ProviderTimes(r.tasks, events, ui));
    }
  }

  /** A stage is in a task's totals when an event names it there, or a browser sample does for its own stage. */
  lemma {:induction false} StageInTotals(events: seq<L.Event>, ui: seq<L.UiSample>, task: string, stage: L.Stage)
    requires task in L.Tally(events, ui)
    ensures stage in L.Tally(events, ui)[task] <==>
            Named(events, task, stage) || (stage == L.UiPropagation && Sampled(ui, task))
  {
    EventTotals(events, task, stage);
    SampleTotals(Fold(map[], L.AddEvent, events), ui, task, stage);
  }

  // ----- when there is a report -----

  /** An event of schema 1 with all its names, a stage that may be recorded, a known outcome, a positive attempt
      and a duration that agrees with its clock to a microsecond. */
  predicate Sound(e: L.Event) {
    && e.schemaVersion == 1
    && (|| e.stage == L.Enqueue || e.stage == L.Routing || e.stage == L.Download || e.stage == L.Postprocess
        || e.stage == L.Validation || e.stage == L.ArtifactPersist || e.stage == L.UiPropagation
        || e.stage == L.Provider)
    && |e.taskId| > 0 && |e.runId| > 0 && |e.profileId| > 0 && |e.sourceSha| > 0 && |e.operationId| > 0
    && |e.service| > 0
    && (e.outcome == L.Success || e.outcome == L.Error) && e.attempt > 0
    && e.startedNs >= 0 && e.completedNs >= e.startedNs && e.durationMs >= 0.0
    && -1.0 <= 1000.0 * e.durationMs - (e.completedNs - e.startedNs) as real / 1000.0 <= 1.0
  }

  lemma {:induction false} SoundExactly(e: L.Event)
    ensures L.ValidEvent(e) <==> Sound(e)
  {
  }

  /** A sample of schema 1 of a created artifact, with its names, painted no earlier than created, whose timestamp
      and duration agree with its clock. */
  predicate SoundSample(u: L.UiSample) {
    && u.schemaVersion == 1 && u.eventType == "artifact.created"
    && |u.eventId| > 0 && |u.runId| > 0 && |u.taskId| > 0
    && u.sourceMs >= 0 && u.paintedMs >= u.sourceMs
    && (|| u.createdMs == Some(u.sourceMs)
        || u.createdMs == Some(u.sourceMs - 1) || u.createdMs == Some(u.sourceMs + 1))
    && u.durationMs >= 0.0
    && -1.0 <= 1000.0 * (u.durationMs - (u.paintedMs - u.sourceMs) as real) <= 1.0
  }

  lemma {:induction false} SoundSampleExactly(u: L.UiSample)
    ensures L.ValidSample(u) <==> SoundSample(u)
  {
  }

  /** The measures that ask for each stage. */
  lemma {:induction false} MeasureAsks(measure: string)
    ensures L.StageOf(measure) == Some(L.Enqueue) <==>
            measure in {"enqueue_p50_ms", "enqueue_p95_ms", "queue_wait_ms"}
    ensures L.StageOf(measure) == Some(L.Routing) <==> measure == "routing_ms"
    ensures L.StageOf(measure) == Some(L.Provider) <==> measure == "provider_latency_ms"
    ensures L.StageOf(measure) == Some(L.Download) <==> measure == "download_ms"
    ensures L.StageOf(measure) == Some(L.Postprocess) <==> measure == "postprocess_ms"
    ensures L.StageOf(measure) == Some(L.Validation) <==> measure == "validation_ms"
    ensures L.StageOf(measure) == Some(L.ArtifactPersist) <==> measure == "artifact_persist_ms"
    ensures L.StageOf(measure) == Some(L.UiPropagation) <==> measure == "sse_platform_propagation_ms"
    ensures L.StageOf(measure) != Some(L.PlatformOverhead)
  {
  }

  /** Some measure of the profile asks for the stage. */
  predicate Asked(measures: seq<string>, stage: L.Stage) {
    exists i :: 0 <= i < |measures| && L.StageOf(measures[i]) == Some(stage)
  }

  /** The task has time for every stage the profile asks for. */
  predicate Covered(profile: L.Profile, events: seq<L.Event>, ui: seq<L.UiSample>, task: string) {
    forall i :: 0 <= i < |profile.measures| && L.StageOf(profile.measures[i]).Some? ==>
      Timed(events, ui, task, L.StageOf(profile.measures[i]).value)
  }

  predicate Timed(events: seq<L.Event>, ui: seq<L.UiSample>, task: string, stage: L.Stage) {
    Named(events, task, stage) || (stage == L.UiPropagation && Sampled(ui, task))
  }

  /** Events of one run, one commit and the profile asked for, each task with one operation. */
  predicate OneRun(profile: L.Profile, events: seq<L.Event>) {
    forall i, j :: 0 <= i < |events| && 0 <= j < |events| ==>
      && events[i].profileId == profile.id && events[i].runId == events[j].runId
      && events[i].sourceSha == events[j].sourceSha
      && (events[i].taskId == events[j].taskId ==> events[i].operationId == events[j].operationId)
  }

  /** Samples with different identifiers, of tasks that have events, and not beside browser stages in the events. */
  predicate SamplesFit(events: seq<L.Event>, ui: seq<L.UiSample>) {
    && (forall i, j :: 0 <= i < j < |ui| ==> ui[i].eventId != ui[j].eventId)
    && (forall i :: 0 <= i < |ui| ==> HasEvents(events, ui[i].taskId))
    && (|ui| > 0 ==> forall i :: 0 <= i < |events| ==> events[i].stage != L.UiPropagation)
  }

  predicate HasEvents(events: seq<L.Event>, task: string) {
    exists i :: 0 <= i < |events| && events[i].taskId == task
  }

  lemma {:induction false} SomethingRequired(measures: seq<string>)
    ensures L.RequiredStages(measures) != [] <==>
            exists i :: 0 <= i < |measures| && L.StageOf(measures[i]).Some?
  {
    L.RequiredStagesAre(measures);
    if i :| 0 <= i < |measures| && L.StageOf(measures[i]).Some? {
      assert L.StageOf(measures[i]).value in L.RequiredStages(measures);
    }
    if L.RequiredStages(measures) != [] {
      assert L.RequiredStages(measures)[0] in L.RequiredStages(measures);
    }
  }

  lemma {:induction false} OneRunExactly(profile: L.Profile, events: seq<L.Event>)
    ensures OneRun(profile, events) <==> L.SameProvenance(events, profile.id) && L.NoDrift(events)
  {
    if L.SameProvenance(events, profile.id) && L.NoDrift(events) {
      forall i, j | 0 <= i < |events| && 0 <= j < |events|
        ensures events[i].profileId == profile.id && events[i].runId == events[j].runId
        ensures events[i].sourceSha == events[j].sourceSha
        ensures events[i].taskId == events[j].taskId ==> events[i].operationId == events[j].operationId
      {
        assert events[i] in events && events[j] in events;
      }
    }
  }

  lemma {:induction false} SamplesFitExactly(events: seq<L.Event>, ui: seq<L.UiSample>)
    requires L.NoDrift(events)
    ensures SamplesFit(events, ui) <==>
            && L.DifferentIds(ui) && L.KnownTasks(ui, L.Operations(events).Keys)
            && (ui != [] ==> forall e :: e in events ==> e.stage != L.UiPropagation)
  {
    forall task
      ensures HasEvents(events, task) <==> task in L.Operations(events).Keys
    {
      if task in L.Operations(events).Keys {
        var e :| e in events && e.taskId == task;
        var i :| 0 <= i < |events| && events[i] == e;
      }
      if i :| 0 <= i < |events| && events[i].taskId == task {
        assert events[i] in events;
      }
    }
    assert (forall u :: u in ui ==> u.taskId in L.Operations(events).Keys) <==>
           forall i :: 0 <= i < |ui| ==> ui[i].taskId in L.Operations(events).Keys;
  }

  lemma {:induction false} CoveredExactly(profile: L.Profile, events: seq<L.Event>, ui: seq<L.UiSample>, task: string)
    requires task in L.Tally(events, ui)
    ensures Covered(profile, events, ui, task) <==>
            forall s :: s in L.RequiredStages(profile.measures) ==> s in L.Tally(events, ui)[task]
  {
    L.RequiredStagesAre(profile.measures);
    forall stage
      ensures stage in L.Tally(events, ui)[task] <==> Timed(events, ui, task, stage)
    {
      StageInTotals(events, ui, task, stage);
    }
    if Covered(profile, events, ui, task) {
      forall s | s in L.RequiredStages(profile.measures)
        ensures s in L.Tally(events, ui)[task]
      {
        var i :| 0 <= i < |profile.measures| && L.StageOf(profile.measures[i]) == Some(s);
      }
    }
  }

  lemma {:induction false} CompleteExactly(profile: L.Profile, events: seq<L.Event>, ui: seq<L.UiSample>)
    requires L.NoDrift(events) && L.KnownTasks(ui, L.Operations(events).Keys)
    ensures L.Complete(L.Tally(events, ui), L.RequiredStages(profile.measures), L.Failed(events)) <==>
            forall i :: 0 <= i < |events| ==>
              events[i].outcome != L.Error && Covered(profile, events, ui, events[i].taskId)
  {
    L.TallyTasks(events, ui);
    var t, required, failed := L.Tally(events, ui), L.RequiredStages(profile.measures), L.Failed(events);
    forall i | 0 <= i < |events|
      ensures events[i].taskId in t
      ensures Covered(profile, events, ui, events[i].taskId) <==> forall s :: s in required ==> s in t[events[i].taskId]
      ensures events[i].outcome == L.Error ==> events[i].taskId in failed
    {
      TaskKnown(events, events[i]);
      CoveredExactly(profile, events, ui, events[i].taskId);
    }
    forall task | task in t
      ensures exists i :: 0 <= i < |events| && events[i].taskId == task
    {
      var e :| e in events && e.taskId == task;
      var i :| 0 <= i < |events| && events[i] == e;
    }
    forall task | task in failed
      ensures exists i :: 0 <= i < |events| && events[i].taskId == task && events[i].outcome == L.Error
    {
      var e :| e in events && e.outcome == L.Error && e.taskId == task;
      var i :| 0 <= i < |events| && events[i] == e;
    }
  }

  /** A report is derived if and only if the profile asks for something, there are events, all events and samples are
      sound, of one run and fitting each other, none failed, and every task has time for every stage asked for. */
  lemma {:induction false} DerivedExactly(profile: L.Profile, events: seq<L.Event>, ui: seq<L.UiSample>)
    ensures L.Derived(profile, events, ui).Some? <==>
            && (exists i :: 0 <= i < |profile.measures| && L.StageOf(profile.measures[i]).Some?)
            && |events| > 0
            && (forall i :: 0 <= i < |events| ==> Sound(events[i]))
            && (forall i :: 0 <= i < |ui| ==> SoundSample(ui[i]))
            && OneRun(profile, events) && SamplesFit(events, ui)
            && (forall i :: 0 <= i < |events| ==>
                  events[i].outcome != L.Error && Covered(profile, events, ui, events[i].taskId))
  {
    AdmissibleExactly(profile, events, ui);
    if L.Admissible(profile, events, ui) {
      CompleteExactly(profile, events, ui);
      L.GroupedIsUsable(events, ui);
    }
  }

  lemma {:induction false} AdmissibleExactly(profile: L.Profile, events: seq<L.Event>, ui: seq<L.UiSample>)
    ensures L.Admissible(profile, events, ui) <==>
            && (exists i :: 0 <= i < |profile.measures| && L.StageOf(profile.measures[i]).Some?)
            && |events| > 0
            && (forall i :: 0 <= i < |events| ==> Sound(events[i]))
            && (forall i :: 0 <= i < |ui| ==> SoundSample(ui[i]))
            && OneRun(profile, events) && SamplesFit(events, ui)
  {
    SomethingRequired(profile.measures);
    AllSound(events, ui);
    OneRunExactly(profile, events);
    if L.NoDrift(events) {
      SamplesFitExactly(events, ui);
    }
  }

  lemma {:induction false} AllSound(events: seq<L.Event>, ui: seq<L.UiSample>)
    ensures L.AllValid(events) <==> forall i :: 0 <= i < |events| ==> Sound(events[i])
    ensures L.AllSamplesValid(ui) <==> forall i :: 0 <= i < |ui| ==> SoundSample(ui[i])
  {
    forall e ensures L.ValidEvent(e) <==> Sound(e) {
      SoundExactly(e);
    }
    forall u ensures L.ValidSample(u) <==> SoundSample(u) {
      SoundSampleExactly(u);
    }
    assert (forall e :: e in events ==> L.ValidEvent(e)) <==> forall i :: 0 <= i < |events| ==> L.ValidEvent(events[i]);
    assert (forall u :: u in ui ==> L.ValidSample(u)) <==> forall i :: 0 <= i < |ui| ==> L.ValidSample(ui[i]);
  }

  /** The head of a report: the run, profile and commit of every event, the number of samples, and each stage the
      profile asks for, once. */
  lemma {:induction false} HeadMeans(profile: L.Profile, events: seq<L.Event>, ui: seq<L.UiSample>)
    requires L.Derived(profile, events, ui).Some?
    ensures var r := L.Derived(profile, events, ui).value;
            && (forall e :: e in events ==>
                  e.runId == r.runId && e.profileId == r.profileId && e.sourceSha == r.sourceSha)
            && r.profileId == profile.id && r.uiSamples == |ui| && AllDifferent(r.required)
            && forall stage :: stage in r.required <==> Asked(profile.measures, stage)
  {
    L.RequiredStagesAre(profile.measures);
    assert events[0] in events;
  }
}
