/**
 The driver `process_jobs`: harvest and insert new jobs (unless in test mode),
 then run the four stages in their fixed order, and release the store
 connection on every path.
 */
module Pipeline {
  import opened Opt
  import opened JobStore
  import opened Stages
  import opened Text

  /** A harvested job; the driver only asks whether the harvest is empty. */
  datatype RawJob = RawJob(jobId: JobId, title: string, description: string)

  /** The store after inserting the harvest, and whether the insertion raised. */
  datatype Insertion = Insertion(table: Table, raised: bool)

  /** What the driver reports: a stage's processed count, and the store connection's release. */
  datatype Event = StageReport(stage: Stage, count: nat) | Closed

  datatype PipelineRun = PipelineRun(table: Table, log: seq<Event>)

  /** The order in which the driver runs the stages. */
  const StageOrder: seq<Stage> := [KeywordStage, RetrievalStage, AnalysisStage, ScoreStage]

  /** The stages a log reports on, in order. */
  function StagesRun(log: seq<Event>): (stages: seq<Stage>)
    ensures |stages| <= |log|
  {
    if log == [] then []
    else (if log[0].StageReport? then [log[0].stage] else []) + StagesRun(log[1..])
  }

  lemma {:induction false} StagesRunAppend(a: seq<Event>, b: seq<Event>)
    ensures StagesRun(a + b) == StagesRun(a) + StagesRun(b)
  {
    if a == [] {
      assert a + b == b;
    } else {
      assert (a + b)[0] == a[0];
      assert (a + b)[1..] == a[1..] + b;
      StagesRunAppend(a[1..], b);
      var h := if a[0].StageReport? then [a[0].stage] else [];
      assert StagesRun(a + b) == h + StagesRun(a[1..] + b);
    }
  }

  /** The table after some stages ran, and their reports. */
  datatype Pass = Pass(table: Table, events: seq<Event>)

  /**
   The stages run one after the other, each over the table the previous one
   left, each reporting its count, and together keep the row set and the scan.
   */
  function RunStages(env: Env, t: Table, stages: seq<Stage>): (p: Pass)
    requires Valid(t)
    ensures Valid(p.table) && p.table.rows.Keys == t.rows.Keys && p.table.scan == t.scan
    ensures StagesRun(p.events) == stages
    ensures Closed !in p.events
    decreases |stages|
  {
    if stages == [] then Pass(t, [])
    else
      var r := RunStage(stages[0], env, t);
      var rest := RunStages(env, r.table, stages[1..]);
      StagesRunAppend([StageReport(stages[0], r.count)], rest.events);
      Pass(rest.table, [StageReport(stages[0], r.count)] + rest.events)
  }

  /** Running `[s] + rest` runs `s` first, then `rest` over the table `s` left; `s`'s count is reported first. */
  lemma RunStagesCons(env: Env, t: Table, s: Stage, rest: seq<Stage>)
    requires Valid(t)
    ensures var r := RunStage(s, env, t);
      var q := RunStages(env, r.table, rest);
      RunStages(env, t, [s] + rest) == Pass(q.table, [StageReport(s, r.count)] + q.events)
  {
    assert ([s] + rest)[0] == s && ([s] + rest)[1..] == rest;
  }

  /**
   A sequence of stages clears no column of any row and keeps the column
   lattice of every row.
   */
  lemma {:induction false} RunStagesKeepsLattice(env: Env, t: Table, stages: seq<Stage>)
    requires Valid(t)
    ensures var p := RunStages(env, t, stages);
      && (forall k :: k in t.rows ==> NeverCleared(t.rows[k], p.table.rows[k]))
      && (AllConsistent(t) ==> AllConsistent(p.table))
    decreases |stages|
  {
    if stages != [] {
      var r := RunStage(stages[0], env, t);
      var p := RunStages(env, t, stages);
      StageKeepsLattice(stages[0], env, t);
      RunStagesKeepsLattice(env, r.table, stages[1..]);
      assert p.table == RunStages(env, r.table, stages[1..]).table;
    }
  }

  /**
   `process_jobs`. Outside test mode an empty or failed harvest, or an insertion
   that raises, ends the run before any stage; otherwise all four stages run in
   order over the table as it then stands. The connection is released last, on
   every path.
   */
  function ProcessJobs(testMode: bool, harvest: Option<seq<RawJob>>, insertion: Insertion, env: Env, t: Table): (r: PipelineRun)
    requires Valid(t) && Valid(insertion.table)
    ensures |r.log| >= 1 && r.log[|r.log| - 1] == Closed && Closed !in r.log[..|r.log| - 1]
    ensures !testMode && (harvest.None? || harvest.value == []) ==> r == PipelineRun(t, [Closed])
    ensures StagesRun(r.log) == (if testMode || (harvest.Some? && harvest.value != [] && !insertion.raised) then StageOrder else [])
    ensures !testMode && harvest.Some? && harvest.value != [] && insertion.raised ==> r == PipelineRun(insertion.table, [Closed])
    ensures Valid(r.table)
  {
    if !testMode && (harvest.None? || |harvest.value| == 0) then
      PipelineRun(t, [Closed])
    else if !testMode && insertion.raised then
      PipelineRun(insertion.table, [Closed])
    else
      var start := if testMode then t else insertion.table;
      var p := RunStages(env, start, StageOrder);
      ReleasedLast(p.events);
      PipelineRun(p.table, p.events + [Closed])
  }

  /** Appending the release to a log without one reports the same stages and releases exactly once, last. */
  lemma ReleasedLast(events: seq<Event>)
    requires Closed !in events
    ensures var log := events + [Closed];
      StagesRun(log) == StagesRun(events) && log[|log| - 1] == Closed && Closed !in log[..|log| - 1]
  {
    StagesRunAppend(events, [Closed]);
    assert [Closed][1..] == [];
    assert (events + [Closed])[..|events|] == events;
  }

  /**
   A full run keeps the rows of the table it works on, clears no column and
   keeps the column lattice of every row.
   */
  lemma ProcessJobsKeepsLattice(testMode: bool, harvest: Option<seq<RawJob>>, insertion: Insertion, env: Env, t: Table)
    requires Valid(t) && Valid(insertion.table)
    ensures var start := if testMode then t else insertion.table;
      var r := ProcessJobs(testMode, harvest, insertion, env, t);
      (testMode || (harvest.Some? && harvest.value != [])) ==>
      (r.table.rows.Keys == start.rows.Keys &&
       (forall k :: k in start.rows ==> NeverCleared(start.rows[k], r.table.rows[k])) &&
       (AllConsistent(start) ==> AllConsistent(r.table)))
  {
    if testMode || (harvest.Some? && harvest.value != [] && !insertion.raised) {
      RunStagesKeepsLattice(env, if testMode then t else insertion.table, StageOrder);
    }
  }

  /**
   The driver's workflow written out: keywords, retrieval, analysis and score
   backfill, each over the table the previous one left (with the writes an
   aborted stage committed), each reporting its own count.
   */
  function FourStages(env: Env, start: Table): Pass
    requires Valid(start)
  {
    var kw := RunStage(KeywordStage, env, start);
    var rg := RunStage(RetrievalStage, env, kw.table);
    var an := RunStage(AnalysisStage, env, rg.table);
    var sc := RunStage(ScoreStage, env, an.table);
    Pass(sc.table, [StageReport(KeywordStage, kw.count), StageReport(RetrievalStage, rg.count),
                    StageReport(AnalysisStage, an.count), StageReport(ScoreStage, sc.count)])
  }

  /** Running the stages in `StageOrder` is the workflow written out. */
  lemma StageOrderChains(env: Env, start: Table)
    requires Valid(start)
    ensures RunStages(env, start, StageOrder) == FourStages(env, start)
  {
    var kw := RunStage(KeywordStage, env, start);
    var rg := RunStage(RetrievalStage, env, kw.table);
    var an := RunStage(AnalysisStage, env, rg.table);
    var sc := RunStage(ScoreStage, env, an.table);
    RunStagesCons(env, an.table, ScoreStage, []);
    var p3 := RunStages(env, an.table, [ScoreStage]);
    assert p3 == Pass(sc.table, [StageReport(ScoreStage, sc.count)]);
    RunStagesCons(env, rg.table, AnalysisStage, [ScoreStage]);
    var p2 := RunStages(env, rg.table, [AnalysisStage, ScoreStage]);
    assert p2 == Pass(sc.table, [StageReport(AnalysisStage, an.count)] + p3.events);
    RunStagesCons(env, kw.table, RetrievalStage, [AnalysisStage, ScoreStage]);
    var p1 := RunStages(env, kw.table, [RetrievalStage, AnalysisStage, ScoreStage]);
    assert p1 == Pass(sc.table, [StageReport(RetrievalStage, rg.count)] + p2.events);
    RunStagesCons(env, start, KeywordStage, [RetrievalStage, AnalysisStage, ScoreStage]);
  }

  /**
   A run that reaches the stages runs the workflow over the table as it then
   stands (the input table in test mode, the table after the insertion
   otherwise), ends with its table and reports the four counts, then releases
   the connection.
   */
  lemma ProcessJobsRunsStagesInOrder(testMode: bool, harvest: Option<seq<RawJob>>, insertion: Insertion, env: Env, t: Table)
    requires Valid(t) && Valid(insertion.table)
    requires testMode || (harvest.Some? && harvest.value != [] && !insertion.raised)
    ensures var w := FourStages(env, if testMode then t else insertion.table);
      ProcessJobs(testMode, harvest, insertion, env, t) == PipelineRun(w.table, w.events + [Closed])
  {
    StageOrderChains(env, if testMode then t else insertion.table);
  }

  /**
   In test mode, a selected row with a description and the keyword reply
   "Python, SQL, Docker" ends the whole run with exactly that keyword list: the
   later stages leave the keyword column alone.
   */
  lemma KeywordScenarioEndToEnd(harvest: Option<seq<RawJob>>, insertion: Insertion, env: Env, t: Table, k: JobId)
    requires Valid(t) && Valid(insertion.table) && k in t.rows && k in Select(t, KeywordStage)
    requires env.faults(KeywordStage) == StoreFaults(false, {})
    requires t.rows[k].description.Some? && t.rows[k].ragInfo.None?
    requires env.keywordModel(PromptText(t.rows[k].title), Truncate(t.rows[k].description.value, DescriptionBudget)) == Some("Python, SQL, Docker")
    ensures var r := ProcessJobs(true, harvest, insertion, env, t);
      k in r.table.rows && r.table.rows[k].keyword == Some("Python, SQL, Docker")
  {
    var kw := RunStage(KeywordStage, env, t);
    ProcessJobsRunsStagesInOrder(true, harvest, insertion, env, t);
    assert ProcessJobs(true, harvest, insertion, env, t).table == FourStages(env, t).table;
    KeywordScenario(env, t, k);
    LaterStagesKeepKeyword(env, kw.table, k);
  }

  /** Retrieval, analysis and score backfill leave a row's keyword as they found it. */
  lemma LaterStagesKeepKeyword(env: Env, t: Table, k: JobId)
    requires Valid(t) && k in t.rows
    ensures var rg := RunStage(RetrievalStage, env, t);
      var an := RunStage(AnalysisStage, env, rg.table);
      var sc := RunStage(ScoreStage, env, an.table);
      k in sc.table.rows && sc.table.rows[k].keyword == t.rows[k].keyword
  {
    var rg := RunStage(RetrievalStage, env, t);
    var an := RunStage(AnalysisStage, env, rg.table);
    StageKeepsLattice(RetrievalStage, env, t);
    StageKeepsLattice(AnalysisStage, env, rg.table);
    StageKeepsLattice(ScoreStage, env, an.table);
  }
}
