/**
 The four enrichment stages of `JobProcessor`. Each selects a bounded batch of
 the rows its predicate admits, asks a remote client about each row in turn and
 writes its own columns back, keyed by `job_id`.

 The remote clients (the keyword model, the retrieval service, the analysis
 model) and the store's failures are oracles collected in `Env`.
 */
module Stages {
  import opened Opt
  import opened Text
  import opened Scores
  import opened JobStore

  datatype Stage = KeywordStage | RetrievalStage | AnalysisStage | ScoreStage

  /** The `LIMIT` of each stage's query. */
  function Cap(st: Stage): nat {
    match st
    case KeywordStage => 50
    case RetrievalStage => 25
    case AnalysisStage => 25
    case ScoreStage => 50
  }

  /** The `WHERE` clause of each stage's query. */
  predicate Eligible(st: Stage, j: Job) {
    match st
    case KeywordStage => j.keyword.None?
    case RetrievalStage => j.keyword.Some? && j.ragInfo.None?
    case AnalysisStage => j.ragInfo.Some? && j.gptAnalysis.None?
    case ScoreStage => j.gptAnalysis.Some? && j.score.None?
  }

  /** What the retrieval service's `query` does: raise, return no `answer`, or return one (possibly null). */
  datatype RagReply = RagRaised(message: string) | RagNoAnswer | RagAnswer(answer: Option<string>)

  /** The store's failures during one stage: the selecting query raises, or the update of these rows raises. */
  datatype StoreFaults = StoreFaults(selectFails: bool, failingUpdates: set<JobId>)

  /**
   The world outside the pipeline. The models receive what the prompts are built
   from (title text, truncated description, retrieval context) and return the
   reply text, or nothing when the call raises or the reply has no content.
   `retrieval` is absent when the retrieval component failed to initialise.
   */
  datatype Env = Env(
    keywordModel: (string, string) -> Option<string>,
    retrieval: Option<string -> RagReply>,
    analysisModel: (string, string, string) -> Option<string>,
    matchers: LabelledMatchers,
    faults: Stage -> StoreFaults)

  /** A stage can query rows: every stage but retrieval always can. */
  predicate CanRun(st: Stage, env: Env) {
    st == RetrievalStage ==> env.retrieval.Some?
  }

  /** The `SET` part of each stage's `UPDATE`. */
  datatype Update =
    | SetKeyword(keyword: string)
    | SetRagInfo(ragInfo: Option<string>)
    | SetAnalysis(analysis: string, isBestFit: bool, score: real)
    | SetScore(score: real, isBestFit: bool)

  /** What a stage decides for one row. */
  datatype Action = Skip | Write(update: Update) | Raise(message: string)

  /** The update belongs to the stage. */
  predicate Owns(st: Stage, u: Update) {
    match st
    case KeywordStage => u.SetKeyword?
    case RetrievalStage => u.SetRagInfo?
    case AnalysisStage => u.SetAnalysis?
    case ScoreStage => u.SetScore?
  }

  /** `after` differs from `before` in the stage's own columns at most. */
  predicate OnlyOwnColumns(st: Stage, before: Job, after: Job) {
    match st
    case KeywordStage => after == before.(keyword := after.keyword)
    case RetrievalStage => after == before.(ragInfo := after.ragInfo)
    case AnalysisStage => after == before.(gptAnalysis := after.gptAnalysis, isBestFit := after.isBestFit, score := after.score)
    case ScoreStage => after == before.(score := after.score, isBestFit := after.isBestFit)
  }

  /** The row after an `UPDATE ... WHERE job_id = ...` hit it. */
  function Apply(u: Update, j: Job): (r: Job)
    ensures u.SetKeyword? ==> r.keyword == Some(u.keyword)
    ensures u.SetRagInfo? ==> r.ragInfo == u.ragInfo
    ensures u.SetAnalysis? ==> r.gptAnalysis == Some(u.analysis) && r.isBestFit == Some(u.isBestFit) && r.score == Some(u.score)
    ensures u.SetScore? ==> r.score == Some(u.score) && r.isBestFit == Some(u.isBestFit)
    ensures Owns(KeywordStage, u) ==> OnlyOwnColumns(KeywordStage, j, r)
    ensures Owns(RetrievalStage, u) ==> OnlyOwnColumns(RetrievalStage, j, r)
    ensures Owns(AnalysisStage, u) ==> OnlyOwnColumns(AnalysisStage, j, r)
    ensures Owns(ScoreStage, u) ==> OnlyOwnColumns(ScoreStage, j, r)
  {
    match u
    case SetKeyword(k) => j.(keyword := Some(k))
    case SetRagInfo(a) => j.(ragInfo := a)
    case SetAnalysis(text, fit, s) => j.(gptAnalysis := Some(text), isBestFit := Some(fit), score := Some(s))
    case SetScore(s, fit) => j.(score := Some(s), isBestFit := Some(fit))
  }

  // ---------------------------------------------------------------------------
  // Keyword stage (`process_job_keywords`, `extract_keywords`).

  /** How much of the description the prompts include. */
  const DescriptionBudget: nat := 4000

  /** A column rendered into a prompt: Python formats NULL as "None". */
  function PromptText(o: Option<string>): string {
    o.GetOr("None")
  }

  /**
   The cleanup of the keyword reply: stripped, then each line break replaced by
   ", ". It is empty exactly when the reply is all whitespace and never spans
   lines.
   */
  function CleanKeywords(reply: string): (r: string)
    ensures r == [] <==> AllSpace(reply)
    ensures '\n' !in r
    ensures '\n' !in Strip(reply) ==> r == Strip(reply)
  {
    ReplaceNewlines(Strip(reply))
  }

  /**
   A reply spread over two lines, trimmed at its outer ends, comes back as one
   line: the line break becomes ", ".
   */
  lemma CleanKeywordsJoinsLines(a: string, b: string)
    requires a != [] && !IsSpace(a[0]) && b != [] && !IsSpace(b[|b| - 1])
    ensures CleanKeywords(a + "\n" + b) == ReplaceNewlines(a) + ", " + ReplaceNewlines(b)
  {
    var s := a + "\n" + b;
    assert s[0] == a[0] && s[|s| - 1] == b[|b| - 1];
    StripTrimmed(s);
    ReplaceNewlinesJoins(a, b);
  }

  /** The reply "Python\nSQL" is cleaned to "Python, SQL". */
  lemma CleanTwoLineReply()
    ensures CleanKeywords("Python\nSQL") == "Python, SQL"
  {
    TwoLineLiterals();
    CleanKeywordsJoinsLines("Python", "SQL");
  }

  /**
   The facts about the literals that `CleanTwoLineReply` needs, kept apart so
   that they are checked without the cleanup's definitions in scope: how the
   two lines join, that neither holds a line break, and that the reply is
   trimmed at both ends.
   */
  lemma TwoLineLiterals()
    ensures "Python" + "\n" + "SQL" == "Python\nSQL"
    ensures "Python" + ", " + "SQL" == "Python, SQL"
    ensures '\n' !in "Python" && '\n' !in "SQL"
    ensures "Python"[0] == 'P' && "SQL"[|"SQL"| - 1] == 'L'
  {
  }

  /**
   `extract_keywords`: the model sees the title and the first 4000 characters of
   the description; a missing description or a failed call yields nothing.
   */
  function ExtractKeywords(env: Env, j: Job): (r: Option<string>)
    ensures r.Some? <==> j.description.Some? && env.keywordModel(PromptText(j.title), Truncate(j.description.value, DescriptionBudget)).Some?
    ensures r.Some? ==> r.value == CleanKeywords(env.keywordModel(PromptText(j.title), Truncate(j.description.value, DescriptionBudget)).value)
    ensures r.Some? ==> '\n' !in r.value
  {
    match j.description
    case None => None
    case Some(d) =>
      match env.keywordModel(PromptText(j.title), Truncate(d, DescriptionBudget))
      case None => None
      case Some(reply) => Some(CleanKeywords(reply))
  }

  /** A row of the keyword stage is written only when the cleaned reply is not empty. */
  function KeywordAction(env: Env, j: Job): (a: Action)
    ensures !a.Raise?
    ensures a.Write? <==> ExtractKeywords(env, j).Some? && ExtractKeywords(env, j).value != []
    ensures a.Write? ==> a.update == SetKeyword(ExtractKeywords(env, j).value)
  {
    match ExtractKeywords(env, j)
    case Some(k) => if k != [] then Write(SetKeyword(k)) else Skip
    case None => Skip
  }

  // ---------------------------------------------------------------------------
  // Retrieval stage (`process_job_rag_info`).

  const QueryPreamble: string := "My experience and skills related to these technologies and skills: "

  /** The query sent to the retrieval service: the preamble, then the keywords. */
  function RetrievalQuery(keywords: string): (q: string)
    ensures QueryPreamble <= q && q[|QueryPreamble|..] == keywords
  {
    QueryPreamble + keywords
  }

  /**
   A reply with an `answer` is written, even a null one; a reply without one is
   skipped; an exception from the service is not caught per row and ends the stage.
   */
  function RetrievalAction(rag: string -> RagReply, j: Job): (a: Action)
    requires j.keyword.Some?
    ensures a.Raise? <==> rag(RetrievalQuery(j.keyword.value)).RagRaised?
    ensures a.Write? <==> rag(RetrievalQuery(j.keyword.value)).RagAnswer?
    ensures a.Write? ==> a.update == SetRagInfo(rag(RetrievalQuery(j.keyword.value)).answer)
  {
    match rag(RetrievalQuery(j.keyword.value))
    case RagRaised(m) => Raise(m)
    case RagNoAnswer => Skip
    case RagAnswer(answer) => Write(SetRagInfo(answer))
  }

  // ---------------------------------------------------------------------------
  // Analysis stage (`analyze_job_fitness`, `analyze_with_gpt`).

  /**
   A successful analysis is always written, with the score and flag the pattern
   loop gives (score 0, not a best fit, when no pattern matches); a failed call or
   a missing description skips the row.
   */
  function AnalysisAction(env: Env, j: Job): (a: Action)
    requires j.ragInfo.Some?
    ensures !a.Raise?
    ensures a.Write? <==> (j.description.Some? &&
      env.analysisModel(PromptText(j.title), Truncate(j.description.value, DescriptionBudget), j.ragInfo.value).Some?)
    ensures a.Write? ==> (a.update.SetAnalysis? &&
      a.update.analysis == env.analysisModel(PromptText(j.title), Truncate(j.description.value, DescriptionBudget), j.ragInfo.value).value &&
      a.update.score == ExtractScore(env.matchers, a.update.analysis) &&
      a.update.isBestFit == IsBestFit(a.update.score))
  {
    match j.description
    case None => Skip
    case Some(d) =>
      match env.analysisModel(PromptText(j.title), Truncate(d, DescriptionBudget), j.ragInfo.value)
      case None => Skip
      case Some(text) =>
        var verdict := Assess(env.matchers, text);
        Write(SetAnalysis(text, verdict.isBestFit, verdict.score))
  }

  // ---------------------------------------------------------------------------
  // Score backfill (`process_job_scores`).

  /** The stored analysis is scored again; only a positive score is written. */
  function ScoreAction(env: Env, j: Job): (a: Action)
    requires j.gptAnalysis.Some?
    ensures !a.Raise?
    ensures a.Write? <==> ExtractScore(env.matchers, j.gptAnalysis.value) > 0.0
    ensures var s := ExtractScore(env.matchers, j.gptAnalysis.value); a.Write? ==> a.update == SetScore(s, IsBestFit(s))
  {
    var s := ExtractScore(env.matchers, j.gptAnalysis.value);
    if s > 0.0 then Write(SetScore(s, IsBestFit(s))) else Skip
  }

  // ---------------------------------------------------------------------------
  // Any stage.

  function ActionFor(st: Stage, env: Env, j: Job): (a: Action)
    requires Eligible(st, j) && CanRun(st, env)
    ensures a.Write? ==> Owns(st, a.update)
    ensures a.Raise? ==> st == RetrievalStage
  {
    match st
    case KeywordStage => KeywordAction(env, j)
    case RetrievalStage => RetrievalAction(env.retrieval.value, j)
    case AnalysisStage => AnalysisAction(env, j)
    case ScoreStage => ScoreAction(env, j)
  }

  /**
   What the stage's write promises about the row it wrote, for each stage:
   a non-empty single-line keyword list; the service's answer; an analysis with
   the score the extractor gives it and the matching flag; a positive score
   re-extracted from the stored analysis, with the matching flag.
   */
  predicate WriteGate(st: Stage, env: Env, before: Job, after: Job)
    requires Eligible(st, before) && CanRun(st, env)
  {
    match st
    case KeywordStage =>
      after.keyword.Some? && after.keyword.value != [] && '\n' !in after.keyword.value &&
      ExtractKeywords(env, before) == after.keyword
    case RetrievalStage =>
      env.retrieval.value(RetrievalQuery(before.keyword.value)) == RagAnswer(after.ragInfo)
    case AnalysisStage =>
      before.description.Some? &&
      after.gptAnalysis == env.analysisModel(PromptText(before.title), Truncate(before.description.value, DescriptionBudget), before.ragInfo.value) &&
      after.gptAnalysis.Some? && after.score.Some? &&
      after.score.value == ExtractScore(env.matchers, after.gptAnalysis.value) &&
      after.isBestFit == Some(IsBestFit(after.score.value))
    case ScoreStage =>
      after.score == Some(ExtractScore(env.matchers, before.gptAnalysis.value)) &&
      after.score.value > 0.0 && after.isBestFit == Some(IsBestFit(after.score.value))
  }

  /**
   Per row: the stage touches only its own columns, clears none, keeps the column
   lattice, writes only through its gate, and a written row leaves the stage's
   selection, except a retrieval answer that was null.
   */
  lemma EffectFacts(st: Stage, env: Env, j: Job)
    requires Eligible(st, j) && CanRun(st, env)
    ensures OnlyOwnColumns(st, j, After(ActionFor(st, env, j), j))
    ensures NeverCleared(j, After(ActionFor(st, env, j), j))
    ensures Consistent(j) ==> Consistent(After(ActionFor(st, env, j), j))
    ensures ActionFor(st, env, j).Write? ==> WriteGate(st, env, j, After(ActionFor(st, env, j), j))
    ensures ActionFor(st, env, j).Write? ==>
      !Eligible(st, After(ActionFor(st, env, j), j)) || (st == RetrievalStage && After(ActionFor(st, env, j), j).ragInfo.None?)
  {
  }

  // ---------------------------------------------------------------------------
  // Selection and the row loop.

  /** The keys of `ids`, in order, whose rows the stage's predicate admits. */
  function EligibleIn(st: Stage, rows: map<JobId, Job>, ids: seq<JobId>): (r: seq<JobId>)
    ensures forall k :: k in r <==> k in ids && k in rows && Eligible(st, rows[k])
    ensures Distinct(ids) ==> Distinct(r)
  {
    if ids == [] then []
    else
      var rest := EligibleIn(st, rows, ids[1..]);
      if ids[0] in rows && Eligible(st, rows[ids[0]]) then [ids[0]] + rest else rest
  }

  /**
   The stage's `SELECT ... WHERE ... LIMIT`: distinct rows the predicate admits,
   at most the cap, and fewer only when no other row qualifies.
   */
  function Select(t: Table, st: Stage): (sel: seq<JobId>)
    requires Valid(t)
    ensures |sel| <= Cap(st)
    ensures Distinct(sel)
    ensures forall k :: k in sel ==> k in t.rows && Eligible(st, t.rows[k])
    ensures forall k :: k in t.rows && Eligible(st, t.rows[k]) && k !in sel ==> |sel| == Cap(st)
  {
    var all := EligibleIn(st, t.rows, t.scan);
    var sel := Truncate(all, Cap(st));
    assert forall k :: k in sel ==> k in all;
    sel
  }

  /** The stage's decision procedure, as a function of the row alone. */
  function Decide(st: Stage, env: Env): Job --> Action
    requires CanRun(st, env)
  {
    j requires Eligible(st, j) => ActionFor(st, env, j)
  }

  /** The row after an action was carried out on it. */
  function After(a: Action, j: Job): Job {
    match a
    case Write(u) => Apply(u, j)
    case _ => j
  }

  /** Handling the row with key `k` raises: the client did, or the row's update did. */
  predicate Stops(a: Action, failing: set<JobId>, k: JobId) {
    a.Raise? || (a.Write? && k in failing)
  }

  ghost predicate Ready(act: Job --> Action, t0: map<JobId, Job>, sel: seq<JobId>) {
    forall k :: k in sel ==> k in t0 && act.requires(t0[k])
  }

  /** The selected keys whose rows are written, in order. */
  function WritesOf(act: Job --> Action, t0: map<JobId, Job>, sel: seq<JobId>): (r: seq<JobId>)
    requires Ready(act, t0, sel)
    ensures forall k :: k in r <==> k in sel && act(t0[k]).Write?
    ensures |r| <= |sel|
  {
    if sel == [] then []
    else
      var rest := WritesOf(act, t0, sel[1..]);
      if act(t0[sel[0]]).Write? then [sel[0]] + rest else rest
  }

  /** Writes of a batch that starts with `k`: `k` if its row is written, then the writes of the rest. */
  lemma WritesOfCons(act: Job --> Action, t0: map<JobId, Job>, k: JobId, rest: seq<JobId>)
    requires Ready(act, t0, [k] + rest)
    ensures Ready(act, t0, rest)
    ensures WritesOf(act, t0, [k] + rest) == (if act(t0[k]).Write? then [k] else []) + WritesOf(act, t0, rest)
  {
    assert ([k] + rest)[1..] == rest;
  }

  /** The rows after the loop, the keys it wrote, and how many selected rows it got through. */
  datatype Progress = Progress(rows: map<JobId, Job>, written: seq<JobId>, handled: nat)

  /** The loop's preconditions: decidable rows, no key twice, rows not yet touched. */
  ghost predicate LoopReady(act: Job --> Action, t0: map<JobId, Job>, sel: seq<JobId>, rows: map<JobId, Job>) {
    && Ready(act, t0, sel)
    && Distinct(sel)
    && (forall k :: k in sel ==> k in rows && rows[k] == t0[k])
  }

  /** The rows after handling row `k` with action `a`. */
  function Handle(a: Action, k: JobId, rows: map<JobId, Job>): map<JobId, Job>
    requires k in rows
  {
    if a.Write? then rows[k := Apply(a.update, rows[k])] else rows
  }

  /** Handling the first row keeps the rest of the batch ready. */
  lemma LoopReadyTail(act: Job --> Action, t0: map<JobId, Job>, sel: seq<JobId>, rows: map<JobId, Job>)
    requires LoopReady(act, t0, sel, rows) && sel != []
    ensures LoopReady(act, t0, sel[1..], Handle(act(t0[sel[0]]), sel[0], rows))
  {
    assert sel[0] in sel;
    forall k | k in sel[1..] ensures k != sel[0] {
      var i :| 0 <= i < |sel[1..]| && sel[1..][i] == k;
      assert sel[i + 1] == k;
    }
  }

  /**
   The `for job in jobs` loop over the selected rows, deciding from the rows as
   selected (`t0`) and writing into the current rows. It stops at the first row
   whose handling raises.
   */
  function Process(act: Job --> Action, failing: set<JobId>, t0: map<JobId, Job>, sel: seq<JobId>, rows: map<JobId, Job>): (p: Progress)
    requires LoopReady(act, t0, sel, rows)
    ensures p.rows.Keys == rows.Keys
    ensures p.handled <= |sel|
    ensures |p.written| <= p.handled
    decreases |sel|
  {
    if sel == [] then Progress(rows, [], 0)
    else
      var k := sel[0];
      assert k in sel;
      var a := act(t0[k]);
      if Stops(a, failing, k) then Progress(rows, [], 0)
      else
        LoopReadyTail(act, t0, sel, rows);
        var p := Process(act, failing, t0, sel[1..], Handle(a, k, rows));
        Progress(p.rows, (if a.Write? then [k] else []) + p.written, p.handled + 1)
  }

  /** The loop gets through every row before the first whose handling raises, and stops there. */
  lemma {:induction false} ProcessStopsAtFirstFailure(act: Job --> Action, failing: set<JobId>, t0: map<JobId, Job>, sel: seq<JobId>, rows: map<JobId, Job>)
    requires LoopReady(act, t0, sel, rows)
    ensures var p := Process(act, failing, t0, sel, rows);
      && (forall i :: 0 <= i < p.handled ==> !Stops(act(t0[sel[i]]), failing, sel[i]))
      && (p.handled < |sel| ==> Stops(act(t0[sel[p.handled]]), failing, sel[p.handled]))
    decreases |sel|
  {
    if sel != [] {
      assert sel[0] in sel;
      var a := act(t0[sel[0]]);
      if !Stops(a, failing, sel[0]) {
        LoopReadyTail(act, t0, sel, rows);
        ProcessStopsAtFirstFailure(act, failing, t0, sel[1..], Handle(a, sel[0], rows));
      }
    }
  }

  /** A prefix of a ready batch is ready. */
  lemma ReadyPrefix(act: Job --> Action, t0: map<JobId, Job>, sel: seq<JobId>, n: nat)
    requires Ready(act, t0, sel) && n <= |sel|
    ensures Ready(act, t0, sel[..n])
  {
    assert forall k :: k in sel[..n] ==> k in sel;
  }

  /** The loop writes exactly the written rows among those it got through, in order. */
  lemma {:induction false} ProcessWrites(act: Job --> Action, failing: set<JobId>, t0: map<JobId, Job>, sel: seq<JobId>, rows: map<JobId, Job>)
    requires LoopReady(act, t0, sel, rows)
    ensures var p := Process(act, failing, t0, sel, rows);
      Ready(act, t0, sel[..p.handled]) && p.written == WritesOf(act, t0, sel[..p.handled])
    decreases |sel|
  {
    var p := Process(act, failing, t0, sel, rows);
    ReadyPrefix(act, t0, sel, p.handled);
    if sel != [] {
      var k := sel[0];
      assert k in sel;
      var a := act(t0[k]);
      if !Stops(a, failing, k) {
        LoopReadyTail(act, t0, sel, rows);
        var rest := sel[1..];
        var q := Process(act, failing, t0, rest, Handle(a, k, rows));
        assert p == Progress(q.rows, (if a.Write? then [k] else []) + q.written, q.handled + 1);
        ProcessWrites(act, failing, t0, rest, Handle(a, k, rows));
        assert sel[..p.handled] == [k] + rest[..q.handled];
        WritesOfCons(act, t0, k, rest[..q.handled]);
        assert p.written == (if a.Write? then [k] else []) + WritesOf(act, t0, rest[..q.handled]);
      } else {
        assert p == Progress(rows, [], 0);
      }
    }
  }

  /**
   The rows the loop got through carry their action's effect; every other row,
   selected or not, is as it was.
   */
  lemma ProcessRows(act: Job --> Action, failing: set<JobId>, t0: map<JobId, Job>, sel: seq<JobId>, rows: map<JobId, Job>)
    requires LoopReady(act, t0, sel, rows)
    ensures var p := Process(act, failing, t0, sel, rows);
      && (forall i :: 0 <= i < p.handled ==> p.rows[sel[i]] == After(act(t0[sel[i]]), t0[sel[i]]))
      && (forall k :: k in rows && k !in sel[..p.handled] ==> p.rows[k] == rows[k])
  {
    ProcessHandledRows(act, failing, t0, sel, rows);
    ProcessOtherRows(act, failing, t0, sel, rows);
  }

  /** The rows the loop got through carry their action's effect. */
  lemma {:induction false} ProcessHandledRows(act: Job --> Action, failing: set<JobId>, t0: map<JobId, Job>, sel: seq<JobId>, rows: map<JobId, Job>)
    requires LoopReady(act, t0, sel, rows)
    ensures var p := Process(act, failing, t0, sel, rows);
      forall i :: 0 <= i < p.handled ==> p.rows[sel[i]] == After(act(t0[sel[i]]), t0[sel[i]])
    decreases |sel|
  {
    if sel != [] {
      var k := sel[0];
      assert k in sel;
      var a := act(t0[k]);
      if !Stops(a, failing, k) {
        LoopReadyTail(act, t0, sel, rows);
        var rows' := Handle(a, k, rows);
        var q := Process(act, failing, t0, sel[1..], rows');
        ProcessHandledRows(act, failing, t0, sel[1..], rows');
        ProcessOtherRows(act, failing, t0, sel[1..], rows');
        var p := Process(act, failing, t0, sel, rows);
        assert p.rows == q.rows && p.handled == q.handled + 1;
        assert k !in sel[1..][..q.handled];
        assert rows'[k] == After(a, t0[k]);
        forall i | 0 <= i < p.handled
          ensures p.rows[sel[i]] == After(act(t0[sel[i]]), t0[sel[i]])
        {
          if i > 0 {
            assert sel[i] == sel[1..][i - 1];
          }
        }
      }
    }
  }

  /** Every row the loop did not get through, selected or not, is as it was. */
  lemma {:induction false} ProcessOtherRows(act: Job --> Action, failing: set<JobId>, t0: map<JobId, Job>, sel: seq<JobId>, rows: map<JobId, Job>)
    requires LoopReady(act, t0, sel, rows)
    ensures var p := Process(act, failing, t0, sel, rows);
      forall k :: k in rows && k !in sel[..p.handled] ==> p.rows[k] == rows[k]
    decreases |sel|
  {
    if sel != [] {
      var k := sel[0];
      assert k in sel;
      var a := act(t0[k]);
      if !Stops(a, failing, k) {
        LoopReadyTail(act, t0, sel, rows);
        var rows' := Handle(a, k, rows);
        var q := Process(act, failing, t0, sel[1..], rows');
        ProcessOtherRows(act, failing, t0, sel[1..], rows');
        var p := Process(act, failing, t0, sel, rows);
        assert p.rows == q.rows && p.handled == q.handled + 1;
        assert sel[..p.handled] == [k] + sel[1..][..q.handled];
        forall j | j in rows && j !in sel[..p.handled]
          ensures p.rows[j] == rows[j]
        {
          assert j != k && j !in sel[1..][..q.handled];
        }
      }
    }
  }

  // ---------------------------------------------------------------------------
  // One stage from query to report.

  /**
   A stage's run: the table afterwards, the rows it selected, the rows it wrote
   (in order), whether an exception ended it early, and the count it reports.
   */
  datatype StageRun = StageRun(table: Table, selected: seq<JobId>, written: seq<JobId>, aborted: bool, count: nat)

  /**
   One stage. The retrieval stage reports 0 without a query when the retrieval
   component is absent. An exception (from the query, a client or an update)
   makes the stage report 0, while the updates committed before it stay.
   */
  function RunStage(st: Stage, env: Env, t: Table): (r: StageRun)
    requires Valid(t)
    ensures Valid(r.table) && r.table.scan == t.scan && r.table.rows.Keys == t.rows.Keys
    ensures |r.selected| <= Cap(st) && Distinct(r.selected)
    ensures forall k :: k in r.selected ==> k in t.rows && Eligible(st, t.rows[k])
    ensures forall k :: k in r.written ==> k in r.selected
    ensures r.aborted ==> r.count == 0
    ensures !r.aborted ==> r.count == |r.written|
    ensures !CanRun(st, env) ==> r == StageRun(t, [], [], false, 0)
  {
    if !CanRun(st, env) then StageRun(t, [], [], false, 0)
    else if env.faults(st).selectFails then StageRun(t, [], [], true, 0)
    else
      var sel := Select(t, st);
      var act := Decide(st, env);
      var p := Process(act, env.faults(st).failingUpdates, t.rows, sel, t.rows);
      ProcessWrites(act, env.faults(st).failingUpdates, t.rows, sel, t.rows);
      assert forall k :: k in sel[..p.handled] ==> k in sel;
      var aborted := p.handled < |sel|;
      StageRun(t.(rows := p.rows), sel, p.written, aborted, if aborted then 0 else |p.written|)
  }

  /**
   What a stage does to each row: a row it wrote carries its action's update;
   every other row, selected or not, is unchanged.
   */
  lemma StageRowEffect(st: Stage, env: Env, t: Table)
    requires Valid(t)
    ensures var r := RunStage(st, env, t);
      forall k :: k in t.rows ==>
        if k in r.written then Eligible(st, t.rows[k]) && CanRun(st, env) && ActionFor(st, env, t.rows[k]).Write? &&
          r.table.rows[k] == After(ActionFor(st, env, t.rows[k]), t.rows[k])
        else r.table.rows[k] == t.rows[k]
  {
    var r := RunStage(st, env, t);
    if CanRun(st, env) && !env.faults(st).selectFails {
      var sel := Select(t, st);
      var act := Decide(st, env);
      var failing := env.faults(st).failingUpdates;
      var p := Process(act, failing, t.rows, sel, t.rows);
      ProcessWrites(act, failing, t.rows, sel, t.rows);
      ProcessRows(act, failing, t.rows, sel, t.rows);
      forall k | k in t.rows
        ensures if k in r.written then Eligible(st, t.rows[k]) && ActionFor(st, env, t.rows[k]).Write? &&
          r.table.rows[k] == After(ActionFor(st, env, t.rows[k]), t.rows[k])
        else r.table.rows[k] == t.rows[k]
      {
        if k in sel[..p.handled] {
          var i :| 0 <= i < p.handled && sel[i] == k;
          assert sel[..p.handled][i] == k;
        }
      }
    }
  }

  /**
   Every stage touches only its own columns, clears no column and keeps the
   column lattice of every row.
   */
  lemma StageKeepsLattice(st: Stage, env: Env, t: Table)
    requires Valid(t)
    ensures var r := RunStage(st, env, t);
      && (forall k :: k in t.rows ==> OnlyOwnColumns(st, t.rows[k], r.table.rows[k]))
      && (forall k :: k in t.rows ==> NeverCleared(t.rows[k], r.table.rows[k]))
      && (AllConsistent(t) ==> AllConsistent(r.table))
  {
    var r := RunStage(st, env, t);
    StageRowEffect(st, env, t);
    forall k | k in t.rows
      ensures OnlyOwnColumns(st, t.rows[k], r.table.rows[k])
      ensures NeverCleared(t.rows[k], r.table.rows[k])
      ensures Consistent(t.rows[k]) ==> Consistent(r.table.rows[k])
    {
      if k in r.written {
        EffectFacts(st, env, t.rows[k]);
      }
    }
  }

  /**
   Every row a stage wrote passed the stage's write gate, and (but for a null
   retrieval answer) no longer satisfies the stage's predicate.
   */
  lemma StageWriteGates(st: Stage, env: Env, t: Table)
    requires Valid(t)
    ensures var r := RunStage(st, env, t);
      forall k :: k in r.written ==>
        && k in t.rows && Eligible(st, t.rows[k]) && CanRun(st, env)
        && WriteGate(st, env, t.rows[k], r.table.rows[k])
        && (!Eligible(st, r.table.rows[k]) || (st == RetrievalStage && r.table.rows[k].ragInfo.None?))
  {
    var r := RunStage(st, env, t);
    StageRowEffect(st, env, t);
    forall k | k in r.written
      ensures k in t.rows && Eligible(st, t.rows[k]) && CanRun(st, env)
      ensures WriteGate(st, env, t.rows[k], r.table.rows[k])
      ensures !Eligible(st, r.table.rows[k]) || (st == RetrievalStage && r.table.rows[k].ragInfo.None?)
    {
      EffectFacts(st, env, t.rows[k]);
    }
  }

  /**
   A stage is ended by an exception exactly when its query raises or the
   handling of some selected row raises (the client, or the row's update).
   */
  lemma StageAbortCause(st: Stage, env: Env, t: Table)
    requires Valid(t) && CanRun(st, env)
    ensures var r := RunStage(st, env, t);
      r.aborted <==> (env.faults(st).selectFails ||
        exists i :: 0 <= i < |r.selected| && Stops(Decide(st, env)(t.rows[r.selected[i]]), env.faults(st).failingUpdates, r.selected[i]))
  {
    if !env.faults(st).selectFails {
      var sel := Select(t, st);
      ProcessStopsAtFirstFailure(Decide(st, env), env.faults(st).failingUpdates, t.rows, sel, t.rows);
    }
  }

  /**
   A stage that is not ended by an exception gets through its whole selection:
   it writes every selected row whose client answer passes the gate, in
   selection order, and reports how many.
   */
  lemma StageCompletes(st: Stage, env: Env, t: Table)
    requires Valid(t) && CanRun(st, env)
    ensures var r := RunStage(st, env, t);
      !r.aborted ==> r.selected == Select(t, st) && r.written == WritesOf(Decide(st, env), t.rows, r.selected) && r.count == |r.written|
  {
    var r := RunStage(st, env, t);
    if !env.faults(st).selectFails {
      var sel := Select(t, st);
      var act := Decide(st, env);
      var failing := env.faults(st).failingUpdates;
      var p := Process(act, failing, t.rows, sel, t.rows);
      assert r.selected == sel && r.written == p.written && r.aborted == (p.handled < |sel|);
      ProcessWrites(act, failing, t.rows, sel, t.rows);
      if !r.aborted {
        assert sel[..p.handled] == sel;
      }
    }
  }

  /**
   A stage that raises at the handling of selected row `i` still keeps what it
   committed before: it reports 0, yet the write-decision rows before `i` were
   written, in order.
   */
  lemma StageAbortKeepsCommitted(st: Stage, env: Env, t: Table, i: nat)
    requires Valid(t) && CanRun(st, env) && !env.faults(st).selectFails
    requires i < |Select(t, st)|
    requires Stops(Decide(st, env)(t.rows[Select(t, st)[i]]), env.faults(st).failingUpdates, Select(t, st)[i])
    requires forall m :: 0 <= m < i ==> !Stops(Decide(st, env)(t.rows[Select(t, st)[m]]), env.faults(st).failingUpdates, Select(t, st)[m])
    ensures var r := RunStage(st, env, t);
      r.aborted && r.count == 0 && r.selected[..i] == Select(t, st)[..i] &&
      r.written == WritesOf(Decide(st, env), t.rows, Select(t, st)[..i])
  {
    var r := RunStage(st, env, t);
    var sel := Select(t, st);
    var act := Decide(st, env);
    var failing := env.faults(st).failingUpdates;
    var p := Process(act, failing, t.rows, sel, t.rows);
    assert r.selected == sel && r.written == p.written && r.aborted == (p.handled < |sel|);
    ProcessStopsAtFirstFailure(act, failing, t.rows, sel, t.rows);
    ProcessWrites(act, failing, t.rows, sel, t.rows);
    assert p.handled == i;
  }

  /** The keyword stage raises only when its store does. */
  lemma KeywordStageAbortsOnlyOnStoreFaults(env: Env, t: Table)
    requires Valid(t) && env.faults(KeywordStage).failingUpdates == {}
    ensures RunStage(KeywordStage, env, t).aborted <==> env.faults(KeywordStage).selectFails
  {
    var r := RunStage(KeywordStage, env, t);
    var act := Decide(KeywordStage, env);
    StageAbortCause(KeywordStage, env, t);
    forall i | 0 <= i < |r.selected|
      ensures !Stops(act(t.rows[r.selected[i]]), {}, r.selected[i])
    {
      var j := t.rows[r.selected[i]];
      assert act(j) == KeywordAction(env, j);
    }
  }

  /** A row whose model reply is "Python, SQL, Docker" is written with exactly that list. */
  lemma KeywordScenarioRow(env: Env, j: Job)
    requires j.keyword.None? && j.description.Some?
    requires env.keywordModel(PromptText(j.title), Truncate(j.description.value, DescriptionBudget)) == Some("Python, SQL, Docker")
    ensures KeywordAction(env, j) == Write(SetKeyword("Python, SQL, Docker"))
  {
    CleanTrimmedLine("Python, SQL, Docker");
    assert ExtractKeywords(env, j) == Some("Python, SQL, Docker");
  }

  /** A trimmed single-line reply is kept as it is. */
  lemma CleanTrimmedLine(s: string)
    requires s != [] && !IsSpace(s[0]) && !IsSpace(s[|s| - 1]) && '\n' !in s
    ensures CleanKeywords(s) == s
  {
    StripTrimmed(s);
  }

  /**
   The keyword scenario: a selected row with a description, whose model reply is
   "Python, SQL, Docker", gets exactly that keyword list when the store does not
   fail, and becomes a candidate of the retrieval stage.
   */
  lemma KeywordScenario(env: Env, t: Table, k: JobId)
    requires Valid(t) && k in t.rows && k in Select(t, KeywordStage)
    requires env.faults(KeywordStage) == StoreFaults(false, {})
    requires t.rows[k].description.Some? && t.rows[k].ragInfo.None?
    requires env.keywordModel(PromptText(t.rows[k].title), Truncate(t.rows[k].description.value, DescriptionBudget)) == Some("Python, SQL, Docker")
    ensures var r := RunStage(KeywordStage, env, t);
      !r.aborted && k in r.written &&
      r.table.rows[k].keyword == Some("Python, SQL, Docker") && Eligible(RetrievalStage, r.table.rows[k])
  {
    var r := RunStage(KeywordStage, env, t);
    var j := t.rows[k];
    KeywordScenarioWritten(env, t, k);
    KeywordScenarioRow(env, j);
    StageRowEffect(KeywordStage, env, t);
    assert r.table.rows[k] == j.(keyword := Some("Python, SQL, Docker"));
  }

  /** The first half of the scenario: the stage completes and writes the row. */
  lemma KeywordScenarioWritten(env: Env, t: Table, k: JobId)
    requires Valid(t) && k in t.rows && k in Select(t, KeywordStage)
    requires env.faults(KeywordStage) == StoreFaults(false, {})
    requires t.rows[k].description.Some?
    requires env.keywordModel(PromptText(t.rows[k].title), Truncate(t.rows[k].description.value, DescriptionBudget)) == Some("Python, SQL, Docker")
    ensures var r := RunStage(KeywordStage, env, t);
      !r.aborted && k in r.written
  {
    var r := RunStage(KeywordStage, env, t);
    var act := Decide(KeywordStage, env);
    KeywordStageAbortsOnlyOnStoreFaults(env, t);
    StageCompletes(KeywordStage, env, t);
    assert r.written == WritesOf(act, t.rows, Select(t, KeywordStage));
    KeywordScenarioRow(env, t.rows[k]);
    assert act(t.rows[k]).Write?;
  }

  /**
   The analysis stage stores a score with every analysis it writes, 0 when no
   pattern matched, so the rows it wrote are never picked up by the score
   backfill.
   */
  lemma AnalysedRowsSkipBackfill(env: Env, t: Table)
    requires Valid(t)
    ensures var r := RunStage(AnalysisStage, env, t);
      forall k :: k in r.written ==> k in r.table.rows && r.table.rows[k].score.Some? && !Eligible(ScoreStage, r.table.rows[k])
  {
    StageWriteGates(AnalysisStage, env, t);
  }
}
