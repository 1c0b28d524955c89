/**
 The `jobs` table as the enrichment pipeline sees it: rows keyed by the
 external `job_id`, each with its nullable enrichment columns, and the order in
 which the store happens to return rows (the queries carry no ORDER BY).
 */
module JobStore {
  import opened Opt

  type JobId = string

  /**
   One row. `title` and `description` come from ingestion; the other columns are
   NULL until a stage fills them. The internal `id` and `created_at` are not read
   by the pipeline and are left out.
   */
  datatype Job = Job(
    title: Option<string>,
    description: Option<string>,
    keyword: Option<string>,
    ragInfo: Option<string>,
    gptAnalysis: Option<string>,
    isBestFit: Option<bool>,
    score: Option<real>)

  /** The rows, and the order in which a scan of the table visits their keys. */
  datatype Table = Table(rows: map<JobId, Job>, scan: seq<JobId>)

  predicate Distinct(ids: seq<JobId>) {
    forall i, j :: 0 <= i < j < |ids| ==> ids[i] != ids[j]
  }

  /** The scan visits every row exactly once. */
  predicate Valid(t: Table) {
    && Distinct(t.scan)
    && (forall k :: k in t.scan ==> k in t.rows)
    && (forall k :: k in t.rows ==> k in t.scan)
  }

  /**
   The lattice the columns form: retrieval context only after keywords, an
   analysis only after retrieval context, a score only with an analysis, and a
   score always paired with the best-fit flag its threshold gives.
   */
  predicate Consistent(j: Job) {
    && (j.ragInfo.Some? ==> j.keyword.Some?)
    && (j.gptAnalysis.Some? ==> j.ragInfo.Some?)
    && (j.score.Some? ==> j.gptAnalysis.Some?)
    && (j.score.Some? ==> j.isBestFit == Some(j.score.value >= 7.0))
  }

  predicate AllConsistent(t: Table) {
    forall k :: k in t.rows ==> Consistent(t.rows[k])
  }

  /** No column that held a value holds NULL afterwards. */
  predicate NeverCleared(before: Job, after: Job) {
    && (before.keyword.Some? ==> after.keyword.Some?)
    && (before.ragInfo.Some? ==> after.ragInfo.Some?)
    && (before.gptAnalysis.Some? ==> after.gptAnalysis.Some?)
    && (before.isBestFit.Some? ==> after.isBestFit.Some?)
    && (before.score.Some? ==> after.score.Some?)
  }
}
