/** The `Job` table and what a scrape run does to it.

    The Django model becomes a `JobStore` object holding a map from
    `remoteok_id` to the record; `update_or_create(remoteok_id=..., defaults=...)`
    is `Upsert`, and `order_by("-remoteok_id").first()` is `LatestStoredId`.
    A run over an id range is specified by `RunFrom`, a left-to-right fold of
    one write per id; `RunFromPerKey` gives the final table key by key, and
    `AnyOrderSameTable` proves that folding the same writes in any order that
    lists each id of the range once gives the same table. */
module Jobs {
  import opened Wrappers
  import opened Text
  import opened Web

  /** `posted_at`: a source date text that `fromisoformat` accepted, or the
      time of the scrape (`timezone.now()`). */
  datatype PostedAt = FromSource(text: string) | ScrapeTime

  /** A row of the `Job` table (`scraped_at`, set by the database, is left out). */
  datatype Job = Job(
    remoteokId: int,
    title: string,
    company: string,
    companyLogo: string,
    description: string,
    shortDescription: string,
    url: string,
    applyUrl: string,
    postedAt: Option<PostedAt>)

  /** A record the scraper may store under key `id`. */
  predicate JobOk(id: int, job: Job) {
    && job.remoteokId == id
    && job.title != [] && IsStripped(job.title)
    && job.company != [] && IsStripped(job.company)
  }

  /** Every record sits under its own id and has a non-empty title and company. */
  predicate StoreOk(jobs: map<int, Job>) {
    forall id :: id in jobs ==> JobOk(id, jobs[id])
  }

  // ---------------------------------------------------------------------------
  // The largest stored id

  lemma NonEmptyHasElement(keys: set<int>)
    requires keys != {}
    ensures exists k :: k in keys
  {
    if forall k :: k !in keys {
      assert false;
    }
  }

  /** The largest of a non-empty set of ids. */
  ghost function MaxOf(keys: set<int>): (m: int)
    requires keys != {}
    ensures m in keys && forall k :: k in keys ==> k <= m
    decreases |keys|
  {
    NonEmptyHasElement(keys);
    var x :| x in keys;
    if keys == {x} then x
    else
      var rest := keys - {x};
      assert |rest| < |keys|;
      var m := MaxOf(rest);
      assert forall k :: k in keys ==> k == x || k in rest;
      if x <= m then m else x
  }

  /** The largest stored id, if any. */
  ghost function MaxKey(keys: set<int>): (m: Option<int>)
    ensures m.None? <==> keys == {}
    ensures m.Some? ==> m.value in keys && forall k :: k in keys ==> k <= m.value
  {
    if keys == {} then None else Some(MaxOf(keys))
  }

  class JobStore {
    var jobs: map<int, Job>

    ghost predicate Valid()
      reads this
    {
      StoreOk(jobs)
    }

    constructor ()
      ensures jobs == map[] && Valid()
    {
      jobs := map[];
    }

    /** `Job.objects.update_or_create(remoteok_id=job.remoteokId, defaults=...)`:
        afterwards exactly one record carries that id, and every other record
        is as it was. */
    method Upsert(job: Job)
      modifies this
      ensures jobs == old(jobs)[job.remoteokId := job]
    {
      jobs := jobs[job.remoteokId := job];
    }

    /** `Job.objects.order_by("-remoteok_id").first()`, reduced to its id. */
    method LatestStoredId() returns (m: Option<int>)
      ensures m.None? <==> jobs == map[]
      ensures m.Some? ==> m.value in jobs && forall k :: k in jobs ==> k <= m.value
      ensures m == MaxKey(jobs.Keys)
    {
      m := None;
      var rest := jobs.Keys;
      while rest != {}
        invariant rest <= jobs.Keys
        invariant m.None? ==> rest == jobs.Keys
        invariant m.Some? ==> m.value in jobs && forall k :: k in jobs && k !in rest ==> k <= m.value
        decreases rest
      {
        NonEmptyHasElement(rest);
        var k :| k in rest;
        if m.None? || k > m.value {
          m := Some(k);
        }
        rest := rest - {k};
      }
      assert m.None? ==> jobs.Keys == {};
    }
  }

  // ---------------------------------------------------------------------------
  // Per-id outcomes and runs

  /** Why an id was passed over without a write. */
  datatype SkipReason =
    | NotFound                  // HTTP 404
    | RateLimited               // HTTP 429
    | UnexpectedStatus(status: int)
    | FetchGaveUp               // the fetch returned no response
    | NoJsonLd
    | InvalidJson
    | NotJobPosting
    | MissingTitleOrCompany

  /** What processing one id came to. */
  datatype IdOutcome =
    | Saved(job: Job)
    | Skipped(reason: SkipReason)
    | Failed(failure: Failure)  // an exception, caught and logged

  /** The result dictionary a run returns. */
  datatype RunStatus =
    | Done                      // {"status": "done"}
    | NoNewJobs                 // {"status": "no new jobs"}
    | Error(error: RunError)    // {"error": ...}

  datatype RunError = Message(text: string) | Raised(failure: Failure)

  /** What range resolution decides: scrape `lo..hi` inclusive, or stop at once. */
  datatype Plan = Scrape(lo: int, hi: int) | Finish(status: RunStatus)

  /** `range(lo, hi + 1)`: the ids from `lo` to `hi`, in ascending order. */
  function Ids(lo: int, hi: int): (r: seq<int>)
    ensures |r| == if lo <= hi then hi - lo + 1 else 0
    ensures forall i :: 0 <= i < |r| ==> r[i] == lo + i
    decreases hi - lo
  {
    if lo > hi then [] else [lo] + Ids(lo + 1, hi)
  }

  /** Every id of the range occurs, nothing else does, and each occurs once. */
  lemma IdsExactlyOnce(lo: int, hi: int)
    ensures forall k :: k in Ids(lo, hi) <==> lo <= k <= hi
    ensures forall i, j :: 0 <= i < j < |Ids(lo, hi)| ==> Ids(lo, hi)[i] < Ids(lo, hi)[j]
  {
    var r := Ids(lo, hi);
    forall k | lo <= k <= hi ensures k in r {
      assert r[k - lo] == k;
    }
  }

  /** A sequence holding `lo, lo + 1, ...` up to `hi` is `Ids(lo, hi)`. */
  lemma IdsByIndex(s: seq<int>, lo: int, hi: int)
    requires |s| == if lo <= hi then hi - lo + 1 else 0
    requires forall i :: 0 <= i < |s| ==> s[i] == lo + i
    ensures s == Ids(lo, hi)
  {
  }

  /** The table after one id's outcome: a save puts its record under the
      record's own id and leaves every other key alone; a skip or a failure
      writes nothing. */
  function Write(jobs: map<int, Job>, outcome: IdOutcome): (r: map<int, Job>)
    ensures outcome.Saved? ==> r.Keys == jobs.Keys + {outcome.job.remoteokId} && r[outcome.job.remoteokId] == outcome.job
    ensures forall k :: k in jobs && !(outcome.Saved? && k == outcome.job.remoteokId) ==> k in r && r[k] == jobs[k]
    ensures !outcome.Saved? ==> r == jobs
  {
    if outcome.Saved? then jobs[outcome.job.remoteokId := outcome.job] else jobs
  }

  /** The table after processing ids `id..hi` in turn.  No record is ever
      deleted. */
  function RunFrom(jobs: map<int, Job>, outcome: int -> IdOutcome, id: int, hi: int): (r: map<int, Job>)
    ensures jobs.Keys <= r.Keys
    decreases hi - id
  {
    if id > hi then jobs else RunFrom(Write(jobs, outcome(id)), outcome, id + 1, hi)
  }

  /** One step of a run: the id's write, then the rest of the range. */
  lemma RunFromStep(jobs: map<int, Job>, outcome: int -> IdOutcome, id: int, hi: int)
    requires id <= hi
    ensures RunFrom(jobs, outcome, id, hi) == RunFrom(Write(jobs, outcome(id)), outcome, id + 1, hi)
  {
  }

  /** Each saved record belongs to the id it was produced for. */
  ghost predicate SavesOwnId(outcome: int -> IdOutcome, lo: int, hi: int) {
    forall k :: lo <= k <= hi && outcome(k).Saved? ==> JobOk(k, outcome(k).job)
  }

  /** Each key ends up with its own id's saved record, or as it was: ids
      outside the range, ids that were skipped or failed, keep their old
      record (or stay absent). */
  lemma {:induction false} RunFromPerKey(jobs: map<int, Job>, outcome: int -> IdOutcome, lo: int, hi: int)
    requires SavesOwnId(outcome, lo, hi)
    ensures forall k :: k in RunFrom(jobs, outcome, lo, hi) <==> k in jobs || (lo <= k <= hi && outcome(k).Saved?)
    ensures forall k :: k in RunFrom(jobs, outcome, lo, hi) ==>
      RunFrom(jobs, outcome, lo, hi)[k] == if lo <= k <= hi && outcome(k).Saved? then outcome(k).job else jobs[k]
    decreases hi - lo
  {
    if lo <= hi {
      RunFromPerKey(Write(jobs, outcome(lo)), outcome, lo + 1, hi);
    }
  }

  /** A run never breaks the table invariant. */
  lemma RunKeepsStoreOk(jobs: map<int, Job>, outcome: int -> IdOutcome, lo: int, hi: int)
    requires StoreOk(jobs) && SavesOwnId(outcome, lo, hi)
    ensures StoreOk(RunFrom(jobs, outcome, lo, hi))
  {
    RunFromPerKey(jobs, outcome, lo, hi);
  }

  /** Running the same range twice against an unchanged site leaves the table
      as one run did. */
  lemma RunIdempotent(jobs: map<int, Job>, outcome: int -> IdOutcome, lo: int, hi: int)
    requires SavesOwnId(outcome, lo, hi)
    ensures RunFrom(RunFrom(jobs, outcome, lo, hi), outcome, lo, hi) == RunFrom(jobs, outcome, lo, hi)
  {
    var once := RunFrom(jobs, outcome, lo, hi);
    RunFromPerKey(jobs, outcome, lo, hi);
    RunFromPerKey(once, outcome, lo, hi);
  }

  /** An empty range writes nothing. */
  lemma EmptyRunWritesNothing(jobs: map<int, Job>, outcome: int -> IdOutcome, lo: int, hi: int)
    requires lo > hi
    ensures RunFrom(jobs, outcome, lo, hi) == jobs
  {
  }

  // ---------------------------------------------------------------------------
  // Completion order

  /** The table after processing the ids of `order`, in that order. */
  function RunOver(jobs: map<int, Job>, outcome: int -> IdOutcome, order: seq<int>): (r: map<int, Job>)
    ensures jobs.Keys <= r.Keys
    decreases |order|
  {
    if order == [] then jobs else RunOver(Write(jobs, outcome(order[0])), outcome, order[1..])
  }

  /** Whatever the order, each key ends up with its own id's saved record, or
      as it was. */
  lemma {:induction false} RunOverPerKey(jobs: map<int, Job>, outcome: int -> IdOutcome, order: seq<int>)
    requires forall k :: k in order && outcome(k).Saved? ==> outcome(k).job.remoteokId == k
    ensures forall k :: k in RunOver(jobs, outcome, order) <==> k in jobs || (k in order && outcome(k).Saved?)
    ensures forall k :: k in RunOver(jobs, outcome, order) ==>
      RunOver(jobs, outcome, order)[k] == if k in order && outcome(k).Saved? then outcome(k).job else jobs[k]
    decreases |order|
  {
    if order != [] {
      assert forall k :: k in order <==> k == order[0] || k in order[1..];
      RunOverPerKey(Write(jobs, outcome(order[0])), outcome, order[1..]);
    }
  }

  /** The pool's completion order cannot change the table: taking the ids of
      `lo..hi` in any order that lists each of them (repeats allowed) and
      nothing else gives the table of the ascending run. */
  lemma AnyOrderSameTable(jobs: map<int, Job>, outcome: int -> IdOutcome, lo: int, hi: int, order: seq<int>)
    requires forall k :: k in order <==> lo <= k <= hi
    requires SavesOwnId(outcome, lo, hi)
    ensures RunOver(jobs, outcome, order) == RunFrom(jobs, outcome, lo, hi)
  {
    RunOverPerKey(jobs, outcome, order);
    RunFromPerKey(jobs, outcome, lo, hi);
    var x, y := RunOver(jobs, outcome, order), RunFrom(jobs, outcome, lo, hi);
    forall k
      ensures k in x <==> k in y
      ensures k in x ==> x[k] == y[k]
    {
      assert k in order <==> lo <= k <= hi;
    }
    assert x.Keys == y.Keys;
  }
}
