/** The thread-pool scraper of `scraper_api_service/jobs/utils2.py`.

    `fetch_page` retries every failure except a 404; `parse_job_page` reads the
    last JSON-LD script; `scrape_jobs` resolves the id range and hands every
    id to `scrape_job_wrapper`.  The pool of workers is modelled as one worker
    taking the ids in ascending order; `Jobs.AnyOrderSameTable` proves that
    any other order in which the workers' saves land gives the same table. */
module Utils2 {
  import opened Wrappers
  import opened Text
  import opened Web
  import opened Jobs

  /** `fetch_page`'s default retry budget. */
  const Retries: int := 3

  /** The id assumed stored when the table is empty. */
  const FloorId: int := 1090000

  const CannotFetchLatest: string := "cannot fetch latest job id"

  // ---------------------------------------------------------------------------
  // fetch_page

  predicate IsNotFound(a: Attempt) {
    a.Received? && a.response.status == 404
  }

  /** An attempt after which `fetch_page` tries again if budget remains:
      any HTTP error other than 404, or any other request exception. */
  predicate Retryable(a: Attempt) {
    !IsOk(a) && !IsNotFound(a)
  }

  /** What `fetch_page` returns, and how many requests it made in all. */
  datatype Fetched = Fetched(response: Option<Response>, attempts: nat)

  /** `fetch_page(url, retries)` from attempt number `attempt` on. */
  function FetchFrom(net: Network, url: string, retries: int, attempt: nat): (r: Fetched)
    decreases retries - attempt
    ensures attempt <= r.attempts
    ensures r.attempts == attempt <==> retries <= attempt
    ensures r.attempts > attempt ==> r.attempts <= retries
    ensures forall i :: attempt <= i < r.attempts - 1 ==> Retryable(net(url, i))
    ensures r.response.Some? ==> r.attempts > attempt && IsOk(net(url, r.attempts - 1)) && net(url, r.attempts - 1).response == r.response.value
    ensures r.response.None? && r.attempts > attempt ==>
      IsNotFound(net(url, r.attempts - 1)) || (r.attempts == retries && Retryable(net(url, r.attempts - 1)))
  {
    if retries <= attempt then Fetched(None, attempt)
    else
      var a := net(url, attempt);
      if IsOk(a) then Fetched(Some(a.response), attempt + 1)
      else if IsNotFound(a) then Fetched(None, attempt + 1)
      else if attempt < retries - 1 then FetchFrom(net, url, retries, attempt + 1)
      else Fetched(None, attempt + 1)
  }

  /** The first attempt that is not retried decides the fetch: a good response
      is returned, a 404 gives up at once, and a retryable failure on the last
      attempt of the budget gives up too. */
  lemma {:induction false} FetchDecidedBy(net: Network, url: string, retries: int, attempt: nat, j: nat)
    requires attempt <= j < retries
    requires forall i :: attempt <= i < j ==> Retryable(net(url, i))
    ensures IsOk(net(url, j)) ==> FetchFrom(net, url, retries, attempt) == Fetched(Some(net(url, j).response), j + 1)
    ensures IsNotFound(net(url, j)) ==> FetchFrom(net, url, retries, attempt) == Fetched(None, j + 1)
    ensures Retryable(net(url, j)) && j == retries - 1 ==> FetchFrom(net, url, retries, attempt) == Fetched(None, retries)
    decreases j - attempt
  {
    if attempt < j {
      FetchDecidedBy(net, url, retries, attempt + 1, j);
    }
  }

  /** With a budget of zero (or less) nothing is requested. */
  lemma NoBudgetNoRequest(net: Network, url: string, retries: int)
    requires retries <= 0
    ensures FetchFrom(net, url, retries, 0) == Fetched(None, 0)
  {
  }

  /** `fetch_page`: `for attempt in range(retries)` with early returns.  A
      pause (`time.sleep(delay)`) follows every attempt except the last. */
  method FetchPage(net: Network, url: string, retries: int) returns (resp: Option<Response>, ghost attempts: nat, ghost pauses: nat)
    ensures Fetched(resp, attempts) == FetchFrom(net, url, retries, 0)
    ensures pauses == if attempts == 0 then 0 else attempts - 1
  {
    attempts, pauses := 0, 0;
    var attempt := 0;
    while attempt < retries
      invariant attempts == attempt && pauses == attempt
      invariant retries > 0 ==> attempt < retries
      invariant FetchFrom(net, url, retries, attempt) == FetchFrom(net, url, retries, 0)
      decreases retries - attempt
    {
      var a := net(url, attempt);
      attempts := attempt + 1;
      if IsOk(a) {
        return Some(a.response), attempts, pauses;
      }
      if IsNotFound(a) {
        return None, attempts, pauses;
      }
      if attempt < retries - 1 {
        pauses := pauses + 1;
      } else {
        return None, attempts, pauses;
      }
      attempt := attempt + 1;
    }
    resp := None;
  }

  // ---------------------------------------------------------------------------
  // parse_job_page

  /** What `parse_job_page` gives back: a record, `None`, or an exception. */
  datatype ParseResult =
    | Record(job: Job)
    | NoRecord(reason: SkipReason)
    | ParseRaised(failure: Failure)

  /** `company_logo` gets the site prefix when it is not empty and does not
      start with "http". */
  function ResolveLogo(logo: string): (r: string)
    ensures r == [] <==> logo == []
    ensures r != [] ==> StartsWith(r, "http")
    ensures StartsWith(logo, "http") ==> r == logo
    ensures logo != [] && !StartsWith(logo, "http") ==> r == BaseUrl + logo
  {
    if logo != [] && !StartsWith(logo, "http") then
      assert (BaseUrl + logo)[..4] == "http";
      BaseUrl + logo
    else logo
  }

  lemma ResolveLogoIdempotent(logo: string)
    ensures ResolveLogo(ResolveLogo(logo)) == ResolveLogo(logo)
  {
  }

  /** The JSON-LD object `parse_job_page` reads, when the last script holds one
      of type "JobPosting". */
  predicate HasJobPosting(page: Page) {
    && page.ldScripts != []
    && page.ldScripts[|page.ldScripts| - 1].LdJson?
    && page.ldScripts[|page.ldScripts| - 1].obj.ldType == Some("JobPosting")
  }

  function PostingOf(page: Page): LdObject
    requires HasJobPosting(page)
  {
    page.ldScripts[|page.ldScripts| - 1].obj
  }

  /** `if json_data.get("datePosted")`: present and not empty. */
  predicate HasDate(obj: LdObject) {
    obj.datePosted.Some? && obj.datePosted.value.text != []
  }

  /** `apply_url`: the link's `href` (empty when absent), resolved against the
      site when it starts with "/"; empty without an apply link. */
  function ApplyUrlOf(link: Option<Element>): string {
    match link
    case Some(e) => ResolveHref(e.attr.GetOr(""))
    case None => ""
  }

  /** `posted_at`: the source text when `datePosted` is present and not empty. */
  function PostedAtOf(obj: LdObject): Option<PostedAt> {
    if HasDate(obj) then Some(FromSource(obj.datePosted.value.text)) else None
  }

  /** `parse_job_page(job_id, html)`. */
  function ParseJobPage(jobId: int, page: Page): (r: ParseResult)
    ensures page.ldScripts == [] ==> r == NoRecord(NoJsonLd)
    ensures page.ldScripts != [] && page.ldScripts[|page.ldScripts| - 1].LdInvalidJson? ==> r == NoRecord(InvalidJson)
    ensures page.ldScripts != [] && page.ldScripts[|page.ldScripts| - 1].LdNoText? ==> r == ParseRaised(TypeError)
    ensures page.ldScripts != [] && page.ldScripts[|page.ldScripts| - 1].LdOtherJson? ==> r == ParseRaised(AttributeError)
    ensures page.ldScripts != [] && page.ldScripts[|page.ldScripts| - 1].LdJson? && !HasJobPosting(page) ==> r == NoRecord(NotJobPosting)
    ensures HasJobPosting(page) && HasDate(PostingOf(page)) && !PostingOf(page).datePosted.value.isIso ==>
      r == ParseRaised(ValueError(PostingOf(page).datePosted.value.text))
    ensures r.Record? ==> HasJobPosting(page)
    ensures r.Record? ==> r.job == Job(
      jobId,
      Strip(PostingOf(page).title.GetOr("")),
      Strip(PostingOf(page).orgName.GetOr("")),
      ResolveLogo(PostingOf(page).logoUrl.GetOr("")),
      CleanDescription(page.markdownText.GetOr("")),
      CleanDescription(PostingOf(page).description.GetOr("")),
      JobUrl(jobId),
      ApplyUrlOf(page.applyLink),
      PostedAtOf(PostingOf(page)))
    ensures r.Record? ==> JobOk(jobId, r.job) && IdFromJobUrl(r.job.url) == Some(jobId)
    ensures r.Record? ==> IsClean(r.job.description) && IsClean(r.job.shortDescription)
    ensures r.Record? ==> r.job.companyLogo == [] || StartsWith(r.job.companyLogo, "http")
    ensures r.Record? ==> !StartsWith(r.job.applyUrl, "/")
    ensures r.Record? ==> (r.job.postedAt.Some? <==> HasDate(PostingOf(page)))
    ensures r.Record? ==> r.job.postedAt != Some(ScrapeTime)
    ensures HasJobPosting(page) && !(HasDate(PostingOf(page)) && !PostingOf(page).datePosted.value.isIso) ==>
      (r.Record? <==> Strip(PostingOf(page).title.GetOr("")) != [] && Strip(PostingOf(page).orgName.GetOr("")) != [])
    ensures HasJobPosting(page) && !(HasDate(PostingOf(page)) && !PostingOf(page).datePosted.value.isIso) ==>
      (Strip(PostingOf(page).title.GetOr("")) == [] || Strip(PostingOf(page).orgName.GetOr("")) == [] ==>
         r == NoRecord(MissingTitleOrCompany))
  {
    if page.ldScripts == [] then NoRecord(NoJsonLd)
    else
      match page.ldScripts[|page.ldScripts| - 1]
      case LdInvalidJson => NoRecord(InvalidJson)
      case LdNoText => ParseRaised(TypeError)
      case LdOtherJson => ParseRaised(AttributeError)
      case LdJson(obj) =>
        if obj.ldType != Some("JobPosting") then NoRecord(NotJobPosting)
        else
          var title := Strip(obj.title.GetOr(""));
          var company := Strip(obj.orgName.GetOr(""));
          var logo := obj.logoUrl.GetOr("");
          var description := CleanDescription(page.markdownText.GetOr(""));
          var shortDescription := CleanDescription(obj.description.GetOr(""));
          if HasDate(obj) && !obj.datePosted.value.isIso then
            ParseRaised(ValueError(obj.datePosted.value.text))
          else
            if title == [] || company == [] then NoRecord(MissingTitleOrCompany)
            else
              CleanDescriptionIsClean(page.markdownText.GetOr(""));
              CleanDescriptionIsClean(obj.description.GetOr(""));
              Record(Job(jobId, title, company, ResolveLogo(logo), description, shortDescription,
                         JobUrl(jobId), ApplyUrlOf(page.applyLink), PostedAtOf(obj)))
  }

  // ---------------------------------------------------------------------------
  // get_latest_remoteok_id

  /** What `get_latest_remoteok_id` returns, or the exception it raises. */
  datatype Latest = LatestId(id: int) | NoLatestId | LatestRaised(failure: Failure)

  /** `get_latest_remoteok_id` once the listing page was fetched (or not). */
  function LatestFrom(resp: Option<Response>): (r: Latest)
    ensures resp.None? ==> r == NoLatestId
    ensures r.LatestId? <==> resp.Some? && LatestIdOnPage(resp.value.page).IdFound?
    ensures r.LatestId? ==> LatestIdOnPage(resp.value.page) == IdFound(r.id)
    ensures resp.Some? && LatestIdOnPage(resp.value.page).IdMissing? ==> r == NoLatestId
    ensures resp.Some? && LatestIdOnPage(resp.value.page).IdUnreadable? ==>
      r == LatestRaised(ValueError(LatestIdOnPage(resp.value.page).text))
  {
    if resp.None? then NoLatestId
    else
      match LatestIdOnPage(resp.value.page)
      case IdFound(n) => LatestId(n)
      case IdMissing => NoLatestId
      case IdUnreadable(text) => LatestRaised(ValueError(text))
  }

  /** The listing lookup as a whole. */
  function LatestRemoteokId(net: Network): Latest {
    LatestFrom(FetchFrom(net, ListingUrl, Retries, 0).response)
  }

  /** The listing fetch is decided by its first attempt that is not retried;
      when that attempt is a good response, the newest id is read from its page. */
  lemma LatestReadFromFirstGoodListing(net: Network, j: nat)
    requires j < Retries
    requires forall i :: 0 <= i < j ==> Retryable(net(ListingUrl, i))
    requires IsOk(net(ListingUrl, j))
    ensures LatestRemoteokId(net) == LatestFrom(Some(net(ListingUrl, j).response))
    ensures LatestRemoteokId(net).LatestId? <==> LatestIdOnPage(net(ListingUrl, j).response.page).IdFound?
  {
    FetchDecidedBy(net, ListingUrl, Retries, 0, j);
  }

  method GetLatestRemoteokId(net: Network) returns (r: Latest)
    ensures r == LatestRemoteokId(net)
  {
    var resp, _, _ := FetchPage(net, ListingUrl, Retries);
    r := LatestFrom(resp);
  }

  // ---------------------------------------------------------------------------
  // scrape_job_wrapper

  /** What `scrape_job_wrapper(job_id)` comes to. */
  function ScrapeJob(net: Network, jobId: int): (r: IdOutcome)
    ensures r.Saved? ==> JobOk(jobId, r.job) && r.job.url == JobUrl(jobId)
    ensures r.Saved? ==> FetchFrom(net, JobUrl(jobId), Retries, 0).response.Some?
    ensures FetchFrom(net, JobUrl(jobId), Retries, 0).response.None? ==> r == Skipped(FetchGaveUp)
    ensures var resp := FetchFrom(net, JobUrl(jobId), Retries, 0).response;
      resp.Some? ==>
        var parsed := ParseJobPage(jobId, resp.value.page);
        && (parsed.Record? ==> r == Saved(parsed.job))
        && (parsed.NoRecord? ==> r == Skipped(parsed.reason))
        && (parsed.ParseRaised? ==> r == Failed(parsed.failure))
  {
    var fetched := FetchFrom(net, JobUrl(jobId), Retries, 0);
    if fetched.response.None? then Skipped(FetchGaveUp)
    else
      match ParseJobPage(jobId, fetched.response.value.page)
      case Record(job) => Saved(job)
      case NoRecord(reason) => Skipped(reason)
      case ParseRaised(failure) => Failed(failure)
  }

  /** Every id's outcome, as a function of the id. */
  function Outcomes(net: Network): int -> IdOutcome {
    id => ScrapeJob(net, id)
  }

  lemma OutcomesSaveOwnId(net: Network, lo: int, hi: int)
    ensures SavesOwnId(Outcomes(net), lo, hi)
  {
    forall k | lo <= k <= hi && Outcomes(net)(k).Saved?
      ensures JobOk(k, Outcomes(net)(k).job)
    {
      assert Outcomes(net)(k) == ScrapeJob(net, k);
    }
  }

  /** After a run, an id of the range whose page gave a record holds exactly
      that record; any other id is as it was before the run. */
  lemma RunStoresScrapedRecords(net: Network, jobs: map<int, Job>, lo: int, hi: int, id: int)
    requires lo <= id <= hi
    ensures ScrapeJob(net, id).Saved? ==>
      id in RunFrom(jobs, Outcomes(net), lo, hi) && RunFrom(jobs, Outcomes(net), lo, hi)[id] == ScrapeJob(net, id).job
    ensures !ScrapeJob(net, id).Saved? ==>
      && (id in RunFrom(jobs, Outcomes(net), lo, hi) <==> id in jobs)
      && (id in jobs ==> RunFrom(jobs, Outcomes(net), lo, hi)[id] == jobs[id])
  {
    OutcomesSaveOwnId(net, lo, hi);
    RunFromPerKey(jobs, Outcomes(net), lo, hi);
    assert Outcomes(net)(id) == ScrapeJob(net, id);
  }

  /** `scrape_job_wrapper`: fetch, parse, and `save_job` (an upsert) on success. */
  method ScrapeJobWrapper(store: JobStore, net: Network, jobId: int) returns (r: IdOutcome)
    modifies store
    ensures r == ScrapeJob(net, jobId)
    ensures store.jobs == Write(old(store.jobs), r)
  {
    var resp, _, _ := FetchPage(net, JobUrl(jobId), Retries);
    if resp.None? {
      return Skipped(FetchGaveUp);
    }
    var parsed := ParseJobPage(jobId, resp.value.page);
    match parsed {
      case Record(job) =>
        store.Upsert(job);
        r := Saved(job);
      case NoRecord(reason) =>
        r := Skipped(reason);
      case ParseRaised(failure) =>
        r := Failed(failure);
    }
  }

  // ---------------------------------------------------------------------------
  // scrape_jobs

  /** Range resolution of `scrape_jobs(start_id, end_id)`, given the largest
      stored id. */
  function ResolveRange(net: Network, lastStored: Option<int>, startId: Option<int>, endId: Option<int>): (r: Plan)
    ensures startId.Some? && endId.Some? ==> r == Scrape(startId.value, endId.value)
    ensures r.Finish? ==> r.status != Done
    ensures (startId.None? || endId.None?) && r.Scrape? ==>
      && r.lo <= r.hi
      && r.lo == lastStored.GetOr(FloorId) + 1
      && LatestRemoteokId(net) == LatestId(r.hi)
    ensures (startId.None? || endId.None?) && (LatestRemoteokId(net).NoLatestId? || LatestRemoteokId(net) == LatestId(0)) ==>
      r == Finish(Error(Message(CannotFetchLatest)))
    ensures (startId.None? || endId.None?) && LatestRemoteokId(net).LatestRaised? ==>
      r == Finish(Error(Raised(LatestRemoteokId(net).failure)))
    ensures (startId.None? || endId.None?) && LatestRemoteokId(net).LatestId? && LatestRemoteokId(net).id != 0 ==>
      r == if lastStored.GetOr(FloorId) + 1 > LatestRemoteokId(net).id then Finish(NoNewJobs)
           else Scrape(lastStored.GetOr(FloorId) + 1, LatestRemoteokId(net).id)
  {
    if startId.None? || endId.None? then
      match LatestRemoteokId(net)
      case LatestRaised(failure) => Finish(Error(Raised(failure)))
      case NoLatestId => Finish(Error(Message(CannotFetchLatest)))
      case LatestId(latest) =>
        if latest == 0 then Finish(Error(Message(CannotFetchLatest)))
        else
          var start := lastStored.GetOr(FloorId) + 1;
          if start > latest then Finish(NoNewJobs) else Scrape(start, latest)
    else Scrape(startId.value, endId.value)
  }

  /** A single given bound is thrown away: both are recomputed. */
  lemma SingleBoundDiscarded(net: Network, lastStored: Option<int>, bound: int)
    ensures ResolveRange(net, lastStored, Some(bound), None) == ResolveRange(net, lastStored, None, None)
    ensures ResolveRange(net, lastStored, None, Some(bound)) == ResolveRange(net, lastStored, None, None)
  {
  }

  /** With a non-zero newest id from the site, "no new jobs" comes exactly
      when the stored maximum (or the floor) has reached it; otherwise the run
      covers exactly the ids above it, up to the newest. */
  lemma AutoRangeIsTheUnseenIds(net: Network, lastStored: Option<int>, latest: int)
    requires LatestRemoteokId(net) == LatestId(latest) && latest != 0
    ensures ResolveRange(net, lastStored, None, None) == Finish(NoNewJobs) <==> lastStored.GetOr(FloorId) >= latest
    ensures var r := ResolveRange(net, lastStored, None, None);
      r.Scrape? ==> forall k :: k in Ids(r.lo, r.hi) <==> lastStored.GetOr(FloorId) < k <= latest
    ensures ResolveRange(net, lastStored, None, None).Scrape? <==> lastStored.GetOr(FloorId) < latest
  {
    IdsExactlyOnce(lastStored.GetOr(FloorId) + 1, latest);
  }

  /** Without explicit bounds the run never asks for an id the table already holds. */
  lemma AutoRangeSkipsStoredIds(net: Network, jobs: map<int, Job>)
    ensures var r := ResolveRange(net, MaxKey(jobs.Keys), None, None);
      r.Scrape? ==> forall k :: k in Ids(r.lo, r.hi) ==> k !in jobs
  {
    var r := ResolveRange(net, MaxKey(jobs.Keys), None, None);
    if r.Scrape? {
      IdsExactlyOnce(r.lo, r.hi);
    }
  }

  /** When the table already holds the site's newest id there is nothing to do. */
  lemma UpToDateMeansNoNewJobs(net: Network, latest: int)
    requires LatestRemoteokId(net) == LatestId(latest) && latest != 0
    ensures ResolveRange(net, Some(latest), None, None) == Finish(NoNewJobs)
  {
  }

  /** One id of the run: scrape_job_wrapper on `id`, after which the rest of the run,
      `id + 1..hi`, produces the same final table. */
  method RunStep(store: JobStore, net: Network, id: int, hi: int, ghost outcome: int -> IdOutcome, ghost goal: map<int, Job>)
    requires id <= hi && outcome(id) == ScrapeJob(net, id)
    requires RunFrom(store.jobs, outcome, id, hi) == goal
    modifies store
    ensures RunFrom(store.jobs, outcome, id + 1, hi) == goal
  {
    ghost var jobs := store.jobs;
    var _ := ScrapeJobWrapper(store, net, id);
    RunFromStep(jobs, outcome, id, hi);
  }

  /** The pool's work: `scrape_job_wrapper` for every id of `lo..hi`, taken in
      ascending order.  `submitted` lists the ids handed out. */
  method RunRange(store: JobStore, net: Network, lo: int, hi: int, ghost outcome: int -> IdOutcome) returns (ghost submitted: seq<int>)
    requires forall k {:trigger ScrapeJob(net, k)} :: outcome(k) == ScrapeJob(net, k)
    modifies store
    ensures submitted == Ids(lo, hi)
    ensures store.jobs == RunFrom(old(store.jobs), outcome, lo, hi)
  {
    ghost var goal := RunFrom(store.jobs, outcome, lo, hi);
    submitted := [];
    var id := lo;
    while id <= hi
      invariant lo <= id && (lo <= hi ==> id <= hi + 1) && (lo > hi ==> id == lo)
      invariant |submitted| == id - lo
      invariant forall i :: 0 <= i < |submitted| ==> submitted[i] == lo + i
      invariant RunFrom(store.jobs, outcome, id, hi) == goal
      decreases hi - id
    {
      RunStep(store, net, id, hi, outcome, goal);
      submitted := submitted + [id];
      id := id + 1;
    }
    IdsByIndex(submitted, lo, hi);
  }

  /** The first half of `scrape_jobs`: decide the range, or the early answer. */
  method PlanRun(store: JobStore, net: Network, startId: Option<int>, endId: Option<int>) returns (plan: Plan)
    ensures plan == ResolveRange(net, MaxKey(store.jobs.Keys), startId, endId)
  {
    if startId.Some? && endId.Some? {
      return Scrape(startId.value, endId.value);
    }
    var latest := GetLatestRemoteokId(net);
    if latest.LatestRaised? {
      return Finish(Error(Raised(latest.failure)));
    }
    if latest.NoLatestId? || latest.id == 0 {
      return Finish(Error(Message(CannotFetchLatest)));
    }
    var lastStored := store.LatestStoredId();
    var start := lastStored.GetOr(FloorId) + 1;
    if start > latest.id {
      return Finish(NoNewJobs);
    }
    plan := Scrape(start, latest.id);
  }

  /** `scrape_jobs(start_id, end_id)`.  `submitted` lists the ids handed to the
      pool, in order. */
  method ScrapeJobs(store: JobStore, net: Network, startId: Option<int>, endId: Option<int>)
    returns (status: RunStatus, ghost submitted: seq<int>)
    modifies store
    ensures var plan := ResolveRange(net, MaxKey(old(store.jobs).Keys), startId, endId);
      && (plan.Finish? ==> status == plan.status && submitted == [] && store.jobs == old(store.jobs))
      && (plan.Scrape? ==>
            && status == Done
            && submitted == Ids(plan.lo, plan.hi)
            && store.jobs == RunFrom(old(store.jobs), Outcomes(net), plan.lo, plan.hi))
    ensures old(store.Valid()) ==> store.Valid()
  {
    var plan := PlanRun(store, net, startId, endId);
    match plan {
      case Finish(early) =>
        status, submitted := early, [];
      case Scrape(lo, hi) =>
        ghost var before := store.jobs;
        submitted := RunRange(store, net, lo, hi, Outcomes(net));
        OutcomesSaveOwnId(net, lo, hi);
        if StoreOk(before) {
          RunKeepsStoreOk(before, Outcomes(net), lo, hi);
        }
        status := Done;
    }
  }
}
