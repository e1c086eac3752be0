/** The sequential scraper of `scraper_api_service/jobs/utils.py`.

    Its `scrape_jobs` does everything inline: a three-attempt lookup of the
    listing page that retries every failure (404 included), range resolution
    with its own floor, then one request per id whose status decides the
    outcome and whose HTML landmarks (not JSON-LD) give the record. */
module Utils {
  import opened Wrappers
  import opened Text
  import opened Web
  import opened Jobs

  /** The listing lookup's attempt budget. */
  const ListingRetries: nat := 3

  /** The id assumed stored when the table is empty. */
  const FloorId: int := 1093276

  const CannotFindLatest: string := "cannot find latest job id"

  // ---------------------------------------------------------------------------
  // The listing lookup

  /** How the listing lookup loop ends: `break` with a response, or
      `return {"error": str(e)}` after the last failed attempt. */
  datatype ListingFetch = ListingPage(response: Response, attempts: nat) | ListingFailed(failure: Failure)

  /** The listing lookup from attempt number `attempt` on. */
  function ListingFrom(net: Network, attempt: nat): (r: ListingFetch)
    requires attempt < ListingRetries
    ensures r.ListingPage? ==>
      && attempt < r.attempts <= ListingRetries
      && IsOk(net(ListingUrl, r.attempts - 1))
      && net(ListingUrl, r.attempts - 1).response == r.response
      && forall i :: attempt <= i < r.attempts - 1 ==> !IsOk(net(ListingUrl, i))
    ensures r.ListingFailed? ==>
      && (forall i :: attempt <= i < ListingRetries ==> !IsOk(net(ListingUrl, i)))
      && r.failure == AttemptFailure(net(ListingUrl, ListingRetries - 1))
    decreases ListingRetries - attempt
  {
    var a := net(ListingUrl, attempt);
    if IsOk(a) then ListingPage(a.response, attempt + 1)
    else if attempt < ListingRetries - 1 then ListingFrom(net, attempt + 1)
    else ListingFailed(AttemptFailure(a))
  }

  /** The first good attempt within the budget gives the page, whatever the
      earlier failures were. */
  lemma {:induction false} ListingFirstOk(net: Network, attempt: nat, j: nat)
    requires attempt <= j < ListingRetries
    requires forall i :: attempt <= i < j ==> !IsOk(net(ListingUrl, i))
    requires IsOk(net(ListingUrl, j))
    ensures ListingFrom(net, attempt) == ListingPage(net(ListingUrl, j).response, j + 1)
    decreases j - attempt
  {
    if attempt < j {
      ListingFirstOk(net, attempt + 1, j);
    }
  }

  /** `for attempt in range(retries)`: `break` on a good response, pause and go
      on after a failure, `return` after the third. */
  method FetchListing(net: Network) returns (r: ListingFetch)
    ensures r == ListingFrom(net, 0)
  {
    var attempt: nat := 0;
    while true
      invariant attempt < ListingRetries
      invariant ListingFrom(net, attempt) == ListingFrom(net, 0)
      decreases ListingRetries - attempt
    {
      var a := net(ListingUrl, attempt);
      if IsOk(a) {
        return ListingPage(a.response, attempt + 1);
      }
      if attempt < ListingRetries - 1 {
        attempt := attempt + 1;
      } else {
        return ListingFailed(AttemptFailure(a));
      }
    }
  }

  // ---------------------------------------------------------------------------
  // Range resolution

  /** Range resolution of `scrape_jobs(start_id, end_id)`, given the largest
      stored id. */
  function ResolveRange(net: Network, lastStored: Option<int>, startId: Option<int>, endId: Option<int>): (r: Plan)
    ensures startId.Some? && endId.Some? ==> r == Scrape(startId.value, endId.value)
    ensures r.Finish? ==> r.status != Done
    ensures (startId.None? || endId.None?) && ListingFrom(net, 0).ListingFailed? ==>
      r == Finish(Error(Raised(ListingFrom(net, 0).failure)))
    ensures (startId.None? || endId.None?) && ListingFrom(net, 0).ListingPage? && LatestIdOnPage(ListingFrom(net, 0).response.page).IdMissing? ==>
      r == Finish(Error(Message(CannotFindLatest)))
    ensures (startId.None? || endId.None?) && r.Scrape? ==>
      && r.lo <= r.hi
      && r.lo == lastStored.GetOr(FloorId) + 1
      && ListingFrom(net, 0).ListingPage?
      && LatestIdOnPage(ListingFrom(net, 0).response.page) == IdFound(r.hi)
    ensures (startId.None? || endId.None?) && ListingFrom(net, 0).ListingPage? && LatestIdOnPage(ListingFrom(net, 0).response.page).IdUnreadable? ==>
      r == Finish(Error(Raised(ValueError(LatestIdOnPage(ListingFrom(net, 0).response.page).text))))
    ensures (startId.None? || endId.None?) && ListingFrom(net, 0).ListingPage? && LatestIdOnPage(ListingFrom(net, 0).response.page).IdFound? ==>
      var latest := LatestIdOnPage(ListingFrom(net, 0).response.page).id;
      r == if lastStored.GetOr(FloorId) + 1 > latest then Finish(NoNewJobs) else Scrape(lastStored.GetOr(FloorId) + 1, latest)
  {
    if startId.Some? && endId.Some? then Scrape(startId.value, endId.value)
    else
      match ListingFrom(net, 0)
      case ListingFailed(failure) => Finish(Error(Raised(failure)))
      case ListingPage(resp, _) =>
        match LatestIdOnPage(resp.page)
        case IdMissing => Finish(Error(Message(CannotFindLatest)))
        case IdUnreadable(text) => Finish(Error(Raised(ValueError(text))))
        case IdFound(latest) =>
          var start := lastStored.GetOr(FloorId) + 1;
          if start > latest then Finish(NoNewJobs) else Scrape(start, latest)
  }

  /** An empty table and a newest id of 1093280 give the four ids above the floor. */
  lemma EmptyTableStartsAboveFloor(net: Network)
    requires IsOk(net(ListingUrl, 0))
    requires LatestIdOnPage(net(ListingUrl, 0).response.page) == IdFound(1093280)
    ensures ResolveRange(net, None, None, None) == Scrape(1093277, 1093280)
    ensures |Ids(1093277, 1093280)| == 4
  {
  }

  /** With a newest id read from the listing, "no new jobs" comes exactly when
      the stored maximum (or the floor) has reached it; otherwise the run
      covers exactly the ids above it, up to the newest. */
  lemma AutoRangeIsTheUnseenIds(net: Network, lastStored: Option<int>, latest: int)
    requires ListingFrom(net, 0).ListingPage?
    requires LatestIdOnPage(ListingFrom(net, 0).response.page) == IdFound(latest)
    ensures ResolveRange(net, lastStored, None, None) == Finish(NoNewJobs) <==> lastStored.GetOr(FloorId) >= latest
    ensures ResolveRange(net, lastStored, None, None).Scrape? <==> lastStored.GetOr(FloorId) < latest
    ensures var r := ResolveRange(net, lastStored, None, None);
      r.Scrape? ==> forall k :: k in Ids(r.lo, r.hi) <==> lastStored.GetOr(FloorId) < k <= latest
  {
    IdsExactlyOnce(lastStored.GetOr(FloorId) + 1, latest);
  }

  /** Without both bounds the run never asks for an id the table already holds. */
  lemma AutoRangeSkipsStoredIds(net: Network, jobs: map<int, Job>)
    ensures var r := ResolveRange(net, MaxKey(jobs.Keys), None, None);
      r.Scrape? ==> forall k :: k in Ids(r.lo, r.hi) ==> k !in jobs
  {
    var r := ResolveRange(net, MaxKey(jobs.Keys), None, None);
    if r.Scrape? {
      IdsExactlyOnce(r.lo, r.hi);
    }
  }

  /** A single given bound is thrown away: both are recomputed. */
  lemma SingleBoundDiscarded(net: Network, lastStored: Option<int>, bound: int)
    ensures ResolveRange(net, lastStored, Some(bound), None) == ResolveRange(net, lastStored, None, None)
    ensures ResolveRange(net, lastStored, None, Some(bound)) == ResolveRange(net, lastStored, None, None)
  {
  }

  // ---------------------------------------------------------------------------
  // One id

  /** The `posted_at` that the `<time>` element gives: none without a
      `datetime` attribute, the scrape time when `fromisoformat` rejects it. */
  function PostedAtOf(timeTag: Option<TimeTag>): (r: Option<PostedAt>)
    ensures r.None? <==> timeTag.None? || timeTag.value.datetime.None?
    ensures r == Some(ScrapeTime) <==> timeTag.Some? && timeTag.value.datetime.Some? && !timeTag.value.datetime.value.isIso
    ensures r.Some? && r.value.FromSource? ==> timeTag.Some? && timeTag.value.datetime == Some(DateAttr(r.value.text, true))
  {
    match timeTag
    case Some(TimeTag(Some(d))) => if d.isIso then Some(FromSource(d.text)) else Some(ScrapeTime)
    case _ => None
  }

  /** An element whose attribute is read with `tag[attr]`: absent when the
      element is, and a `KeyError` when only the attribute is. */
  predicate MissingAttr(e: Option<Element>) {
    e.Some? && e.value.attr.None?
  }

  /** `logo_tag.get("data-src") or "" if logo_tag else ""`: taken as found,
      with no site prefix. */
  function LogoOf(img: Option<Element>): (r: string)
    ensures r == [] || (img.Some? && img.value.attr == Some(r))
    ensures img.Some? && img.value.attr.Some? ==> r == img.value.attr.value
  {
    match img
    case Some(e) => e.attr.GetOr("")
    case None => ""
  }

  /** `meta_desc["content"].strip() if meta_desc else ""`, once the attribute
      is known to be there. */
  function ShortDescriptionOf(meta: Option<Element>): (r: string)
    requires !MissingAttr(meta)
    ensures IsStripped(r)
    ensures meta.None? ==> r == []
    ensures meta.Some? ==> r == Strip(meta.value.attr.value)
    ensures meta.Some? ==> (r == [] <==> forall i :: 0 <= i < |meta.value.attr.value| ==> IsSpace(meta.value.attr.value[i]))
  {
    if meta.Some? then Strip(meta.value.attr.value) else ""
  }

  /** `apply_url` from `apply_url_tag["href"]`, once the attribute is known to
      be there: resolved against the site when it starts with "/". */
  function ApplyUrlOf(link: Option<Element>): (r: string)
    requires !MissingAttr(link)
    ensures !StartsWith(r, "/")
    ensures link.None? ==> r == ""
    ensures link.Some? ==> r == ResolveHref(link.value.attr.value)
  {
    if link.Some? then ResolveHref(link.value.attr.value) else ""
  }

  /** The record built once title and company are known and neither
      `meta_desc["content"]` nor `apply_url_tag["href"]` raises. */
  function RecordOf(jobId: int, resp: Response, title: string, company: string): (job: Job)
    requires !MissingAttr(resp.page.metaDescription) && !MissingAttr(resp.page.applyLink)
    ensures job.remoteokId == jobId && job.title == title && job.company == company && job.url == resp.url
    ensures IsClean(job.description) && IsStripped(job.shortDescription)
    ensures !StartsWith(job.applyUrl, "/")
    ensures resp.page.applyLink.None? ==> job.applyUrl == ""
    ensures job.companyLogo == [] || (resp.page.logoImage.Some? && resp.page.logoImage.value.attr == Some(job.companyLogo))
    ensures job.postedAt == PostedAtOf(resp.page.timeTag)
    ensures job.description == CleanDescription(resp.page.markdownText.GetOr(""))
    ensures job.companyLogo == LogoOf(resp.page.logoImage)
    ensures job.shortDescription == ShortDescriptionOf(resp.page.metaDescription)
    ensures job.applyUrl == ApplyUrlOf(resp.page.applyLink)
  {
    var page := resp.page;
    var description := CleanDescription(page.markdownText.GetOr(""));
    CleanDescriptionIsClean(page.markdownText.GetOr(""));
    Job(jobId, title, company, LogoOf(page.logoImage), description, ShortDescriptionOf(page.metaDescription),
        resp.url, ApplyUrlOf(page.applyLink), PostedAtOf(page.timeTag))
  }

  /** The record a 200 response yields, or why it yields none.  Title and
      company are checked first; then `meta_desc["content"]` and
      `apply_url_tag["href"]` may raise `KeyError`, in that order. */
  function ExtractJob(jobId: int, resp: Response): (r: IdOutcome)
    ensures r.Saved? ==> JobOk(jobId, r.job) && r.job.url == resp.url
    ensures r.Saved? ==> IsClean(r.job.description) && IsStripped(r.job.shortDescription)
    ensures r.Saved? ==> !StartsWith(r.job.applyUrl, "/")
    ensures r.Saved? && resp.page.applyLink.None? ==> r.job.applyUrl == ""
    ensures r.Saved? ==> r.job.companyLogo == [] || (resp.page.logoImage.Some? && resp.page.logoImage.value.attr == Some(r.job.companyLogo))
    ensures r.Saved? ==> r.job.postedAt == PostedAtOf(resp.page.timeTag)
    ensures r.Skipped? <==> Strip(resp.page.titleText.GetOr("")) == [] || Strip(resp.page.companyText.GetOr("")) == []
    ensures r.Skipped? ==> r.reason == MissingTitleOrCompany
    ensures r.Failed? <==> !r.Skipped? && (MissingAttr(resp.page.metaDescription) || MissingAttr(resp.page.applyLink))
    ensures r.Failed? ==> r.failure == (if MissingAttr(resp.page.metaDescription) then KeyError("content") else KeyError("href"))
    ensures r.Saved? ==>
      r.job == RecordOf(jobId, resp, Strip(resp.page.titleText.GetOr("")), Strip(resp.page.companyText.GetOr("")))
  {
    var title := Strip(resp.page.titleText.GetOr(""));
    var company := Strip(resp.page.companyText.GetOr(""));
    if title == [] || company == [] then Skipped(MissingTitleOrCompany)
    else if MissingAttr(resp.page.metaDescription) then Failed(KeyError("content"))
    else if MissingAttr(resp.page.applyLink) then Failed(KeyError("href"))
    else Saved(RecordOf(jobId, resp, title, company))
  }

  /** What processing `job_id` comes to: one request, classified by status. */
  function ProcessId(net: Network, jobId: int): (r: IdOutcome)
    ensures net(JobUrl(jobId), 0).RequestFailed? ==> r == Failed(RequestError(net(JobUrl(jobId), 0).detail))
    ensures net(JobUrl(jobId), 0).Received? ==>
      var status := net(JobUrl(jobId), 0).response.status;
      && (status == 404 ==> r == Skipped(NotFound))
      && (status == 429 ==> r == Skipped(RateLimited))
      && (status != 404 && status != 429 && status != 200 ==> r == Skipped(UnexpectedStatus(status)))
      && (status == 200 ==> r == ExtractJob(jobId, net(JobUrl(jobId), 0).response))
    ensures r.Saved? ==>
      && net(JobUrl(jobId), 0).Received?
      && net(JobUrl(jobId), 0).response.status == 200
      && JobOk(jobId, r.job)
      && r.job.url == net(JobUrl(jobId), 0).response.url
  {
    match net(JobUrl(jobId), 0)
    case RequestFailed(detail) => Failed(RequestError(detail))
    case Received(resp) =>
      if resp.status == 404 then Skipped(NotFound)
      else if resp.status == 429 then Skipped(RateLimited)
      else if resp.status != 200 then Skipped(UnexpectedStatus(resp.status))
      else ExtractJob(jobId, resp)
  }

  function Outcomes(net: Network): int -> IdOutcome {
    id => ProcessId(net, id)
  }

  lemma OutcomesSaveOwnId(net: Network, lo: int, hi: int)
    ensures SavesOwnId(Outcomes(net), lo, hi)
  {
    forall k | lo <= k <= hi && Outcomes(net)(k).Saved?
      ensures JobOk(k, Outcomes(net)(k).job)
    {
      assert Outcomes(net)(k) == ProcessId(net, k);
    }
  }

  /** One pass of the per-id loop body: `continue` on a skip, the `except`
      handler on a failure, `update_or_create` on success. */
  method ProcessJob(store: JobStore, net: Network, jobId: int) returns (r: IdOutcome)
    modifies store
    ensures r == ProcessId(net, jobId)
    ensures store.jobs == Write(old(store.jobs), r)
  {
    var attempt := net(JobUrl(jobId), 0);
    if attempt.RequestFailed? {
      return Failed(RequestError(attempt.detail));
    }
    var resp := attempt.response;
    if resp.status == 404 {
      return Skipped(NotFound);
    }
    if resp.status == 429 {
      return Skipped(RateLimited);
    }
    if resp.status != 200 {
      return Skipped(UnexpectedStatus(resp.status));
    }
    r := ExtractJob(jobId, resp);
    if r.Saved? {
      store.Upsert(r.job);
    }
  }

  /** One id of the run: the loop body on `id`, after which the rest of the run,
      `id + 1..hi`, produces the same final table. */
  method RunStep(store: JobStore, net: Network, id: int, hi: int, ghost outcome: int -> IdOutcome, ghost goal: map<int, Job>)
    requires id <= hi && outcome(id) == ProcessId(net, id)
    requires RunFrom(store.jobs, outcome, id, hi) == goal
    modifies store
    ensures RunFrom(store.jobs, outcome, id + 1, hi) == goal
  {
    ghost var jobs := store.jobs;
    var _ := ProcessJob(store, net, id);
    RunFromStep(jobs, outcome, id, hi);
  }

  /** `for job_id in range(start_id, end_id + 1)`; `visited` lists the ids in
      the order the loop takes them. */
  method RunRange(store: JobStore, net: Network, lo: int, hi: int, ghost outcome: int -> IdOutcome) returns (ghost visited: seq<int>)
    requires forall k {:trigger ProcessId(net, k)} :: outcome(k) == ProcessId(net, k)
    modifies store
    ensures visited == Ids(lo, hi)
    ensures store.jobs == RunFrom(old(store.jobs), outcome, lo, hi)
  {
    ghost var goal := RunFrom(store.jobs, outcome, lo, hi);
    visited := [];
    var id := lo;
    while id <= hi
      invariant lo <= id && (lo <= hi ==> id <= hi + 1) && (lo > hi ==> id == lo)
      invariant |visited| == id - lo
      invariant forall i :: 0 <= i < |visited| ==> visited[i] == lo + i
      invariant RunFrom(store.jobs, outcome, id, hi) == goal
      decreases hi - id
    {
      RunStep(store, net, id, hi, outcome, goal);
      visited := visited + [id];
      id := id + 1;
    }
    IdsByIndex(visited, lo, hi);
  }

  /** After a run, an id of the range whose page gave a record holds exactly
      that record; any other id is as it was before the run. */
  lemma RunStoresScrapedRecords(net: Network, jobs: map<int, Job>, lo: int, hi: int, id: int)
    requires lo <= id <= hi
    ensures ProcessId(net, id).Saved? ==>
      id in RunFrom(jobs, Outcomes(net), lo, hi) && RunFrom(jobs, Outcomes(net), lo, hi)[id] == ProcessId(net, id).job
    ensures !ProcessId(net, id).Saved? ==>
      && (id in RunFrom(jobs, Outcomes(net), lo, hi) <==> id in jobs)
      && (id in jobs ==> RunFrom(jobs, Outcomes(net), lo, hi)[id] == jobs[id])
  {
    OutcomesSaveOwnId(net, lo, hi);
    RunFromPerKey(jobs, Outcomes(net), lo, hi);
    assert Outcomes(net)(id) == ProcessId(net, id);
  }

  /** The first half of `scrape_jobs`: decide the range, or the early answer. */
  method PlanRun(store: JobStore, net: Network, startId: Option<int>, endId: Option<int>) returns (plan: Plan)
    ensures plan == ResolveRange(net, MaxKey(store.jobs.Keys), startId, endId)
  {
    if startId.Some? && endId.Some? {
      return Scrape(startId.value, endId.value);
    }
    var listing := FetchListing(net);
    if listing.ListingFailed? {
      return Finish(Error(Raised(listing.failure)));
    }
    var latest := LatestIdOnPage(listing.response.page);
    if latest.IdMissing? {
      return Finish(Error(Message(CannotFindLatest)));
    }
    if latest.IdUnreadable? {
      return Finish(Error(Raised(ValueError(latest.text))));
    }
    var lastStored := store.LatestStoredId();
    var start := lastStored.GetOr(FloorId) + 1;
    if start > latest.id {
      return Finish(NoNewJobs);
    }
    plan := Scrape(start, latest.id);
  }

  /** `scrape_jobs(start_id, end_id)`.  `visited` lists the ids whose page was
      requested, in order. */
  method ScrapeJobs(store: JobStore, net: Network, startId: Option<int>, endId: Option<int>)
    returns (status: RunStatus, ghost visited: seq<int>)
    modifies store
    ensures var plan := ResolveRange(net, MaxKey(old(store.jobs).Keys), startId, endId);
      && (plan.Finish? ==> status == plan.status && visited == [] && store.jobs == old(store.jobs))
      && (plan.Scrape? ==>
            && status == Done
            && visited == Ids(plan.lo, plan.hi)
            && store.jobs == RunFrom(old(store.jobs), Outcomes(net), plan.lo, plan.hi))
    ensures old(store.Valid()) ==> store.Valid()
  {
    var plan := PlanRun(store, net, startId, endId);
    match plan {
      case Finish(early) =>
        status, visited := early, [];
      case Scrape(lo, hi) =>
        ghost var before := store.jobs;
        visited := RunRange(store, net, lo, hi, Outcomes(net));
        OutcomesSaveOwnId(net, lo, hi);
        if StoreOk(before) {
          RunKeepsStoreOk(before, Outcomes(net), lo, hi);
        }
        status := Done;
    }
  }
}
