/** Where the two scrapers disagree, stated on the same site.

    Both use equivalent `clean_description` code (`Text.CleanDescription`
    serves both); the retry policies, the floors, the treatment of a zero
    newest id and of a 429 on a job page differ. */
module Versions {
  import opened Wrappers
  import opened Web
  import opened Jobs
  import Utils
  import Utils2

  /** A 404 on the listing page: the sequential lookup tries again and gets
      the page, the thread-pool lookup gives up after one request. */
  lemma ListingNotFoundRetriedOnlySequentially(net: Network)
    requires net(ListingUrl, 0).Received? && net(ListingUrl, 0).response.status == 404
    requires IsOk(net(ListingUrl, 1))
    ensures Utils.ListingFrom(net, 0) == Utils.ListingPage(net(ListingUrl, 1).response, 2)
    ensures Utils2.FetchFrom(net, ListingUrl, Utils2.Retries, 0) == Utils2.Fetched(None, 1)
    ensures Utils2.LatestRemoteokId(net) == Utils2.NoLatestId
  {
    Utils.ListingFirstOk(net, 0, 1);
    Utils2.FetchDecidedBy(net, ListingUrl, Utils2.Retries, 0, 0);
  }

  /** A 429 on a job page followed by a good response: the thread-pool version
      retries and gets the page, the sequential one skips the id for good. */
  lemma RateLimitedJobRetriedOnlyByPool(net: Network, jobId: int)
    requires net(JobUrl(jobId), 0).Received? && net(JobUrl(jobId), 0).response.status == 429
    requires IsOk(net(JobUrl(jobId), 1))
    ensures Utils.ProcessId(net, jobId) == Skipped(RateLimited)
    ensures Utils2.FetchFrom(net, JobUrl(jobId), Utils2.Retries, 0) == Utils2.Fetched(Some(net(JobUrl(jobId), 1).response), 2)
    ensures Utils2.ScrapeJob(net, jobId) != Skipped(FetchGaveUp)
  {
    Utils2.FetchDecidedBy(net, JobUrl(jobId), Utils2.Retries, 0, 1);
  }

  /** On an empty table with the same newest id, the thread-pool version starts
      3276 ids lower than the sequential one. */
  lemma FloorsDiffer(net: Network, latest: int)
    requires IsOk(net(ListingUrl, 0))
    requires LatestIdOnPage(net(ListingUrl, 0).response.page) == IdFound(latest)
    requires latest > Utils.FloorId
    ensures Utils2.ResolveRange(net, None, None, None) == Scrape(Utils2.FloorId + 1, latest)
    ensures Utils.ResolveRange(net, None, None, None) == Scrape(Utils.FloorId + 1, latest)
    ensures |Ids(Utils2.FloorId + 1, latest)| == |Ids(Utils.FloorId + 1, latest)| + 3276
  {
    Utils.ListingFirstOk(net, 0, 0);
    Utils2.FetchDecidedBy(net, ListingUrl, Utils2.Retries, 0, 0);
  }

  /** A newest id of 0 on the listing: the thread-pool version reports an
      error, the sequential one (with a non-negative id stored) finds no new jobs. */
  lemma ZeroLatestTreatedDifferently(net: Network, lastStored: int)
    requires IsOk(net(ListingUrl, 0))
    requires LatestIdOnPage(net(ListingUrl, 0).response.page) == IdFound(0)
    requires lastStored >= 0
    ensures Utils2.ResolveRange(net, Some(lastStored), None, None) == Finish(Error(Message(Utils2.CannotFetchLatest)))
    ensures Utils.ResolveRange(net, Some(lastStored), None, None) == Finish(NoNewJobs)
  {
    Utils.ListingFirstOk(net, 0, 0);
    Utils2.FetchDecidedBy(net, ListingUrl, Utils2.Retries, 0, 0);
  }
}
