# RemoteOK scraper engine, modelled in Dafny

This project models the scraping engine of the RemoteOK job scraper. The
engine exists in two versions:

- `scraper_api_service/jobs/utils2.py` is the thread-pool version:
  - `fetch_page` retries failed requests;
  - `parse_job_page` reads the page's last JSON-LD script;
  - `get_latest_remoteok_id` reads the newest id from the listing;
  - `scrape_job_wrapper` and `save_job` process and store one id;
  - `scrape_jobs` resolves the id range and hands it to a worker pool.
- `scraper_api_service/jobs/utils.py` is the sequential version. Its
  `scrape_jobs` does all of this inline:
  - a three-attempt lookup of the listing page;
  - range resolution;
  - one request per id, classified by HTTP status;
  - extraction of the record from HTML landmarks;
  - an upsert into the `Job` table.

Both versions share `clean_description`, the whitespace normaliser. The two
files write it slightly differently (`utils.py` adds a docstring and splits the
statements) but compute the same thing, so one function,
`Text.CleanDescription`, models both.

Modules:

| file | module | what it holds |
|---|---|---|
| `wrappers.dfy` | `Wrappers` | `Option` |
| `text.dfy` | `Text` | Python whitespace (`str.isspace`), the regex passes of `clean_description`, `str.strip`, the clean normal form and its lemmas |
| `web.dfy` | `Web` | the network as an oracle, parsed pages as records of landmarks, job URLs and decimal ids, apply-link resolution |
| `jobs.dfy` | `Jobs` | the `Job` record, the `JobStore` class (the `Job` table), per-id outcomes, and a run as a fold of writes, with its lemmas |
| `utils2.dfy` | `Utils2` | the thread-pool version |
| `utils.dfy` | `Utils` | the sequential version |
| `versions.dfy` | `Versions` | lemmas showing where the two versions disagree on the same site |

How the boundary is modelled:

- HTTP is the function `Network(url, n)`, which gives the outcome of the `n`-th
  request for `url`. That outcome is a response with its status, final URL and
  parsed page, or a request exception.
- HTML and JSON parsing are foreign code. A `Page` is therefore what
  `soup.find` (first match), `soup.find_all` and `json.loads` return.
- `int()` and `datetime.fromisoformat` are foreign too. Each page landmark
  carries its own verdict from them (`IdAttr.asInt`, `DateAttr.isIso`).
- The Django table is the `map<int, Job>` field of `Jobs.JobStore`, keyed by
  `remoteok_id`. `update_or_create` is `JobStore.Upsert`.
  `order_by("-remoteok_id").first()` is `JobStore.LatestStoredId`.
- Each top-level `scrape_jobs` is split into two methods. `PlanRun` resolves
  the range (`ResolveRange`). `RunRange` is the per-id loop, and its result
  is specified by the fold `Jobs.RunFrom`.
- Each id writes only its own key. `Jobs.RunFromPerKey` gives the table after
  a run in closed form, key by key. `Jobs.AnyOrderSameTable` proves that
  folding the same per-id writes in any order that lists each id of the range
  gives the table of the ascending run. This is why the thread pool can be
  modelled as one worker taking the ids in ascending order.

## Model

| member | source | states |
|---|---|---|
| Text.ReplaceNbspAndTab | scraper_api_service/jobs/utils2.py:29 | the length is kept; every NBSP and tab becomes a space and every other character is unchanged; no tab or NBSP remains |
| Text.CollapseNewlineRuns | scraper_api_service/jobs/utils2.py:30 | the result is empty iff the input is; it begins with a newline exactly when the leading whitespace run holds one; it introduces no character other than `\n`; no newline in it is next to any other whitespace |
| Text.CollapseNewlineRunsByRun | scraper_api_service/jobs/utils2.py:30 | the pass equals the run-by-run rewrite: every maximal whitespace run holding a newline becomes exactly one `\n`, and every other run and every other character is copied unchanged |
| Text.CollapseNewlineRunsKeepsNonSpace | scraper_api_service/jobs/utils2.py:30 | the non-whitespace characters, in order, are those of the input |
| Text.CollapseSpaceRuns | scraper_api_service/jobs/utils2.py:31 | no two adjacent spaces; no new character except a space; the first character is kept (a tab becomes a space); isolated newlines stay isolated |
| Text.CollapseSpaceRunsKeepsNonSpace | scraper_api_service/jobs/utils2.py:31 | the non-whitespace characters, in order, are those of the input |
| Text.CollapseSpaceRunsKeepsNonBlank | scraper_api_service/jobs/utils2.py:31 | the pass rewrites only spaces and tabs: every other character, newlines included, survives in order |
| Text.CollapseSpaceRunsBlanksToSpace | scraper_api_service/jobs/utils2.py:31 | the pass equals the character-wise rule: a space or tab right after another space or tab is dropped, any other space or tab becomes one space, and every other character is copied in order |
| Text.CapNewlineRuns | scraper_api_service/jobs/utils2.py:32 | the result is empty iff the input is; its first character is the input's; it never holds three newlines in a row |
| Text.CapNewlineRunsKeepsNonSpace | scraper_api_service/jobs/utils2.py:32 | the non-whitespace characters, in order, are those of the input |
| Text.CapNewlineRunsDropsThirds | scraper_api_service/jobs/utils2.py:32 | the pass drops exactly the newlines preceded by two newlines and copies every other character in order, so each run of two or more newlines becomes "\n\n" |
| Text.Strip | scraper_api_service/jobs/utils2.py:33 | the result is a slice `s[a..b]` with only whitespace before `a` and after `b`, and it has no whitespace at either end; already-stripped text is unchanged; the result is empty iff the text is all whitespace; it keeps the no-double-space and isolated-newline shapes |
| Text.StripUnique | scraper_api_service/jobs/utils2.py:33 | any slice with only whitespace around it and none at its ends is the result of `strip()`: the characterisation above is exact |
| Text.StripKeepsNonSpace | scraper_api_service/jobs/utils2.py:33 | the non-whitespace characters, in order, are those of the input |
| Text.CleanDescription | scraper_api_service/jobs/utils2.py:26-28 | `clean_description("")` is `""` |
| Text.CleanDescriptionKeepsNonSpace | scraper_api_service/jobs/utils2.py:26-33 | `clean_description` only rewrites whitespace: the non-whitespace characters of the result, in order, are those of the input |
| Text.CleanDescriptionByRuns | scraper_api_service/jobs/utils2.py:26-33 | for non-empty text the result is the strip of: NBSP and tabs made spaces, each whitespace run holding a newline made one `\n`, each `[ \t]+` run made one space (`BlanksToSpace`, character by character) |
| Text.ReplaceNbspAndTabKeepsNonSpace | scraper_api_service/jobs/utils2.py:29 | the non-whitespace characters, in order, are those of the input |
| Text.CleanDescriptionIsClean | scraper_api_service/jobs/utils2.py:26-33 | every output is in normal form: no tab, no NBSP, no two adjacent spaces, no newline beside other whitespace (so no blank line), no leading or trailing whitespace |
| Text.BeforeCap | scraper_api_service/jobs/utils2.py:29-31 | after the first three passes, no tab or NBSP is left, there are no double spaces, and every newline is isolated |
| Text.CapNewlineRunsNoOp | scraper_api_service/jobs/utils2.py:32 | on text whose newlines are isolated, the `\n{2,}` rewrite changes nothing |
| Text.BlankLinePassIsIdentity | scraper_api_service/jobs/utils2.py:30-32 | inside `clean_description` the `\n{2,}` rewrite never changes its input |
| Text.CollapseNewlineRunsNoOp | scraper_api_service/jobs/utils2.py:30 | the newline-run pass leaves text with isolated newlines unchanged |
| Text.CollapseSpaceRunsNoOp | scraper_api_service/jobs/utils2.py:31 | the space-run pass leaves tab-free text without double spaces unchanged |
| Text.CleanTextIsFixedPoint | scraper_api_service/jobs/utils2.py:26-33 | text in normal form is returned unchanged |
| Text.CleanDescriptionIdempotent | scraper_api_service/jobs/utils2.py:26-33 | `clean_description(clean_description(x)) == clean_description(x)` |
| Web.LatestIdOnPage | scraper_api_service/jobs/utils2.py:141-145 | an id is found iff the first `tr.job` has a `data-id` that `int()` accepts, and it is that value; "missing" iff there is no row or the row has no `data-id`; "unreadable" carries the `data-id` text that `int()` rejected |
| Web.AttemptFailure | scraper_api_service/jobs/utils2.py:40-58 | a failed response raises `HTTPError` carrying its status, which is 4xx or 5xx; a failed request raises its own `RequestException` |
| Web.AttemptSplit | scraper_api_service/jobs/utils2.py:39-41 | an attempt passes `raise_for_status()` iff it is a response with a status outside 400..599; a failure is an `HTTPError` iff it is a response |
| Web.DecimalRoundTrip | scraper_api_service/jobs/utils2.py:118 | `str(id)` reads back as `id` |
| Web.DecimalString | scraper_api_service/jobs/utils2.py:118 | `str(n)` is canonical: digits without a leading zero (except "0"), with a minus sign exactly when n < 0 and never "-0" |
| Web.DecimalStringUnique | scraper_api_service/jobs/utils2.py:118 | a canonical numeral that reads back as n is exactly `str(n)` |
| Web.JobUrl | scraper_api_service/jobs/utils2.py:118 | the URL is `BASE_URL/remote-jobs/` followed by `str(id)`, and the id can be read back from it |
| Web.JobUrlInjective | scraper_api_service/jobs/utils2.py:118 | two different ids never share a canonical URL |
| Web.ResolveHref | scraper_api_service/jobs/utils2.py:96 | an href starting with "/" gets the `BASE_URL` prefix, any other is kept; the result never starts with "/" |
| Web.ResolveHrefIdempotent | scraper_api_service/jobs/utils2.py:96 | resolving an already resolved link changes nothing |
| Jobs.MaxKey | scraper_api_service/jobs/utils2.py:170 | none iff the table is empty, otherwise the largest stored id |
| Jobs.JobStore.Upsert | scraper_api_service/jobs/utils2.py:124-129 | afterwards the record under the id is the new one and every other key is as it was |
| Jobs.JobStore.LatestStoredId | scraper_api_service/jobs/utils2.py:170-171 | none iff the table is empty, otherwise the largest stored id |
| Jobs.Ids | scraper_api_service/jobs/utils2.py:182 | `range(start, end + 1)`: end - start + 1 ids (none when start > end), the i-th being start + i |
| Jobs.IdsExactlyOnce | scraper_api_service/jobs/utils2.py:182 | an id is in the range iff start <= id <= end, and the ids strictly ascend, so each is visited once |
| Jobs.Write | scraper_api_service/jobs/utils2.py:124-129 | a saved record is stored under its own id, adding that key if new and replacing the old record otherwise; every other key is kept; a skip or failure writes nothing |
| Jobs.RunFrom | scraper_api_service/jobs/utils2.py:181-190 | a run never removes a stored id |
| Jobs.RunFromPerKey | scraper_api_service/jobs/utils2.py:181-190 | after a run, each id in the range that was saved holds its record; every other key is exactly as before (no write on skip or failure) |
| Jobs.RunOverPerKey | scraper_api_service/jobs/utils2.py:183-190 | the same closed form holds for the writes taken in any order |
| Jobs.AnyOrderSameTable | scraper_api_service/jobs/utils2.py:181-190 | any completion order that covers the range gives the same table as the ascending run |
| Jobs.RunKeepsStoreOk | scraper_api_service/jobs/utils2.py:181-190 | a run keeps every stored record under its own id with a non-empty, stripped title and company |
| Jobs.RunIdempotent | scraper_api_service/jobs/utils2.py:181-190 | running the same range twice against an unchanged site gives the table one run gives |
| Jobs.EmptyRunWritesNothing | scraper_api_service/jobs/utils2.py:162-196 | explicit bounds with start > end write nothing |
| Utils2.FetchFrom | scraper_api_service/jobs/utils2.py:36-59 | at most `retries` requests, none when `retries <= 0`; every attempt before the last was retryable (neither ok nor 404); a response is the last, good attempt; `None` means a 404 or a retryable failure on the last attempt of the budget |
| Utils2.FetchDecidedBy | scraper_api_service/jobs/utils2.py:37-58 | the first attempt that is not retried decides: a good response is returned, a 404 stops at once, and a retryable failure on the last attempt gives up |
| Utils2.NoBudgetNoRequest | scraper_api_service/jobs/utils2.py:36-59 | with `retries = 0` no request is made and the result is `None` |
| Utils2.FetchPage | scraper_api_service/jobs/utils2.py:36-59 | the loop computes `FetchFrom`; it pauses after every attempt except the last |
| Utils2.ResolveLogo | scraper_api_service/jobs/utils2.py:104-105 | an empty logo stays empty; a logo starting with "http" is kept; any other gets the `BASE_URL` prefix; a non-empty result starts with "http" |
| Utils2.ResolveLogoIdempotent | scraper_api_service/jobs/utils2.py:104-105 | resolving twice is resolving once |
| Utils2.ParseJobPage | scraper_api_service/jobs/utils2.py:62-121 | no script gives `None`; an undecodable last script gives `None`; a script without text raises `TypeError` and one decoding to a non-object raises `AttributeError`; a last script not of type JobPosting gives `None`; an unparseable `datePosted` raises `ValueError` with its text; otherwise an empty title or company after strip gives `None`, and a record is given iff both are non-empty; the record is exactly: the id, stripped title and company, the resolved logo, both descriptions cleaned, the canonical URL of the id, the resolved apply link (empty without a tag) and `datePosted` as `posted_at` |
| Utils2.LatestFrom | scraper_api_service/jobs/utils2.py:135-145 | no response gives `None`; otherwise an id is given iff the first job row has a `data-id` that `int()` accepts, and it is that value; a missing row or attribute gives `None`; an unreadable `data-id` raises `ValueError` with its text |
| Utils2.LatestReadFromFirstGoodListing | scraper_api_service/jobs/utils2.py:135-143 | when the first attempt not retried is a good response, the newest id is read from that response's page |
| Utils2.GetLatestRemoteokId | scraper_api_service/jobs/utils2.py:135-145 | the lookup of the listing page computes `LatestRemoteokId` |
| Utils2.ScrapeJob | scraper_api_service/jobs/utils2.py:148-159 | a fetch that returns nothing skips the id; otherwise a parsed record is saved, no record skips the id, and a parse exception is a failure; a save holds a valid record for that id under its canonical URL |
| Utils2.RunStoresScrapedRecords | scraper_api_service/jobs/utils2.py:148-190 | after a run, an id of the range whose page gave a record holds exactly that record; any other id is as it was before the run |
| Utils2.OutcomesSaveOwnId | scraper_api_service/jobs/utils2.py:148-159 | every record saved for an id belongs to that id |
| Utils2.ScrapeJobWrapper | scraper_api_service/jobs/utils2.py:124-159 | computes `ScrapeJob`; the table changes by exactly that one upsert, or not at all |
| Utils2.ResolveRange | scraper_api_service/jobs/utils2.py:164-177 | explicit bounds are used only when both are given; otherwise a missing or zero latest id is an error and a raised exception is reported; with a latest id, the answer is "no new jobs" when (largest stored id or 1090000) + 1 exceeds it and otherwise the range from there to it; an early answer is never "done" |
| Utils2.AutoRangeIsTheUnseenIds | scraper_api_service/jobs/utils2.py:166-182 | "no new jobs" iff the stored maximum (or 1090000) has reached the latest id; otherwise the run covers exactly the ids above it, up to the latest |
| Utils2.AutoRangeSkipsStoredIds | scraper_api_service/jobs/utils2.py:170-182 | without explicit bounds the run never requests an id the table already holds |
| Utils2.SingleBoundDiscarded | scraper_api_service/jobs/utils2.py:164 | a single given bound is thrown away |
| Utils2.UpToDateMeansNoNewJobs | scraper_api_service/jobs/utils2.py:171-175 | when the table holds the newest id, the answer is "no new jobs" |
| Utils2.RunRange | scraper_api_service/jobs/utils2.py:181-190 | every id of the range is submitted exactly once, in order; given an outcome function that agrees with the per-id scrape, the table is the fold of their writes |
| Utils2.PlanRun | scraper_api_service/jobs/utils2.py:164-177 | computes `ResolveRange` from the largest stored id |
| Utils2.ScrapeJobs | scraper_api_service/jobs/utils2.py:162-196 | an early answer submits nothing and leaves the table as it was; otherwise the result is "done" whatever the per-id outcomes, every id is submitted once, and the table is the fold; the table invariant is kept |
| Utils.ListingFrom | scraper_api_service/jobs/utils.py:44-57 | at most 3 attempts, and every failure is retried, 404 included; a page is the first good attempt; failing all three reports the third attempt's exception |
| Utils.ListingFirstOk | scraper_api_service/jobs/utils.py:44-57 | the first good attempt within the budget gives the page, whatever failed before |
| Utils.FetchListing | scraper_api_service/jobs/utils.py:44-57 | the loop with `break` computes `ListingFrom` |
| Utils.ResolveRange | scraper_api_service/jobs/utils.py:41-79 | explicit bounds are used only when both are given; a failed lookup reports the exception; a listing without a `tr.job` carrying `data-id` reports "cannot find latest job id"; an unreadable `data-id` raises `ValueError`; with a newest id, the answer is "no new jobs" when (largest stored id or 1093276) + 1 exceeds it and otherwise the range from there to it; an early answer is never "done" |
| Utils.AutoRangeIsTheUnseenIds | scraper_api_service/jobs/utils.py:63-83 | "no new jobs" iff the stored maximum (or 1093276) has reached the newest id; otherwise the run covers exactly the ids above it, up to the newest |
| Utils.AutoRangeSkipsStoredIds | scraper_api_service/jobs/utils.py:70-83 | without explicit bounds the run never requests an id the table already holds |
| Utils.EmptyTableStartsAboveFloor | scraper_api_service/jobs/utils.py:70-79 | an empty table and a newest id of 1093280 give the range 1093277..1093280, four ids |
| Utils.SingleBoundDiscarded | scraper_api_service/jobs/utils.py:41 | a single given bound is thrown away |
| Utils.PostedAtOf | scraper_api_service/jobs/utils.py:128-134 | `None` iff there is no `time[datetime]`; the scrape time iff the value fails to parse; otherwise the source text |
| Utils.LogoOf | scraper_api_service/jobs/utils.py:114-115 | the logo is the `data-src` value as found, or empty; there is no prefixing |
| Utils.ShortDescriptionOf | scraper_api_service/jobs/utils.py:121-122 | the meta content stripped, or empty with no tag; empty iff the content is all whitespace |
| Utils.ApplyUrlOf | scraper_api_service/jobs/utils.py:124-126 | empty with no tag; otherwise the href resolved against `BASE_URL`; it never starts with "/" |
| Utils.RecordOf | scraper_api_service/jobs/utils.py:114-148 | the record holds the id, the given title and company, the `data-src` logo as found, the cleaned description, the stripped meta content, the final response URL, the resolved apply link and the `time` verdict |
| Utils.ExtractJob | scraper_api_service/jobs/utils.py:102-148 | skipped iff title or company is empty after strip; otherwise a missing `content` or `href` attribute raises `KeyError` (`content` first); otherwise the saved record is `RecordOf` the stripped title and company, a valid record for the id |
| Utils.ProcessId | scraper_api_service/jobs/utils.py:86-155 | a request exception is a caught failure; 404, 429 and any other non-200 status skip the id; a 200 gives exactly what extraction gives; a save carries the final URL |
| Utils.RunStoresScrapedRecords | scraper_api_service/jobs/utils.py:83-148 | after a run, an id of the range whose page gave a record holds exactly that record; any other id is as it was before the run |
| Utils.OutcomesSaveOwnId | scraper_api_service/jobs/utils.py:136-148 | every record saved for an id belongs to that id |
| Utils.ProcessJob | scraper_api_service/jobs/utils.py:86-155 | computes `ProcessId`; only a save writes the table, and then only under that id |
| Utils.RunRange | scraper_api_service/jobs/utils.py:83-155 | every id of the range is visited exactly once, in ascending order; given an outcome function that agrees with the per-id processing, the table is the fold of their writes |
| Utils.PlanRun | scraper_api_service/jobs/utils.py:41-79 | computes `ResolveRange` from the largest stored id |
| Utils.ScrapeJobs | scraper_api_service/jobs/utils.py:38-161 | an early answer requests no job page and leaves the table as it was; otherwise "done", every id visited once, and the table is the fold; the table invariant is kept |
| Versions.ListingNotFoundRetriedOnlySequentially | scraper_api_service/jobs/utils.py:45-57 | a 404 then a page: the sequential lookup gets the page; the thread-pool lookup gives up after one request and finds no id |
| Versions.RateLimitedJobRetriedOnlyByPool | scraper_api_service/jobs/utils.py:94-97 | a 429 then a page: the sequential version skips the id; the thread-pool version retries and fetches it |
| Versions.FloorsDiffer | scraper_api_service/jobs/utils.py:70-71 | on an empty table with the same newest id, the thread-pool range starts at 1090001 and covers 3276 more ids than the sequential one, which starts at 1093277 |
| Versions.ZeroLatestTreatedDifferently | scraper_api_service/jobs/utils.py:63-79 | a newest id of 0 is an error for the thread-pool version; for the sequential one, with a non-negative id stored, it means "no new jobs" |

## Left out

- HTTP (`requests.get` with headers and a timeout) is the `Network` oracle. Redirects are reflected only in the final URL of a response.
- `time.sleep` pauses are not modelled. The sequential version pauses 10 s, 30 s on a 429, 0.5 s after a save and 1 s after a failure. `Utils2.FetchPage` only counts its pauses, as a ghost value.
- Logging is not modelled.
- The `ThreadPoolExecutor` and `as_completed` dispatch is a sequential loop in ascending id order. The model does not capture:
  - concurrent requests;
  - completion order as such; `Jobs.AnyOrderSameTable` proves it cannot change the table;
  - `max_workers`.
- BeautifulSoup and `json.loads` are foreign parsers, and the model takes their results as given:
  - the model does not capture which element `find` picks beyond "the first";
  - JSON values of the wrong type (a `null` or non-string `title`, a non-object `hiringOrganization`) are not modelled; their `AttributeError` is left out;
  - a script that decodes to a non-object, or has no text, is modelled only as raising.
- `int()` and `datetime.fromisoformat` are foreign too. Their verdicts are inputs. The parsed datetime value is not modelled: `posted_at` is the source text or the marker `ScrapeTime` for `timezone.now()`.
- Exceptions from the Django ORM are not modelled:
  - `update_or_create` failing;
  - column length limits;
  - `save_job` swallowing errors.
- The `Job.scraped_at` column is not modelled. It is `auto_now_add` (scraper_api_service/jobs/models.py:18), so the database sets it when a record is created and an upsert of an existing record leaves it unchanged.
- The error dictionaries carry `str(e)`. The model keeps the exception as a `Failure` value instead of its message text.
- Python strings may hold lone surrogate code points, which `seq<char>` cannot. Such text is outside the model.
