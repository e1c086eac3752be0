/** The boundary with the job site: HTTP attempts, the landmarks a parsed page
    offers to the scraper, and the URLs the scraper builds.

    HTTP is an oracle: `Network(url, n)` is what the `n`-th request for `url`
    (counting from 0) yields.  HTML and JSON parsing are foreign code, so a
    `Page` is already the result of the `soup.find` / `soup.find_all` /
    `json.loads` calls the scraper makes; every `find` returns the FIRST match. */
module Web {
  import opened Wrappers
  import opened Text

  const BaseUrl: string := "https://remoteok.com"

  /** The listing page whose first job row carries the newest id. */
  const ListingUrl: string := BaseUrl + "?order_by=date"

  const JobUrlPrefix: string := BaseUrl + "/remote-jobs/"

  // ---------------------------------------------------------------------------
  // Parsed pages

  /** An attribute whose text Python's `int()` reads; `asInt` is its verdict. */
  datatype IdAttr = IdAttr(text: string, asInt: Option<int>)

  /** An ISO date text; `isIso` is the verdict of `datetime.fromisoformat`. */
  datatype DateAttr = DateAttr(text: string, isIso: bool)

  /** The first `<tr class="job">` of a page, with its `data-id` attribute. */
  datatype JobRow = JobRow(dataId: Option<IdAttr>)

  /** A decoded JSON-LD object; each field is `None` when its key is absent.
      `orgName` and `logoUrl` are `hiringOrganization.name` and
      `hiringOrganization.logo.url`. */
  datatype LdObject = LdObject(
    ldType: Option<string>,
    title: Option<string>,
    orgName: Option<string>,
    logoUrl: Option<string>,
    description: Option<string>,
    datePosted: Option<DateAttr>)

  /** An `application/ld+json` script after `json.loads(script.string)`. */
  datatype LdScript =
    | LdJson(obj: LdObject)  // decodes to a JSON object
    | LdOtherJson            // decodes, but not to an object (`.get` raises AttributeError)
    | LdInvalidJson          // JSONDecodeError
    | LdNoText               // `.string` is None (`json.loads` raises TypeError)

  /** A found element together with the one attribute the scraper reads from it. */
  datatype Element = Element(attr: Option<string>)

  /** The first `<time>` element, with its `datetime` attribute. */
  datatype TimeTag = TimeTag(datetime: Option<DateAttr>)

  datatype Page = Page(
    jobRow: Option<JobRow>,           // tr.job
    ldScripts: seq<LdScript>,         // every script[type=application/ld+json], in page order
    titleText: Option<string>,        // text of h2[itemprop=title]
    companyText: Option<string>,      // text of h3[itemprop=name]
    logoImage: Option<Element>,       // img[itemprop=image], attribute data-src
    markdownText: Option<string>,     // div.markdown, get_text(strip=True, separator="\n")
    metaDescription: Option<Element>, // meta[name=description], attribute content
    applyLink: Option<Element>,       // a.action-apply, attribute href
    timeTag: Option<TimeTag>)         // time

  /** What the first `<tr class="job">` of the listing says about the newest id. */
  datatype LatestOnPage =
    | IdFound(id: int)
    | IdMissing               // no such row, or the row has no `data-id`
    | IdUnreadable(text: string)  // `int(row["data-id"])` raises ValueError

  /** `tag = soup.find("tr", {"class": "job"})`, then `int(tag["data-id"])` if
      the tag exists and has the attribute.  Only the FIRST job row counts. */
  function LatestIdOnPage(page: Page): (r: LatestOnPage)
    ensures r.IdFound? ==> page.jobRow.Some? && page.jobRow.value.dataId.Some? && page.jobRow.value.dataId.value.asInt == Some(r.id)
    ensures page.jobRow.Some? && page.jobRow.value.dataId.Some? && page.jobRow.value.dataId.value.asInt.Some? ==> r.IdFound?
    ensures r.IdMissing? <==> page.jobRow.None? || page.jobRow.value.dataId.None?
    ensures r.IdUnreadable? ==>
      && page.jobRow.Some? && page.jobRow.value.dataId.Some?
      && page.jobRow.value.dataId.value.asInt.None?
      && r.text == page.jobRow.value.dataId.value.text
  {
    match page.jobRow
    case Some(JobRow(Some(attr))) =>
      if attr.asInt.Some? then IdFound(attr.asInt.value) else IdUnreadable(attr.text)
    case _ => IdMissing
  }

  // ---------------------------------------------------------------------------
  // HTTP

  /** A response after redirects were followed; `url` is the final URL. */
  datatype Response = Response(status: int, url: string, page: Page)

  datatype Attempt =
    | Received(response: Response)
    | RequestFailed(detail: string)  // connection error, timeout, too many redirects, ...

  type Network = (string, nat) -> Attempt

  /** `Response.raise_for_status()` raises `HTTPError` exactly for 4xx and 5xx. */
  predicate RaisesForStatus(status: int) {
    400 <= status < 600
  }

  /** The exceptions the scraper catches and reports. */
  datatype Failure =
    | HttpError(status: int)
    | RequestError(detail: string)
    | ValueError(text: string)
    | KeyError(key: string)
    | TypeError
    | AttributeError

  /** An attempt that `requests.get(...)` followed by `raise_for_status()` turns into a response. */
  predicate IsOk(a: Attempt) {
    a.Received? && !RaisesForStatus(a.response.status)
  }

  /** The exception a failed attempt raises: `HTTPError` carrying the status
      for a 4xx/5xx response, the request exception otherwise. */
  function AttemptFailure(a: Attempt): (f: Failure)
    requires !IsOk(a)
    ensures a.Received? ==> f == HttpError(a.response.status) && RaisesForStatus(f.status)
    ensures a.RequestFailed? ==> f == RequestError(a.detail)
  {
    match a
    case Received(resp) => HttpError(resp.status)
    case RequestFailed(detail) => RequestError(detail)
  }

  /** Every attempt is exactly one of: a response that passes
      `raise_for_status()` (any status outside 400..599), an `HTTPError` with a
      4xx/5xx status, or a request exception. */
  lemma AttemptSplit(a: Attempt)
    ensures IsOk(a) <==> a.Received? && (a.response.status < 400 || a.response.status >= 600)
    ensures !IsOk(a) ==> (AttemptFailure(a).HttpError? <==> a.Received?)
    ensures !IsOk(a) && a.Received? ==> 400 <= AttemptFailure(a).status < 600
  {
  }

  // ---------------------------------------------------------------------------
  // Job URLs: `f"{BASE_URL}/remote-jobs/{job_id}"`

  predicate IsDigit(c: char) {
    '0' <= c <= '9'
  }

  predicate AllDigits(s: string) {
    forall i :: 0 <= i < |s| ==> IsDigit(s[i])
  }

  function DigitChar(d: nat): (c: char)
    requires d < 10
    ensures IsDigit(c) && c as int - '0' as int == d
  {
    ('0' as int + d) as char
  }

  /** Digits as `str()` writes a non-negative integer: at least one, and no
      leading zero unless the numeral is "0" itself. */
  predicate CanonicalDigits(s: string) {
    |s| >= 1 && AllDigits(s) && (s[0] == '0' ==> |s| == 1)
  }

  /** A numeral as `str()` writes an integer: canonical digits, or a minus
      sign before canonical digits other than "0". */
  predicate CanonicalDecimal(s: string) {
    CanonicalDigits(s) || (|s| >= 2 && s[0] == '-' && CanonicalDigits(s[1..]) && s[1] != '0')
  }

  /** The decimal digits of `n`, most significant first. */
  function NatDigits(n: nat): (r: string)
    ensures CanonicalDigits(r)
    ensures r[0] == '0' <==> n == 0
    decreases n
  {
    if n < 10 then [DigitChar(n)] else NatDigits(n / 10) + [DigitChar(n % 10)]
  }

  /** Python's `str(n)` for an integer. */
  function DecimalString(n: int): (r: string)
    ensures CanonicalDecimal(r)
    ensures r[0] == '-' <==> n < 0
  {
    if n < 0 then "-" + NatDigits(-n) else NatDigits(n)
  }

  function DigitsValue(s: string): nat
    requires AllDigits(s)
  {
    if s == [] then 0 else DigitsValue(s[..|s| - 1]) * 10 + (s[|s| - 1] as int - '0' as int)
  }

  /** Reads an optional minus sign followed by one or more digits. */
  function ParseDecimal(s: string): Option<int> {
    if |s| >= 2 && s[0] == '-' && AllDigits(s[1..]) then Some(-(DigitsValue(s[1..]) as int))
    else if |s| >= 1 && AllDigits(s) then Some(DigitsValue(s))
    else None
  }

  lemma {:induction false} NatDigitsValue(n: nat)
    ensures DigitsValue(NatDigits(n)) == n
    decreases n
  {
    if n >= 10 {
      NatDigitsValue(n / 10);
      var d := NatDigits(n / 10) + [DigitChar(n % 10)];
      assert d[..|d| - 1] == NatDigits(n / 10);
    }
  }

  lemma DecimalRoundTrip(n: int)
    ensures ParseDecimal(DecimalString(n)) == Some(n)
  {
    if n < 0 {
      NatDigitsValue(-n);
      assert DecimalString(n)[1..] == NatDigits(-n);
    } else {
      NatDigitsValue(n);
    }
  }

  /** A digit string without a leading zero has a positive value. */
  lemma {:induction false} LeadingDigitPositive(s: string)
    requires |s| >= 1 && AllDigits(s) && s[0] != '0'
    ensures DigitsValue(s) > 0
    decreases |s|
  {
    if |s| > 1 {
      LeadingDigitPositive(s[..|s| - 1]);
    }
  }

  /** Canonical digits are the only ones `str()` writes for their value. */
  lemma {:induction false} CanonicalDigitsUnique(s: string)
    requires CanonicalDigits(s)
    ensures s == NatDigits(DigitsValue(s))
    decreases |s|
  {
    var m := DigitsValue(s);
    if |s| == 1 {
      assert s[..|s| - 1] == [] && IsDigit(s[0]);
      assert m == DigitsValue(s[..|s| - 1]) * 10 + (s[|s| - 1] as int - '0' as int);
      assert DigitChar(m) == s[0];
    } else {
      var front := s[..|s| - 1];
      var d := s[|s| - 1] as int - '0' as int;
      assert front[0] == s[0];
      LeadingDigitPositive(front);
      CanonicalDigitsUnique(front);
      assert m == DigitsValue(front) * 10 + d;
      assert m / 10 == DigitsValue(front) && m % 10 == d;
      assert DigitChar(d) == s[|s| - 1];
      assert s == front + [s[|s| - 1]];
    }
  }

  /** `str()` is the only canonical numeral for an integer: a canonical string
      that reads back as `n` is `DecimalString(n)`. */
  lemma DecimalStringUnique(s: string, n: int)
    requires CanonicalDecimal(s) && ParseDecimal(s) == Some(n)
    ensures s == DecimalString(n)
  {
    if CanonicalDigits(s) {
      CanonicalDigitsUnique(s);
    } else {
      var d := s[1..];
      LeadingDigitPositive(d);
      CanonicalDigitsUnique(d);
      assert s == "-" + d;
    }
  }

  /** The canonical page of job `id`, `BASE_URL/remote-jobs/` and `str(id)`;
      the id can be read back from it. */
  function JobUrl(id: int): (u: string)
    ensures u == JobUrlPrefix + DecimalString(id)
    ensures StartsWith(u, JobUrlPrefix)
    ensures IdFromJobUrl(u) == Some(id)
  {
    var u := JobUrlPrefix + DecimalString(id);
    assert u[..|JobUrlPrefix|] == JobUrlPrefix;
    assert u[|JobUrlPrefix|..] == DecimalString(id);
    DecimalRoundTrip(id);
    u
  }

  /** Reads the id back out of a canonical job URL. */
  function IdFromJobUrl(url: string): Option<int> {
    if StartsWith(url, JobUrlPrefix) then ParseDecimal(url[|JobUrlPrefix|..]) else None
  }

  /** Two different jobs never share a canonical URL. */
  lemma JobUrlInjective(a: int, b: int)
    requires JobUrl(a) == JobUrl(b)
    ensures a == b
  {
    assert IdFromJobUrl(JobUrl(a)) == Some(a);
  }

  // ---------------------------------------------------------------------------
  // Apply links: `BASE_URL + href if href.startswith("/") else href`

  function ResolveHref(href: string): (r: string)
    ensures StartsWith(href, "/") ==> StartsWith(r, BaseUrl) && r[|BaseUrl|..] == href
    ensures !StartsWith(href, "/") ==> r == href
    ensures !StartsWith(r, "/")
  {
    if StartsWith(href, "/") then
      assert (BaseUrl + href)[0] == 'h';
      BaseUrl + href
    else href
  }

  /** Resolving an already resolved link changes nothing. */
  lemma ResolveHrefIdempotent(href: string)
    ensures ResolveHref(ResolveHref(href)) == ResolveHref(href)
  {
  }
}
