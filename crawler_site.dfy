/** `crawl_site`: the loop over the site's paths that skips pages not fetched
    with status 200, stores each other page's record under its path, folds its
    links and contact details into site-wide sets, appends its text to one
    running document, and finally turns every set into a sorted list. */
module Crawler {
  import opened Results
  import opened Ordering
  import opened CrawlerConfig
  import opened TextExtractor
  import opened LinkClassifier
  import opened ContactExtractor
  import opened StructuredData

  const OK_STATUS: int := 200

  /** The status `fetch_page` reports when the request itself failed. */
  const FETCH_ERROR_STATUS: int := 0

  const PREVIEW_LENGTH: nat := 1000

  /** The keys of `all_links`: every bucket except `other`. */
  const AGGREGATED: set<Category> := {Internal, External, Mailto, Tel}

  /** What `fetch_page` returned for one path. */
  datatype Response = Response(body: string, status: int)

  /** The `page_data` dictionary stored for a page. */
  datatype PageRecord = PageRecord(
    url: string,
    status: int,
    contentLength: nat,
    textPreview: string,
    metadata: map<string, string>,
    links: map<Category, seq<string>>,
    contact: ContactInfo,
    jsonLd: seq<Json>)

  /** `crawl_results` while the loop runs, its unions still sets. */
  datatype Progress = Progress(
    pages: map<string, PageRecord>,
    allLinks: map<Category, set<string>>,
    emails: set<string>,
    phones: set<string>,
    social: map<string, set<string>>,
    allText: string)

  /** `crawl_results` as returned, every union turned into a sorted list. */
  datatype CrawlReport = CrawlReport(
    timestamp: string,
    baseUrl: string,
    pages: map<string, PageRecord>,
    allLinks: map<Category, seq<string>>,
    emails: seq<string>,
    phones: seq<string>,
    social: map<string, seq<string>>,
    allText: string)

  function ElementsOf(xs: seq<string>): set<string> {
    set x | x in xs
  }

  /** `crawl_results` before the first page. */
  function Start(): Progress {
    Progress(map[], map c | c in AGGREGATED :: {}, {}, {}, map[], "")
  }

  /** `text[:1000] if len(text) > 1000 else text`. */
  function TextPreview(text: string): (preview: string)
    ensures |preview| == if |text| > PREVIEW_LENGTH then PREVIEW_LENGTH else |text|
    ensures preview == text[..|preview|]
  {
    if |text| > PREVIEW_LENGTH then text[..PREVIEW_LENGTH] else text
  }

  /** What one page adds to `all_text`. */
  function PageSection(url: string, text: string): string {
    "\n\n--- Page: " + url + " ---\n\n" + text + "\n"
  }

  /** The record of a page fetched with status 200, with its cleaned text;
      fails where `extract_contact_info` raises. */
  function Page(url: string, resp: Response, env: Collaborators): (r: Result<(PageRecord, string), ContactError>)
    ensures var doc := env.parse(resp.body);
      var contact := ExtractContactInfo(ExtractText(doc.text), env.findAll, env.findGroups);
      && (r.Failure? <==> contact.Failure?)
      && (r.Failure? ==> r.error == contact.error)
      && (r.Success? ==> var (page, text) := r.value;
            && page.url == url && page.status == resp.status && page.contentLength == |resp.body|
            && text == ExtractText(doc.text)
            && page.textPreview == TextPreview(text)
            && page.metadata == doc.metadata
            && page.links == Links(doc.hrefs, url, env.urljoin)
            && page.links.Keys == ALL_CATEGORIES
            && page.contact == contact.value
            && page.contact.social.Keys <= PLATFORMS
            && page.jsonLd == Parsed(doc.ldJsonScripts, env.loads))
  {
    var doc := env.parse(resp.body);
    var text := ExtractText(doc.text);
    var links := Links(doc.hrefs, url, env.urljoin);
    match ExtractContactInfo(text, env.findAll, env.findGroups)
    case Failure(e) => Failure(e)
    case Success(contact) =>
      ContactInfoShape(text, env.findAll, env.findGroups);
      Success((PageRecord(url, resp.status, |resp.body|, TextPreview(text), doc.metadata, links, contact,
                          Parsed(doc.ldJsonScripts, env.loads)), text))
  }

  /** `all_links[t].update(links[t])` for each link type `t` the page has
      that `all_links` has too. */
  function MergeLinks(allLinks: map<Category, set<string>>, links: map<Category, seq<string>>)
    : map<Category, set<string>>
  {
    map c | c in allLinks :: allLinks[c] + (if c in links then ElementsOf(links[c]) else {})
  }

  /** The social loop: a platform new to the union starts as an empty set,
      then every platform's handles are added. */
  function MergeSocial(social: map<string, set<string>>, handles: map<string, seq<string>>)
    : map<string, set<string>>
  {
    map s | s in social.Keys + handles.Keys ::
      (if s in social then social[s] else {}) + (if s in handles then ElementsOf(handles[s]) else {})
  }

  /** Storing the record `page` of a page under its path, folding its links
      and contact details into the site-wide sets and appending its cleaned
      text `text` to the running document. */
  function AddPage(p: Progress, subpath: string, page: PageRecord, text: string): Progress {
    Progress(
      p.pages[subpath := page],
      MergeLinks(p.allLinks, page.links),
      p.emails + ElementsOf(page.contact.emails),
      p.phones + ElementsOf(page.contact.phones),
      MergeSocial(p.social, page.contact.social),
      p.allText + PageSection(page.url, text))
  }

  /** One turn of the loop, for `subpath` and what fetching it returned. */
  function Visit(p: Progress, subpath: string, resp: Response, env: Collaborators): (r: Result<Progress, ContactError>)
    ensures resp.status != OK_STATUS ==> r == Success(p)
    ensures resp.status == OK_STATUS ==>
      var url := env.urljoin(BASE_URL, subpath);
      var page := Page(url, resp, env);
      && (r.Failure? <==> page.Failure?)
      && (r.Failure? ==> r.error == page.error)
      && (r.Success? ==>
            && r.value.pages == p.pages[subpath := page.value.0]
            && r.value.allText == p.allText + PageSection(url, page.value.1))
  {
    if resp.status == FETCH_ERROR_STATUS || resp.status != OK_STATUS then Success(p)
    else
      var url := env.urljoin(BASE_URL, subpath);
      match Page(url, resp, env)
      case Failure(e) => Failure(e)
      case Success((page, text)) => Success(AddPage(p, subpath, page, text))
  }

  /** The state after the loop has visited `subpaths`, fetched as `responses`;
      an exception from a page ends the crawl. */
  function Crawled(subpaths: seq<string>, responses: seq<Response>, env: Collaborators): Result<Progress, ContactError>
    requires |subpaths| == |responses|
  {
    if |subpaths| == 0 then Success(Start())
    else
      var n := |subpaths| - 1;
      match Crawled(subpaths[..n], responses[..n], env)
      case Failure(e) => Failure(e)
      case Success(p) => Visit(p, subpaths[n], responses[n], env)
  }

  /** The end of the crawl: every set becomes a sorted list. */
  function Finalize(p: Progress, timestamp: string): CrawlReport {
    CrawlReport(
      timestamp,
      BASE_URL,
      p.pages,
      map c | c in p.allLinks :: SortedOf(p.allLinks[c]),
      SortedOf(p.emails),
      SortedOf(p.phones),
      map s | s in p.social :: SortedOf(p.social[s]),
      p.allText)
  }

  /** What `crawl_site()` returns, or the exception it raises, given what each
      of the site's paths fetched as, in order, and the time it started. */
  function CrawlResult(responses: seq<Response>, env: Collaborators, timestamp: string): Result<CrawlReport, ContactError>
    requires |responses| == |SUBPATHS|
  {
    match Crawled(SUBPATHS, responses, env)
    case Failure(e) => Failure(e)
    case Success(p) => Success(Finalize(p, timestamp))
  }

  /** `for email in contact['emails']: all_contact['emails'].add(email)`. */
  method AddAll(s: set<string>, xs: seq<string>) returns (r: set<string>)
    ensures r == s + ElementsOf(xs)
  {
    r := s;
    for j := 0 to |xs|
      invariant r == s + ElementsOf(xs[..j])
    {
      assert xs[..j + 1] == xs[..j] + [xs[j]];
      r := r + {xs[j]};
    }
    assert xs[..|xs|] == xs;
  }

  lemma CrawledStep(subpaths: seq<string>, responses: seq<Response>, env: Collaborators, i: nat)
    requires |subpaths| == |responses| && i < |subpaths|
    ensures Crawled(subpaths[..i], responses[..i], env).Failure? ==>
      Crawled(subpaths[..i + 1], responses[..i + 1], env) == Crawled(subpaths[..i], responses[..i], env)
    ensures Crawled(subpaths[..i], responses[..i], env).Success? ==>
      Crawled(subpaths[..i + 1], responses[..i + 1], env) ==
      Visit(Crawled(subpaths[..i], responses[..i], env).value, subpaths[i], responses[i], env)
  {
    assert subpaths[..i + 1][..i] == subpaths[..i];
    assert responses[..i + 1][..i] == responses[..i];
  }

  /** Once a page has raised, the crawl has raised. */
  lemma {:induction false} FailureSticks(subpaths: seq<string>, responses: seq<Response>, env: Collaborators, i: nat)
    requires |subpaths| == |responses| && i <= |subpaths|
    requires Crawled(subpaths[..i], responses[..i], env).Failure?
    ensures Crawled(subpaths, responses, env) == Crawled(subpaths[..i], responses[..i], env)
  {
    var n := |subpaths| - 1;
    if i <= n {
      assert subpaths[..n][..i] == subpaths[..i];
      assert responses[..n][..i] == responses[..i];
      FailureSticks(subpaths[..n], responses[..n], env, i);
      var previous := Crawled(subpaths[..n], responses[..n], env);
      assert previous.Failure?;
      assert Crawled(subpaths, responses, env) == Failure(previous.error);
    } else {
      assert subpaths[..i] == subpaths && responses[..i] == responses;
    }
  }

  /** What `extract_contact_info` gives for the cleaned text of a fetched body. */
  function ContactOf(resp: Response, env: Collaborators): Result<ContactInfo, ContactError> {
    ExtractContactInfo(ExtractText(env.parse(resp.body).text), env.findAll, env.findGroups)
  }

  /** Fetching `resp` with status 200 makes `extract_contact_info` raise. */
  predicate Raises(resp: Response, env: Collaborators) {
    resp.status == OK_STATUS && ContactOf(resp, env).Failure?
  }

  function Raising(env: Collaborators): Response -> bool {
    resp => Raises(resp, env)
  }

  /** The index of the first element of `xs` that satisfies `p`, if any. */
  function FirstWhere<T>(xs: seq<T>, p: T -> bool): (r: Option<nat>)
    ensures r.Some? ==> r.value < |xs| && p(xs[r.value]) && forall j :: 0 <= j < r.value ==> !p(xs[j])
    ensures r.None? ==> forall j :: 0 <= j < |xs| ==> !p(xs[j])
  {
    if |xs| == 0 then None
    else
      var n := |xs| - 1;
      assert forall j :: 0 <= j < n ==> xs[..n][j] == xs[j];
      match FirstWhere(xs[..n], p)
      case Some(i) => Some(i)
      case None => if p(xs[n]) then Some(n) else None
  }

  /** A visit raises exactly when its page raises, with that page's error. */
  lemma VisitRaises(p: Progress, subpath: string, resp: Response, env: Collaborators)
    ensures Visit(p, subpath, resp, env).Failure? <==> Raising(env)(resp)
    ensures Raising(env)(resp) ==> Visit(p, subpath, resp, env).error == ContactOf(resp, env).error
  {
  }

  /** The loop raises exactly when some page fetched with status 200 makes
      `extract_contact_info` raise, and then with the error of the first one. */
  lemma {:induction false} CrawledFails(subpaths: seq<string>, responses: seq<Response>, env: Collaborators)
    requires |subpaths| == |responses|
    ensures var first := FirstWhere(responses, Raising(env));
      && (Crawled(subpaths, responses, env).Failure? <==> first.Some?)
      && (first.Some? ==> Crawled(subpaths, responses, env).error == ContactOf(responses[first.value], env).error)
  {
    if |subpaths| > 0 {
      var n := |subpaths| - 1;
      var before := responses[..n];
      CrawledFails(subpaths[..n], before, env);
      var previous := Crawled(subpaths[..n], before, env);
      var first := FirstWhere(before, Raising(env));
      if previous.Failure? {
        assert Crawled(subpaths, responses, env) == previous;
        assert before[first.value] == responses[first.value];
      } else {
        assert Crawled(subpaths, responses, env) == Visit(previous.value, subpaths[n], responses[n], env);
        VisitRaises(previous.value, subpaths[n], responses[n], env);
      }
    }
  }

  /** `crawl_site()` raises exactly when some page fetched with status 200 makes
      `extract_contact_info` raise, and it raises the first such page's error. */
  lemma CrawlFails(responses: seq<Response>, env: Collaborators, timestamp: string)
    requires |responses| == |SUBPATHS|
    ensures CrawlResult(responses, env, timestamp).Failure? <==>
      exists i :: 0 <= i < |responses| && Raises(responses[i], env)
    ensures CrawlResult(responses, env, timestamp).Failure? ==>
      exists i :: 0 <= i < |responses| && Raises(responses[i], env)
        && (forall j :: 0 <= j < i ==> !Raises(responses[j], env))
        && CrawlResult(responses, env, timestamp).error == ContactOf(responses[i], env).error
  {
    CrawledFails(SUBPATHS, responses, env);
    var first := FirstWhere(responses, Raising(env));
    if first.Some? {
      var i := first.value;
      assert Raising(env)(responses[i]);
      forall j | 0 <= j < i ensures !Raises(responses[j], env) {
        assert !Raising(env)(responses[j]);
      }
    } else {
      forall i | 0 <= i < |responses| ensures !Raises(responses[i], env) {
        assert !Raising(env)(responses[i]);
      }
    }
  }

  /** The record stored for `subpath` fetched as `resp`: none unless the status
      is 200 and the page's record could be built. */
  function StoredRecord(subpath: string, resp: Response, env: Collaborators): Option<PageRecord> {
    if resp.status != OK_STATUS then None
    else
      match Page(env.urljoin(BASE_URL, subpath), resp, env)
      case Success((page, _)) => Some(page)
      case Failure(_) => None
  }

  function Recorder(env: Collaborators): (string, Response) -> Option<PageRecord> {
    (subpath, resp) => StoredRecord(subpath, resp, env)
  }

  /** The record of each path, in order, as `record` gives it. */
  function Records(subpaths: seq<string>, responses: seq<Response>, record: (string, Response) -> Option<PageRecord>)
    : (records: seq<Option<PageRecord>>)
    requires |subpaths| == |responses|
    ensures |records| == |subpaths|
  {
    if |subpaths| == 0 then []
    else
      var n := |subpaths| - 1;
      Records(subpaths[..n], responses[..n], record) + [record(subpaths[n], responses[n])]
  }

  lemma {:induction false} RecordsAt(subpaths: seq<string>, responses: seq<Response>,
                                     record: (string, Response) -> Option<PageRecord>, i: nat)
    requires |subpaths| == |responses| && i < |subpaths|
    ensures Records(subpaths, responses, record)[i] == record(subpaths[i], responses[i])
  {
    var n := |subpaths| - 1;
    if i < n {
      RecordsAt(subpaths[..n], responses[..n], record, i);
      assert subpaths[..n][i] == subpaths[i] && responses[..n][i] == responses[i];
    }
  }

  /** `pages` holds only keys from `subpaths`, and holds `records[i]` under
      `subpaths[i]` when there is one and nothing otherwise. */
  ghost predicate StoredAs(pages: map<string, PageRecord>, subpaths: seq<string>, records: seq<Option<PageRecord>>)
    requires |subpaths| == |records|
  {
    && (forall k :: k in pages ==> k in subpaths)
    && (forall i :: 0 <= i < |subpaths| ==> (subpaths[i] in pages <==> records[i].Some?))
    && (forall i :: 0 <= i < |subpaths| && records[i].Some? ==> pages[subpaths[i]] == records[i].value)
  }

  /** One more path, not among the earlier ones, with its record stored or not. */
  lemma StoredStep(pages: map<string, PageRecord>, subpaths: seq<string>, records: seq<Option<PageRecord>>,
                   subpath: string, record: Option<PageRecord>, after: map<string, PageRecord>)
    requires |subpaths| == |records| && subpath !in subpaths
    requires StoredAs(pages, subpaths, records)
    requires record.None? ==> after == pages
    requires record.Some? ==> after == pages[subpath := record.value]
    ensures StoredAs(after, subpaths + [subpath], records + [record])
  {
    var paths, stored := subpaths + [subpath], records + [record];
    var n := |subpaths|;
    assert forall i :: 0 <= i < n ==> paths[i] == subpaths[i] && stored[i] == records[i];
    assert subpath !in pages;
    forall k | k in after ensures k in paths {
      if k != subpath {
        var i :| 0 <= i < n && subpaths[i] == k;
        assert paths[i] == k;
      }
    }
    forall i | 0 <= i < |paths|
      ensures paths[i] in after <==> stored[i].Some?
      ensures stored[i].Some? ==> after[paths[i]] == stored[i].value
    {
      if i < n {
        assert paths[i] == subpaths[i] != subpath;
      }
    }
  }

  /** A successful visit stores the page's record under its path when it was
      fetched with status 200, and changes no stored page otherwise. */
  lemma VisitStores(p: Progress, subpath: string, resp: Response, env: Collaborators)
    requires Visit(p, subpath, resp, env).Success?
    ensures var record := Recorder(env)(subpath, resp);
      && (record.None? ==> Visit(p, subpath, resp, env).value.pages == p.pages)
      && (record.Some? ==> Visit(p, subpath, resp, env).value.pages == p.pages[subpath := record.value])
  {
  }

  /** Without repeats, the paths before the last have none either, and the
      last is not among them. */
  lemma DistinctPrefix(subpaths: seq<string>)
    requires |subpaths| > 0
    requires forall i, j :: 0 <= i < j < |subpaths| ==> subpaths[i] != subpaths[j]
    ensures var n := |subpaths| - 1;
      && subpaths == subpaths[..n] + [subpaths[n]]
      && subpaths[n] !in subpaths[..n]
      && forall i, j :: 0 <= i < j < n ==> subpaths[..n][i] != subpaths[..n][j]
  {
    var n := |subpaths| - 1;
    assert forall j :: 0 <= j < n ==> subpaths[..n][j] == subpaths[j];
  }

  /** Over paths without repeats, the loop stores exactly the records of the
      pages fetched with status 200, each under its own path. */
  lemma {:induction false} CrawledPages(subpaths: seq<string>, responses: seq<Response>, env: Collaborators)
    requires |subpaths| == |responses|
    requires forall i, j :: 0 <= i < j < |subpaths| ==> subpaths[i] != subpaths[j]
    requires Crawled(subpaths, responses, env).Success?
    ensures StoredAs(Crawled(subpaths, responses, env).value.pages, subpaths, Records(subpaths, responses, Recorder(env)))
  {
    if |subpaths| > 0 {
      var n := |subpaths| - 1;
      var paths, before := subpaths[..n], responses[..n];
      DistinctPrefix(subpaths);
      var previous := Crawled(paths, before, env);
      assert previous.Success?;
      CrawledPages(paths, before, env);
      var r := Visit(previous.value, subpaths[n], responses[n], env);
      assert Crawled(subpaths, responses, env) == r;
      VisitStores(previous.value, subpaths[n], responses[n], env);
      StoredStep(previous.value.pages, paths, Records(paths, before, Recorder(env)), subpaths[n],
                 Recorder(env)(subpaths[n], responses[n]), r.value.pages);
    }
  }

  /** The report's pages, when `crawl_site()` returns: a site path's record is
      stored exactly when it was fetched with status 200, and it is that page's
      record; no other key is stored. */
  lemma CrawlReportPages(responses: seq<Response>, env: Collaborators, timestamp: string)
    requires |responses| == |SUBPATHS|
    requires CrawlResult(responses, env, timestamp).Success?
    ensures var pages := CrawlResult(responses, env, timestamp).value.pages;
      && (forall k :: k in pages ==> k in SUBPATHS)
      && (forall i :: 0 <= i < |SUBPATHS| ==> (SUBPATHS[i] in pages <==> responses[i].status == OK_STATUS))
      && (forall i :: 0 <= i < |SUBPATHS| && responses[i].status == OK_STATUS ==>
            var page := Page(env.urljoin(BASE_URL, SUBPATHS[i]), responses[i], env);
            page.Success? && pages[SUBPATHS[i]] == page.value.0)
  {
    SubpathsDistinct();
    CrawledPages(SUBPATHS, responses, env);
    CrawledFails(SUBPATHS, responses, env);
    var pages := Crawled(SUBPATHS, responses, env).value.pages;
    var records := Records(SUBPATHS, responses, Recorder(env));
    forall i | 0 <= i < |SUBPATHS|
      ensures SUBPATHS[i] in pages <==> responses[i].status == OK_STATUS
      ensures responses[i].status == OK_STATUS ==>
        var page := Page(env.urljoin(BASE_URL, SUBPATHS[i]), responses[i], env);
        page.Success? && pages[SUBPATHS[i]] == page.value.0
    {
      RecordsAt(SUBPATHS, responses, Recorder(env), i);
      assert !Raising(env)(responses[i]);
      assert records[i] == StoredRecord(SUBPATHS[i], responses[i], env);
    }
  }

  /** What a path adds to the running document: the section of its cleaned
      text when it was fetched with status 200, nothing otherwise. */
  function SectionOf(subpath: string, resp: Response, env: Collaborators): string {
    if resp.status != OK_STATUS then ""
    else PageSection(env.urljoin(BASE_URL, subpath), ExtractText(env.parse(resp.body).text))
  }

  /** The running document after the given paths: their sections, in order. */
  function Sections(subpaths: seq<string>, responses: seq<Response>, env: Collaborators): string
    requires |subpaths| == |responses|
  {
    if |subpaths| == 0 then ""
    else
      var n := |subpaths| - 1;
      Sections(subpaths[..n], responses[..n], env) + SectionOf(subpaths[n], responses[n], env)
  }

  /** A successful visit appends exactly the path's section to the document. */
  lemma VisitText(p: Progress, subpath: string, resp: Response, env: Collaborators)
    requires Visit(p, subpath, resp, env).Success?
    ensures Visit(p, subpath, resp, env).value.allText == p.allText + SectionOf(subpath, resp, env)
  {
  }

  /** When the loop does not raise, its document is the sections of the paths
      fetched with status 200, in the order of the paths. */
  lemma {:induction false} CrawledText(subpaths: seq<string>, responses: seq<Response>, env: Collaborators)
    requires |subpaths| == |responses|
    requires Crawled(subpaths, responses, env).Success?
    ensures Crawled(subpaths, responses, env).value.allText == Sections(subpaths, responses, env)
  {
    if |subpaths| > 0 {
      var n := |subpaths| - 1;
      var previous := Crawled(subpaths[..n], responses[..n], env);
      assert previous.Success?;
      CrawledText(subpaths[..n], responses[..n], env);
      assert Crawled(subpaths, responses, env) == Visit(previous.value, subpaths[n], responses[n], env);
      VisitText(previous.value, subpaths[n], responses[n], env);
    }
  }

  /** The report's `all_text` is the sections of the site paths fetched with
      status 200, in the order of the paths. */
  lemma CrawlReportText(responses: seq<Response>, env: Collaborators, timestamp: string)
    requires |responses| == |SUBPATHS|
    requires CrawlResult(responses, env, timestamp).Success?
    ensures CrawlResult(responses, env, timestamp).value.allText == Sections(SUBPATHS, responses, env)
  {
    CrawledText(SUBPATHS, responses, env);
  }

  /** `crawl_site()`: the loop itself, with the state held in local variables. */
  method CrawlSite(responses: seq<Response>, env: Collaborators, timestamp: string)
    returns (r: Result<CrawlReport, ContactError>)
    requires |responses| == |SUBPATHS|
    ensures r == CrawlResult(responses, env, timestamp)
  {
    var pages: map<string, PageRecord> := map[];
    var allLinks: map<Category, set<string>> := map c | c in AGGREGATED :: {};
    var emails: set<string> := {};
    var phones: set<string> := {};
    var social: map<string, set<string>> := map[];
    var allText := "";
    for i := 0 to |SUBPATHS|
      invariant Crawled(SUBPATHS[..i], responses[..i], env) ==
        Success(Progress(pages, allLinks, emails, phones, social, allText))
    {
      CrawledStep(SUBPATHS, responses, env, i);
      var subpath := SUBPATHS[i];
      var url := env.urljoin(BASE_URL, subpath);
      var resp := responses[i];
      if resp.status == FETCH_ERROR_STATUS {
        continue;
      }
      if resp.status != OK_STATUS {
        continue;
      }
      var doc := env.parse(resp.body);
      var text := ExtractText(doc.text);
      var metadata := doc.metadata;
      var links := ExtractLinks(doc.hrefs, url, env.urljoin);
      var contact := ExtractContactInfo(text, env.findAll, env.findGroups);
      if contact.Failure? {
        FailureSticks(SUBPATHS, responses, env, i + 1);
        return Failure(contact.error);
      }
      var jsonLd := ExtractJsonLd(doc.ldJsonScripts, env.loads);
      var page := PageRecord(url, resp.status, |resp.body|, TextPreview(text), metadata, links, contact.value, jsonLd);
      pages := pages[subpath := page];
      allLinks := MergeLinks(allLinks, links);
      emails := AddAll(emails, contact.value.emails);
      phones := AddAll(phones, contact.value.phones);
      social := MergeSocial(social, contact.value.social);
      allText := allText + PageSection(url, text);
    }
    assert SUBPATHS[..|SUBPATHS|] == SUBPATHS && responses[..|responses|] == responses;
    r := Success(Finalize(Progress(pages, allLinks, emails, phones, social, allText), timestamp));
  }

  /** A field of the page records that feeds one of the site-wide unions. */
  datatype Field = LinkField(category: Category) | EmailField | PhoneField | SocialField(platform: string)

  /** What a page contributes to the union for `f`. */
  function Contributed(page: PageRecord, f: Field): seq<string> {
    match f
    case LinkField(c) => if c in page.links then page.links[c] else []
    case EmailField => page.contact.emails
    case PhoneField => page.contact.phones
    case SocialField(s) => if s in page.contact.social then page.contact.social[s] else []
  }

  /** `s` is the union over the stored pages of their field `f`. */
  ghost predicate UnionOf(s: set<string>, pages: map<string, PageRecord>, f: Field) {
    forall u :: u in s <==> exists k :: k in pages && u in Contributed(pages[k], f)
  }

  /** `all_links` has the four aggregated keys, each the union of that bucket
      over the stored pages. */
  ghost predicate LinksConsistent(p: Progress) {
    && p.allLinks.Keys == AGGREGATED
    && forall c :: c in p.allLinks ==> UnionOf(p.allLinks[c], p.pages, LinkField(c))
  }

  /** The social keys are those of the stored pages, each with the union of
      that platform's handles. */
  ghost predicate SocialConsistent(p: Progress) {
    && (forall s :: s in p.social <==> exists k :: k in p.pages && s in p.pages[k].contact.social)
    && (forall s :: s in p.social ==> UnionOf(p.social[s], p.pages, SocialField(s)))
  }

  /** The relation between the stored pages and the unions kept beside them. */
  ghost predicate Consistent(p: Progress) {
    && LinksConsistent(p)
    && UnionOf(p.emails, p.pages, EmailField)
    && UnionOf(p.phones, p.pages, PhoneField)
    && SocialConsistent(p)
  }

  /** Every stored page was fetched with status 200 from its path's URL and
      its social keys are known platforms. */
  predicate PagesWellFormed(p: Progress, env: Collaborators) {
    forall k :: k in p.pages ==>
      && p.pages[k].status == OK_STATUS
      && p.pages[k].url == env.urljoin(BASE_URL, k)
      && p.pages[k].contact.social.Keys <= PLATFORMS
  }

  /** Storing a page under a new key and adding its field to the union keeps
      the union equal to the union over the stored pages. */
  lemma UnionAdd(s: set<string>, pages: map<string, PageRecord>, f: Field, key: string, page: PageRecord)
    requires UnionOf(s, pages, f) && key !in pages
    ensures UnionOf(s + ElementsOf(Contributed(page, f)), pages[key := page], f)
  {
    var more := pages[key := page];
    forall u ensures u in s + ElementsOf(Contributed(page, f)) <==>
      exists k :: k in more && u in Contributed(more[k], f)
    {
      if u in s {
        var k :| k in pages && u in Contributed(pages[k], f);
        assert k in more && more[k] == pages[k];
      }
      if u in Contributed(page, f) {
        assert key in more && more[key] == page;
      }
      if exists k :: k in more && u in Contributed(more[k], f) {
        var k :| k in more && u in Contributed(more[k], f);
        if k != key {
          assert k in pages && more[k] == pages[k];
        }
      }
    }
  }

  /** A platform no page has contributes nothing. */
  lemma NoSocialUnion(pages: map<string, PageRecord>, s: string)
    requires forall k :: k in pages ==> s !in pages[k].contact.social
    ensures UnionOf({}, pages, SocialField(s))
  {
  }

  lemma AddPageLinks(p: Progress, subpath: string, page: PageRecord, text: string)
    requires LinksConsistent(p) && subpath !in p.pages
    ensures LinksConsistent(AddPage(p, subpath, page, text))
  {
    var q := AddPage(p, subpath, page, text);
    forall c | c in q.allLinks ensures UnionOf(q.allLinks[c], q.pages, LinkField(c)) {
      UnionAdd(p.allLinks[c], p.pages, LinkField(c), subpath, page);
    }
  }

  lemma AddPageSocialKeys(p: Progress, subpath: string, page: PageRecord, text: string)
    requires SocialConsistent(p) && subpath !in p.pages
    ensures var q := AddPage(p, subpath, page, text);
      forall s :: s in q.social <==> exists k :: k in q.pages && s in q.pages[k].contact.social
  {
    var q := AddPage(p, subpath, page, text);
    assert q.social.Keys == p.social.Keys + page.contact.social.Keys;
    SocialKeysAdd(p.social.Keys, p.pages, subpath, page);
  }

  /** The platforms named by the stored pages, after one more page is stored. */
  lemma SocialKeysAdd(platforms: set<string>, pages: map<string, PageRecord>, subpath: string, page: PageRecord)
    requires subpath !in pages
    requires forall s :: s in platforms <==> exists k :: k in pages && s in pages[k].contact.social
    ensures var more := pages[subpath := page];
      forall s :: s in platforms + page.contact.social.Keys <==> exists k :: k in more && s in more[k].contact.social
  {
    var more := pages[subpath := page];
    forall s ensures s in platforms + page.contact.social.Keys <==> exists k :: k in more && s in more[k].contact.social {
      if s in platforms {
        var k :| k in pages && s in pages[k].contact.social;
        assert k in more && more[k] == pages[k];
      }
      if s in page.contact.social {
        assert subpath in more && more[subpath] == page;
      }
      if exists k :: k in more && s in more[k].contact.social {
        var k :| k in more && s in more[k].contact.social;
        if k != subpath {
          assert k in pages && more[k] == pages[k];
        }
      }
    }
  }

  lemma AddPageSocialHandles(p: Progress, subpath: string, page: PageRecord, text: string)
    requires SocialConsistent(p) && subpath !in p.pages
    ensures var q := AddPage(p, subpath, page, text);
      forall s :: s in q.social ==> UnionOf(q.social[s], q.pages, SocialField(s))
  {
    var q := AddPage(p, subpath, page, text);
    forall s | s in q.social ensures UnionOf(q.social[s], q.pages, SocialField(s)) {
      if s !in p.social {
        NoSocialUnion(p.pages, s);
      }
      UnionAdd(if s in p.social then p.social[s] else {}, p.pages, SocialField(s), subpath, page);
    }
  }

  /** Folding a page in under a path not yet visited keeps the unions equal to
      the unions over the stored pages. */
  lemma AddPageConsistent(p: Progress, subpath: string, page: PageRecord, text: string)
    requires Consistent(p) && subpath !in p.pages
    ensures Consistent(AddPage(p, subpath, page, text))
  {
    AddPageLinks(p, subpath, page, text);
    UnionAdd(p.emails, p.pages, EmailField, subpath, page);
    UnionAdd(p.phones, p.pages, PhoneField, subpath, page);
    AddPageSocialKeys(p, subpath, page, text);
    AddPageSocialHandles(p, subpath, page, text);
  }

  /** One turn of the loop, for a path not visited before, keeps the state
      consistent and well formed, and stores at most that path. */
  lemma VisitConsistent(p: Progress, subpath: string, resp: Response, env: Collaborators)
    requires Consistent(p) && PagesWellFormed(p, env) && subpath !in p.pages
    requires Visit(p, subpath, resp, env).Success?
    ensures Consistent(Visit(p, subpath, resp, env).value)
    ensures PagesWellFormed(Visit(p, subpath, resp, env).value, env)
    ensures Visit(p, subpath, resp, env).value.pages.Keys <= p.pages.Keys + {subpath}
  {
    if resp.status == OK_STATUS {
      var url := env.urljoin(BASE_URL, subpath);
      var (page, text) := Page(url, resp, env).value;
      AddPageConsistent(p, subpath, page, text);
      var q := AddPage(p, subpath, page, text);
      assert Visit(p, subpath, resp, env).value == q;
      forall k | k in q.pages
        ensures q.pages[k].status == OK_STATUS && q.pages[k].url == env.urljoin(BASE_URL, k)
        ensures q.pages[k].contact.social.Keys <= PLATFORMS
      {
        if k != subpath {
          assert q.pages[k] == p.pages[k];
        }
      }
    }
  }

  /** Over paths without repeats, the crawl state is consistent, holds only
      pages fetched with status 200, and is keyed by visited paths only. */
  lemma {:induction false} CrawledConsistent(subpaths: seq<string>, responses: seq<Response>, env: Collaborators)
    requires |subpaths| == |responses|
    requires forall i, j :: 0 <= i < j < |subpaths| ==> subpaths[i] != subpaths[j]
    requires Crawled(subpaths, responses, env).Success?
    ensures Consistent(Crawled(subpaths, responses, env).value)
    ensures PagesWellFormed(Crawled(subpaths, responses, env).value, env)
    ensures forall k :: k in Crawled(subpaths, responses, env).value.pages ==> k in subpaths
  {
    if |subpaths| > 0 {
      var n := |subpaths| - 1;
      assert forall i :: 0 <= i < n ==> subpaths[..n][i] == subpaths[i];
      CrawledConsistent(subpaths[..n], responses[..n], env);
      var p := Crawled(subpaths[..n], responses[..n], env).value;
      assert subpaths[n] !in p.pages;
      var r := Visit(p, subpaths[n], responses[n], env);
      assert Crawled(subpaths, responses, env) == r;
      VisitConsistent(p, subpaths[n], responses[n], env);
      forall k | k in r.value.pages ensures k in subpaths {
        if k != subpaths[n] {
          assert k in subpaths[..n];
        }
      }
    } else {
      assert Start().allLinks.Keys == AGGREGATED;
    }
  }

  /** `xs` is sorted, without duplicates, and holds the union over the stored
      pages of their field `f`. */
  ghost predicate SortedUnionOf(xs: seq<string>, pages: map<string, PageRecord>, f: Field) {
    && StrictlySorted(xs)
    && forall u :: u in xs <==> exists k :: k in pages && u in Contributed(pages[k], f)
  }

  lemma SortedUnion(s: set<string>, pages: map<string, PageRecord>, f: Field)
    requires UnionOf(s, pages, f)
    ensures SortedUnionOf(SortedOf(s), pages, f)
  {
  }

  /** Each link bucket of a consistent state becomes its sorted union. */
  lemma FinalizeLinks(p: Progress, timestamp: string)
    requires LinksConsistent(p)
    ensures var links := Finalize(p, timestamp).allLinks;
      && links.Keys == AGGREGATED
      && forall c :: c in links ==> SortedUnionOf(links[c], p.pages, LinkField(c))
  {
    var links := Finalize(p, timestamp).allLinks;
    forall c | c in links ensures SortedUnionOf(links[c], p.pages, LinkField(c)) {
      SortedUnion(p.allLinks[c], p.pages, LinkField(c));
    }
  }

  /** Each platform of a consistent state becomes its sorted union, and only
      platforms some stored page names are kept. */
  lemma FinalizeSocial(p: Progress, env: Collaborators, timestamp: string)
    requires SocialConsistent(p) && PagesWellFormed(p, env)
    ensures var social := Finalize(p, timestamp).social;
      && social.Keys <= PLATFORMS
      && (forall s :: s in social <==> exists k :: k in p.pages && s in p.pages[k].contact.social)
      && (forall s :: s in social ==> SortedUnionOf(social[s], p.pages, SocialField(s)))
  {
    var social := Finalize(p, timestamp).social;
    forall s | s in social ensures s in PLATFORMS && SortedUnionOf(social[s], p.pages, SocialField(s)) {
      var k :| k in p.pages && s in p.pages[k].contact.social;
      SortedUnion(p.social[s], p.pages, SocialField(s));
    }
  }

  /** Finalising a consistent state turns each union into its sorted list. */
  lemma FinalizeShape(p: Progress, env: Collaborators, timestamp: string)
    requires Consistent(p) && PagesWellFormed(p, env)
    ensures var r := Finalize(p, timestamp);
      && r.allLinks.Keys == AGGREGATED
      && (forall c :: c in r.allLinks ==> SortedUnionOf(r.allLinks[c], r.pages, LinkField(c)))
      && SortedUnionOf(r.emails, r.pages, EmailField)
      && SortedUnionOf(r.phones, r.pages, PhoneField)
      && r.social.Keys <= PLATFORMS
      && (forall s :: s in r.social <==> exists k :: k in r.pages && s in r.pages[k].contact.social)
      && (forall s :: s in r.social ==> SortedUnionOf(r.social[s], r.pages, SocialField(s)))
  {
    FinalizeLinks(p, timestamp);
    SortedUnion(p.emails, p.pages, EmailField);
    SortedUnion(p.phones, p.pages, PhoneField);
    FinalizeSocial(p, env, timestamp);
  }

  /** What `crawl_site()` returns when no page raises: `all_links` has exactly
      the keys internal, external, mailto and tel, and every list in it and in
      `all_contact` is sorted, has no duplicates and is the union of the
      corresponding lists of the stored pages; every stored page is one of the
      site's paths fetched with status 200; social keys are known platforms. */
  lemma CrawlReportShape(responses: seq<Response>, env: Collaborators, timestamp: string)
    requires |responses| == |SUBPATHS|
    requires CrawlResult(responses, env, timestamp).Success?
    ensures var r := CrawlResult(responses, env, timestamp).value;
      && r.timestamp == timestamp && r.baseUrl == BASE_URL
      && r.allLinks.Keys == AGGREGATED
      && (forall c :: c in r.allLinks ==> SortedUnionOf(r.allLinks[c], r.pages, LinkField(c)))
      && SortedUnionOf(r.emails, r.pages, EmailField)
      && SortedUnionOf(r.phones, r.pages, PhoneField)
      && r.social.Keys <= PLATFORMS
      && (forall s :: s in r.social <==> exists k :: k in r.pages && s in r.pages[k].contact.social)
      && (forall s :: s in r.social ==> SortedUnionOf(r.social[s], r.pages, SocialField(s)))
      && (forall k :: k in r.pages ==>
            k in SUBPATHS && r.pages[k].status == OK_STATUS && r.pages[k].url == env.urljoin(BASE_URL, k))
  {
    SubpathsDistinct();
    CrawledConsistent(SUBPATHS, responses, env);
    FinalizeShape(Crawled(SUBPATHS, responses, env).value, env, timestamp);
  }

  /** When no path is fetched with status 200, nothing is stored, every union
      is empty and no text is collected. */
  lemma {:induction false} NothingFetched(subpaths: seq<string>, responses: seq<Response>, env: Collaborators)
    requires |subpaths| == |responses|
    requires forall i :: 0 <= i < |responses| ==> responses[i].status != OK_STATUS
    ensures Crawled(subpaths, responses, env) == Success(Start())
  {
    if |subpaths| > 0 {
      var n := |subpaths| - 1;
      assert forall i :: 0 <= i < n ==> responses[..n][i] == responses[i];
      NothingFetched(subpaths[..n], responses[..n], env);
    }
  }

  lemma EmptyCrawl(responses: seq<Response>, env: Collaborators, timestamp: string)
    requires |responses| == |SUBPATHS|
    requires forall i :: 0 <= i < |responses| ==> responses[i].status != OK_STATUS
    ensures CrawlResult(responses, env, timestamp) ==
      Success(CrawlReport(timestamp, BASE_URL, map[], map c | c in AGGREGATED :: [], [], [], map[], ""))
  {
    NothingFetched(SUBPATHS, responses, env);
    var r := Finalize(Start(), timestamp);
    assert SortedOf({}) == [];
    assert r.allLinks == map c | c in AGGREGATED :: [];
  }
}
