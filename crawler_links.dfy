/** `extract_links`: every `href` of a page sorted into one of five buckets,
    each bucket then deduplicated and sorted. */
module LinkClassifier {
  import opened Results
  import opened Text
  import opened Ordering
  import CrawlerConfig

  datatype Category = Internal | External | Mailto | Tel | Other

  const ALL_CATEGORIES: set<Category> := {Internal, External, Mailto, Tel, Other}

  lemma EveryCategoryListed()
    ensures forall c: Category :: c in ALL_CATEGORIES
  {
    forall c: Category ensures c in ALL_CATEGORIES {
      match c
      case Internal =>
      case External =>
      case Mailto =>
      case Tel =>
      case Other =>
    }
  }

  /** A map with a bucket for every category. */
  predicate Total(links: map<Category, seq<string>>) {
    forall c: Category :: c in links
  }

  /** The bucket a non-blank stripped href `h` goes to and the string stored
      there. The tests are tried in order and the first that matches decides. */
  function Route(h: string, pageUrl: string, urljoin: (string, string) -> string): (Category, string) {
    if StartsWith(h, "mailto:") then (Mailto, h)
    else if StartsWith(h, "tel:") then (Tel, h)
    else if StartsWith(h, "http") then
      if Contains(h, CrawlerConfig.BASE_URL) then (Internal, h) else (External, h)
    else if StartsWith(h, "/") || StartsWith(h, "?") then (Internal, urljoin(pageUrl, h))
    else (Other, h)
  }

  /** Where one `href` goes; `None` for an href that is blank once stripped. */
  function Classify(href: string, pageUrl: string, urljoin: (string, string) -> string)
    : (r: Option<(Category, string)>)
    ensures r.None? <==> Strip(href) == ""
  {
    var h := Strip(href);
    if h == "" then None else Some(Route(h, pageUrl, urljoin))
  }

  /** The classification of each href, in document order. */
  function Classified(hrefs: seq<string>, pageUrl: string, urljoin: (string, string) -> string)
    : (r: seq<Option<(Category, string)>>)
    ensures |r| == |hrefs|
    ensures forall i :: 0 <= i < |hrefs| ==> r[i] == Classify(hrefs[i], pageUrl, urljoin)
  {
    seq(|hrefs|, i requires 0 <= i < |hrefs| => Classify(hrefs[i], pageUrl, urljoin))
  }

  /** What one classified href appends to bucket `c`. */
  function Entry(e: Option<(Category, string)>, c: Category): seq<string> {
    match e
    case Some((c', u)) => if c' == c then [u] else []
    case None => []
  }

  /** The list bucket `c` holds once the classified hrefs have been walked,
      before deduplication: their strings for `c`, in document order. */
  function Appended(entries: seq<Option<(Category, string)>>, c: Category): seq<string> {
    if |entries| == 0 then []
    else Appended(entries[..|entries| - 1], c) + Entry(entries[|entries| - 1], c)
  }

  lemma AppendedStep(entries: seq<Option<(Category, string)>>, i: nat, c: Category)
    requires i < |entries|
    ensures Appended(entries[..i + 1], c) == Appended(entries[..i], c) + Entry(entries[i], c)
  {
    assert entries[..i + 1][..i] == entries[..i];
  }

  /** One step of the walk over the hrefs keeps every bucket equal to
      `Appended` of the entries seen so far. */
  lemma BucketsStep(links: map<Category, seq<string>>, entries: seq<Option<(Category, string)>>, i: nat)
    requires i < |entries|
    requires Total(links)
    requires forall c :: c in links ==> links[c] == Appended(entries[..i], c)
    ensures entries[i].None? ==> forall c :: c in links ==> links[c] == Appended(entries[..i + 1], c)
    ensures entries[i].Some? ==>
      var (category, entry) := entries[i].value;
      var next := links[category := links[category] + [entry]];
      Total(next) && forall c :: c in next ==> next[c] == Appended(entries[..i + 1], c)
  {
    forall c { AppendedStep(entries, i, c); }
  }

  /** The value `extract_links` returns. */
  function Links(hrefs: seq<string>, pageUrl: string, urljoin: (string, string) -> string)
    : (links: map<Category, seq<string>>)
    ensures Total(links) && links.Keys == ALL_CATEGORIES
  {
    var entries := Classified(hrefs, pageUrl, urljoin);
    EveryCategoryListed();
    map c | c in ALL_CATEGORIES :: SortedUnique(Appended(entries, c))
  }

  /** Sorting and deduplicating every bucket of the walked hrefs gives the
      returned dictionary. */
  lemma SortedBuckets(links: map<Category, seq<string>>, hrefs: seq<string>, pageUrl: string,
                      urljoin: (string, string) -> string)
    requires Total(links)
    requires forall c :: c in links ==> links[c] == Appended(Classified(hrefs, pageUrl, urljoin), c)
    ensures (map c | c in links :: SortedUnique(links[c])) == Links(hrefs, pageUrl, urljoin)
  {
    EveryCategoryListed();
    assert links.Keys == ALL_CATEGORIES;
  }

  /** One iteration of the loop of `extract_links`: the href at `i` is
      skipped when blank and otherwise appended to its bucket. */
  method AddHref(links: map<Category, seq<string>>, hrefs: seq<string>, i: nat, pageUrl: string,
                 urljoin: (string, string) -> string)
    returns (next: map<Category, seq<string>>)
    requires i < |hrefs|
    requires Total(links)
    requires forall c :: c in links ==> links[c] == Appended(Classified(hrefs, pageUrl, urljoin)[..i], c)
    ensures Total(next)
    ensures forall c :: c in next ==> next[c] == Appended(Classified(hrefs, pageUrl, urljoin)[..i + 1], c)
  {
    ghost var entries := Classified(hrefs, pageUrl, urljoin);
    var classified := Classify(hrefs[i], pageUrl, urljoin);
    BucketsStep(links, entries, i);
    next := links;
    if classified.Some? {
      var category := classified.value.0;
      next := links[category := links[category] + [classified.value.1]];
    }
  }

  /** `extract_links(html, base_url)`, given the hrefs the parser found. */
  method ExtractLinks(hrefs: seq<string>, pageUrl: string, urljoin: (string, string) -> string)
    returns (links: map<Category, seq<string>>)
    ensures links == Links(hrefs, pageUrl, urljoin)
  {
    links := map[Internal := [], External := [], Mailto := [], Tel := [], Other := []];
    EveryCategoryListed();
    assert links.Keys == ALL_CATEGORIES;
    for i := 0 to |hrefs|
      invariant Total(links)
      invariant forall c :: c in links ==> links[c] == Appended(Classified(hrefs, pageUrl, urljoin)[..i], c)
    {
      links := AddHref(links, hrefs, i, pageUrl, urljoin);
    }
    assert Classified(hrefs, pageUrl, urljoin)[..|hrefs|] == Classified(hrefs, pageUrl, urljoin);
    // Remove duplicates and sort, key by key.
    SortedBuckets(links, hrefs, pageUrl, urljoin);
    links := map c | c in links :: SortedUnique(links[c]);
  }

  /** A bucket's unsorted list holds exactly the strings of the entries
      classified into it. */
  lemma {:induction false} AppendedMembers(entries: seq<Option<(Category, string)>>, c: Category, u: string)
    ensures u in Appended(entries, c) <==> Some((c, u)) in entries
  {
    if |entries| > 0 {
      var n := |entries| - 1;
      AppendedMembers(entries[..n], c, u);
      assert entries == entries[..n] + [entries[n]];
    }
  }

  /** Each of the five buckets is strictly ascending (sorted, no duplicates)
      and holds exactly the strings stored for the hrefs classified into it. */
  lemma LinksBuckets(hrefs: seq<string>, pageUrl: string, urljoin: (string, string) -> string,
                     c: Category, u: string)
    ensures c in Links(hrefs, pageUrl, urljoin)
    ensures StrictlySorted(Links(hrefs, pageUrl, urljoin)[c])
    ensures u in Links(hrefs, pageUrl, urljoin)[c] <==>
      exists i :: 0 <= i < |hrefs| && Classify(hrefs[i], pageUrl, urljoin) == Some((c, u))
  {
    var entries := Classified(hrefs, pageUrl, urljoin);
    AppendedMembers(entries, c, u);
    if Some((c, u)) in entries {
      var i :| 0 <= i < |entries| && entries[i] == Some((c, u));
      assert Classify(hrefs[i], pageUrl, urljoin) == Some((c, u));
    }
  }

  /** Only hrefs starting with `/` or `?` are resolved against the page URL
      (and always go to the internal bucket); every other href is stored
      exactly as written, once stripped. */
  lemma OnlyRelativeResolved(h: string, pageUrl: string, urljoin: (string, string) -> string)
    requires h != ""
    ensures StartsWith(h, "/") || StartsWith(h, "?") ==> Route(h, pageUrl, urljoin) == (Internal, urljoin(pageUrl, h))
    ensures !StartsWith(h, "/") && !StartsWith(h, "?") ==> Route(h, pageUrl, urljoin).1 == h
  {
    if StartsWith(h, "/") || StartsWith(h, "?") {
      assert h[0] == '/' || h[0] == '?' by {
        assert StartsWith(h, "/") ==> h[..1] == "/";
        assert StartsWith(h, "?") ==> h[..1] == "?";
      }
      DifferentFirstChar(h, "mailto:");
      DifferentFirstChar(h, "tel:");
      DifferentFirstChar(h, "http");
    }
  }

  /** The five prefixes tested start with five different characters, so a
      string has at most one of them. */
  lemma PrefixesExclusive(h: string)
    ensures StartsWith(h, "mailto:") ==> h[0] == 'm'
    ensures StartsWith(h, "tel:") ==> h[0] == 't'
    ensures StartsWith(h, "http") ==> h[0] == 'h'
    ensures StartsWith(h, "/") ==> h[0] == '/'
    ensures StartsWith(h, "?") ==> h[0] == '?'
  {
    if StartsWith(h, "mailto:") { assert h[..7][0] == 'm'; }
    if StartsWith(h, "tel:") { assert h[..4][0] == 't'; }
    if StartsWith(h, "http") { assert h[..4][0] == 'h'; }
    if StartsWith(h, "/") { assert h[..1][0] == '/'; }
    if StartsWith(h, "?") { assert h[..1][0] == '?'; }
  }

  /** Read backwards, the bucket tells which test the href passed: since the
      tested prefixes exclude each other, each bucket is characterised by its
      own test alone, and `other` by failing all five. */
  lemma RouteBuckets(h: string, pageUrl: string, urljoin: (string, string) -> string)
    ensures Route(h, pageUrl, urljoin).0 == Mailto <==> StartsWith(h, "mailto:")
    ensures Route(h, pageUrl, urljoin).0 == Tel <==> StartsWith(h, "tel:")
    ensures Route(h, pageUrl, urljoin).0 == External <==>
      StartsWith(h, "http") && !Contains(h, CrawlerConfig.BASE_URL)
    ensures Route(h, pageUrl, urljoin).0 == Internal <==>
      (StartsWith(h, "http") && Contains(h, CrawlerConfig.BASE_URL)) || StartsWith(h, "/") || StartsWith(h, "?")
    ensures Route(h, pageUrl, urljoin).0 == Other <==>
      !StartsWith(h, "mailto:") && !StartsWith(h, "tel:") && !StartsWith(h, "http")
      && !StartsWith(h, "/") && !StartsWith(h, "?")
  {
    PrefixesExclusive(h);
  }

  lemma DifferentFirstChar(s: string, prefix: string)
    requires |s| > 0 && |prefix| > 0 && s[0] != prefix[0]
    ensures !StartsWith(s, prefix)
  {
    if |prefix| <= |s| {
      assert s[..|prefix|][0] != prefix[0];
    }
  }

  /** Only links starting with `/` or `?` are resolved against the page being
      read; the internal test for absolute links looks at the site's base URL.
      So the page URL affects no other link. */
  lemma AbsoluteIgnoresPageUrl(href: string, page1: string, page2: string, urljoin: (string, string) -> string)
    requires !StartsWith(Strip(href), "/") && !StartsWith(Strip(href), "?")
    ensures Classify(href, page1, urljoin) == Classify(href, page2, urljoin)
  {
  }

  /** The internal test is a substring test: an external address that merely
      mentions the base URL, say in its query, counts as internal. */
  lemma SubstringTestIsLoose(pageUrl: string, urljoin: (string, string) -> string)
    ensures var h := "https://example.org/?ref=" + CrawlerConfig.BASE_URL;
      Classify(h, pageUrl, urljoin) == Some((Internal, h))
  {
    var q := "https://example.org/?ref=";
    var h := q + CrawlerConfig.BASE_URL;
    assert h[0] == 'h' && h[|h| - 1] == 'm';
    StripTrimmed(h);
    assert OccursAt(h, CrawlerConfig.BASE_URL, |q|) by {
      assert h[|q|..|q| + |CrawlerConfig.BASE_URL|] == CrawlerConfig.BASE_URL;
    }
    assert StartsWith(h, "http") by {
      assert h[..4] == q[..4];
    }
    DifferentFirstChar(h, "mailto:");
    DifferentFirstChar(h, "tel:");
  }

  lemma ClassifiedSnoc(hrefs: seq<string>, h: string, pageUrl: string, urljoin: (string, string) -> string)
    ensures Classified(hrefs + [h], pageUrl, urljoin)
         == Classified(hrefs, pageUrl, urljoin) + [Classify(h, pageUrl, urljoin)]
  {
    var more := hrefs + [h];
    assert forall k :: 0 <= k < |hrefs| ==> more[k] == hrefs[k];
  }

  /** Appending an entry already seen changes no deduplicated bucket. */
  lemma AppendedRepeat(entries: seq<Option<(Category, string)>>, i: nat, c: Category)
    requires i < |entries|
    ensures SortedUnique(Appended(entries + [entries[i]], c)) == SortedUnique(Appended(entries, c))
  {
    var more := entries + [entries[i]];
    forall u ensures u in Appended(more, c) <==> u in Appended(entries, c) {
      AppendedMembers(more, c, u);
      AppendedMembers(entries, c, u);
    }
    StrictlySortedUnique(SortedUnique(Appended(more, c)), SortedUnique(Appended(entries, c)));
  }

  /** A repeated href leaves every bucket as it was. */
  lemma LinksIgnoreRepeats(hrefs: seq<string>, i: nat, pageUrl: string, urljoin: (string, string) -> string)
    requires i < |hrefs|
    ensures Links(hrefs + [hrefs[i]], pageUrl, urljoin) == Links(hrefs, pageUrl, urljoin)
  {
    var entries := Classified(hrefs, pageUrl, urljoin);
    ClassifiedSnoc(hrefs, hrefs[i], pageUrl, urljoin);
    assert Classified(hrefs + [hrefs[i]], pageUrl, urljoin) == entries + [entries[i]];
    var after, before := Links(hrefs + [hrefs[i]], pageUrl, urljoin), Links(hrefs, pageUrl, urljoin);
    forall c | c in ALL_CATEGORIES ensures after[c] == before[c] {
      AppendedRepeat(entries, i, c);
    }
    assert after.Keys == before.Keys;
  }
}
