/** The crawler's fixed configuration and the library calls it makes, which
    the model takes as inputs: the HTML parser, regular-expression search,
    JSON decoding and URL resolution. */
module CrawlerConfig {
  import opened Results

  const BASE_URL: string := "https://ajaymiryala.com"

  /** The pages visited, in order. */
  const SUBPATHS: seq<string> := [
    "/", "/about", "/contact", "/resume", "/cv", "/portfolio",
    "/projects", "/blog", "/experience", "/skills", "/work"
  ]

  /** A decoded JSON value; numbers keep their literal text. */
  datatype Json =
    | Null
    | Bool(b: bool)
    | Number(literal: string)
    | Str(s: string)
    | Array(items: seq<Json>)
    | Object(members: seq<(string, Json)>)

  /** What the HTML parser yields for one page. */
  datatype Document = Document(
    /** `get_text(separator='\n')` once `script` and `style` elements are removed. */
    text: string,
    /** The `href` attribute of every `a` element that has one, in document order. */
    hrefs: seq<string>,
    /** The text of every `script type="application/ld+json"` element, in document
        order; `None` when the element has no single string child. */
    ldJsonScripts: seq<Option<string>>,
    /** The metadata fields found in the head of the page. */
    metadata: map<string, string>)

  /** The library calls, as functions of their arguments. */
  datatype Collaborators = Collaborators(
    /** BeautifulSoup's parse of a page body. */
    parse: string -> Document,
    /** `re.findall(pattern, text)` for a pattern with at most one group: the
        matched strings (or the group) in order. */
    findAll: (string, string) -> seq<string>,
    /** `re.findall(pattern, text)` for a pattern with several groups: one
        tuple of group values per match, in order. */
    findGroups: (string, string) -> seq<seq<string>>,
    /** `json.loads`; `None` where it raises. */
    loads: string -> Option<Json>,
    /** `urljoin(base, reference)`. */
    urljoin: (string, string) -> string)

  lemma SubpathsDistinct()
    ensures forall i, j :: 0 <= i < j < |SUBPATHS| ==> SUBPATHS[i] != SUBPATHS[j]
  {
  }
}
