/** The site's schema.org JSON-LD builders: each turns a plain list or record
    into the structured object a search engine reads. */
module SeoSchemas {
  import opened Results
  import opened Text

  const SCHEMA_CONTEXT: string := "https://schema.org"
  const SITE_URL: string := "https://ajaymiryala.com"
  const SITE_NAME: string := "Ajay Miryala - AI & ML Portfolio"
  const AUTHOR_NAME: string := "Ajay Miryala"
  const AUTHOR_JOB_TITLE: string := "Generative AI and ML Engineer"
  const PAGE_LANGUAGE: string := "en-US"
  const BULLET: string := "• "

  /** An entry of a breadcrumb trail as the callers pass it. */
  datatype Crumb = Crumb(name: string, url: string)

  /** A schema.org `ListItem`. */
  datatype ListItem = ListItem(position: int, name: string, item: string)

  /** A schema.org `BreadcrumbList`; `context` is present on a top-level object
      and absent on one nested in a page. */
  datatype BreadcrumbList = BreadcrumbList(context: Option<string>, itemListElement: seq<ListItem>)

  datatype Faq = Faq(question: string, answer: string)

  /** A schema.org `Question` with its `acceptedAnswer`'s text. */
  datatype Question = Question(name: string, acceptedAnswerText: string)

  datatype FaqPage = FaqPage(context: string, mainEntity: seq<Question>)

  /** A schema.org `Person` as the schemas name the author. */
  datatype Author = Author(name: string, jobTitle: string, url: Option<string>)

  /** The argument of `createProjectSchema`; optional fields may be missing. */
  datatype Project = Project(
    name: string,
    description: string,
    url: Option<string>,
    technologies: seq<string>,
    datePublished: Option<string>)

  datatype SoftwareSourceCode = SoftwareSourceCode(
    context: string,
    name: string,
    description: string,
    url: Option<string>,
    programmingLanguage: seq<string>,
    author: Author,
    datePublished: Option<string>)

  /** The argument of `webPageSchema`. */
  datatype PageInfo = PageInfo(
    name: string,
    description: string,
    url: string,
    dateModified: Option<string>,
    breadcrumb: Option<seq<Crumb>>)

  datatype WebSite = WebSite(name: string, url: string)

  datatype WebPage = WebPage(
    context: string,
    name: string,
    description: string,
    url: string,
    inLanguage: string,
    isPartOf: WebSite,
    author: Author,
    dateModified: string,
    breadcrumb: Option<BreadcrumbList>)

  /** `formatResponsibilities(items)`: each item after a bullet, one per line. */
  function FormatResponsibilities(items: seq<string>): string {
    Join(Bulleted(items), "\n")
  }

  function Bulleted(items: seq<string>): (lines: seq<string>)
    ensures |lines| == |items|
    ensures forall i :: 0 <= i < |items| ==> lines[i] == BULLET + items[i]
  {
    seq(|items|, i requires 0 <= i < |items| => BULLET + items[i])
  }

  /** `items.map((item, index) => ({ "@type": "ListItem", position: index + 1, ... }))`. */
  function ListItems(items: seq<Crumb>): (elements: seq<ListItem>)
    ensures |elements| == |items|
    ensures forall i :: 0 <= i < |items| ==>
      elements[i] == ListItem(i + 1, items[i].name, items[i].url)
  {
    seq(|items|, i requires 0 <= i < |items| => ListItem(i + 1, items[i].name, items[i].url))
  }

  /** `breadcrumbSchema(items)`. */
  function BreadcrumbSchema(items: seq<Crumb>): BreadcrumbList {
    BreadcrumbList(Some(SCHEMA_CONTEXT), ListItems(items))
  }

  /** `faqSchema(faqs)`. */
  function FaqSchema(faqs: seq<Faq>): (page: FaqPage)
    ensures |page.mainEntity| == |faqs|
    ensures forall i :: 0 <= i < |faqs| ==> page.mainEntity[i] == Question(faqs[i].question, faqs[i].answer)
  {
    FaqPage(SCHEMA_CONTEXT, seq(|faqs|, i requires 0 <= i < |faqs| => Question(faqs[i].question, faqs[i].answer)))
  }

  /** `createProjectSchema(project)`. */
  function CreateProjectSchema(project: Project): SoftwareSourceCode {
    SoftwareSourceCode(SCHEMA_CONTEXT, project.name, project.description, project.url, project.technologies,
                       Author(AUTHOR_NAME, AUTHOR_JOB_TITLE, None), project.datePublished)
  }

  /** `webPageSchema(page)`, where `today` is the date part of the current time
      in ISO form: the `new Date()` default. A missing or empty `dateModified`
      falls back to it (`||`); any supplied breadcrumb array, even an empty one,
      is truthy and produces a list. */
  function WebPageSchema(page: PageInfo, today: string): (schema: WebPage)
    ensures schema.name == page.name && schema.description == page.description && schema.url == page.url
    ensures page.dateModified.Some? && page.dateModified.value != "" ==> schema.dateModified == page.dateModified.value
    ensures page.dateModified.None? || page.dateModified.value == "" ==> schema.dateModified == today
    ensures schema.breadcrumb.Some? <==> page.breadcrumb.Some?
  {
    var dateModified := if page.dateModified.Some? && page.dateModified.value != "" then page.dateModified.value else today;
    var breadcrumb := if page.breadcrumb.Some? then Some(BreadcrumbList(None, ListItems(page.breadcrumb.value))) else None;
    WebPage(SCHEMA_CONTEXT, page.name, page.description, page.url, PAGE_LANGUAGE, WebSite(SITE_NAME, SITE_URL),
            Author(AUTHOR_NAME, AUTHOR_JOB_TITLE, Some(SITE_URL)), dateModified, breadcrumb)
  }

  /** The crumbs a breadcrumb list was built from. */
  function CrumbsOf(elements: seq<ListItem>): (items: seq<Crumb>)
    ensures |items| == |elements|
  {
    seq(|elements|, i requires 0 <= i < |elements| => Crumb(elements[i].name, elements[i].item))
  }

  /** The question/answer pairs a FAQ page was built from. */
  function FaqsOf(page: FaqPage): (faqs: seq<Faq>)
    ensures |faqs| == |page.mainEntity|
  {
    seq(|page.mainEntity|, i requires 0 <= i < |page.mainEntity| =>
      Faq(page.mainEntity[i].name, page.mainEntity[i].acceptedAnswerText))
  }

  /** The project a source-code schema was built from. */
  function ProjectOf(schema: SoftwareSourceCode): Project {
    Project(schema.name, schema.description, schema.url, schema.programmingLanguage, schema.datePublished)
  }

  lemma NoNewlineInBullet()
    ensures '\n' !in BULLET
  {
  }

  /** An empty list formats as the empty string. */
  lemma FormatNothing()
    ensures FormatResponsibilities([]) == ""
  {
  }

  /** For items without line breaks, the text has one line per item, each the
      item after the bullet. */
  lemma ResponsibilityLines(items: seq<string>)
    requires |items| > 0
    requires forall i :: 0 <= i < |items| ==> '\n' !in items[i]
    ensures Split(FormatResponsibilities(items), '\n') == Bulleted(items)
    ensures |Split(FormatResponsibilities(items), '\n')| == |items|
  {
    var lines := Bulleted(items);
    forall i | 0 <= i < |lines| ensures '\n' !in lines[i] {
      assert lines[i] == BULLET + items[i];
      NoNewlineInBullet();
    }
    SplitJoin(lines, '\n');
  }

  /** The breadcrumb trail is recovered, in order, from the list: names and
      URLs are kept and nothing is added or lost. */
  lemma BreadcrumbRoundTrip(items: seq<Crumb>)
    ensures CrumbsOf(BreadcrumbSchema(items).itemListElement) == items
  {
    var back := CrumbsOf(BreadcrumbSchema(items).itemListElement);
    forall i | 0 <= i < |items| ensures back[i] == items[i] {
    }
  }

  /** Positions count from one: a trail built from two pieces numbers the
      second piece on from where the first stops. */
  lemma BreadcrumbPositionsContinue(a: seq<Crumb>, b: seq<Crumb>)
    ensures var whole := BreadcrumbSchema(a + b).itemListElement;
      && whole[..|a|] == BreadcrumbSchema(a).itemListElement
      && forall j :: 0 <= j < |b| ==> whole[|a| + j].position == BreadcrumbSchema(b).itemListElement[j].position + |a|
  {
    var whole := BreadcrumbSchema(a + b).itemListElement;
    assert forall i :: 0 <= i < |a| ==> (a + b)[i] == a[i];
  }

  /** The questions and answers are recovered, in order, from the FAQ page. */
  lemma FaqRoundTrip(faqs: seq<Faq>)
    ensures FaqsOf(FaqSchema(faqs)) == faqs
  {
    var back := FaqsOf(FaqSchema(faqs));
    forall i | 0 <= i < |faqs| ensures back[i] == faqs[i] {
    }
  }

  /** The project is recovered from its schema: name, description, url and
      publication date are copied and the technologies become the
      programming languages unchanged. */
  lemma ProjectRoundTrip(project: Project)
    ensures ProjectOf(CreateProjectSchema(project)) == project
  {
  }

  /** A page's breadcrumb carries the same 1-based list as `breadcrumbSchema`
      of the same trail. */
  lemma PageBreadcrumbMatches(page: PageInfo, today: string)
    requires page.breadcrumb.Some?
    ensures WebPageSchema(page, today).breadcrumb.value.itemListElement ==
      BreadcrumbSchema(page.breadcrumb.value).itemListElement
  {
  }
}
