# Portfolio site crawler and asset helpers, modelled in Dafny

This project models the data-handling core of a personal portfolio site:

- **The site crawler** (`attached_assets/crawler_1762816768780.py`) visits a fixed list of paths under
  `https://ajaymiryala.com`. Every page answered with status 200 goes through four steps:
  - its visible text is cleaned into non-empty, stripped lines;
  - its links are sorted into the buckets internal, external, mailto, tel and other;
  - its text is searched for e-mail addresses, phone numbers and social-media handles;
  - its JSON-LD blocks are decoded.

  Each page gets a record under its path, and the links, e-mails, phones and social handles are gathered into site-wide sets. The crawl ends by turning those sets into sorted lists.
- **The Cloud Storage URL helpers** (`client/src/lib/gcs-utils.ts`). They map an image path to the public URL of the object under `images/` in the assets bucket.
- **The timeline image lookup** (`client/src/lib/timeline-images.ts`). It prefers the pre-built entry of the image map. If there is none, it falls back to a 960×640 source: the path itself when it starts with `/`, otherwise the path under `/images/`.
- **The schema.org JSON-LD builders** (`client/src/components/seo/schemas.ts`). These are the project, breadcrumb, FAQ and web-page schemas, plus the bulleted formatting of responsibility lists.
- **The timeline image upload script** (`scripts/upload-timeline-images.ts`). Its loop uploads each listed image under `public/timeline/` with a one-year cache header. The content type comes from the file's extension, matched case-insensitively.

One module per source file. The Python crawler is split by function:

- `crawler_text.dfy`: `TextExtractor`
- `crawler_links.dfy`: `LinkClassifier`
- `crawler_contact.dfy`: `ContactExtractor`
- `crawler_jsonld.dfy`: `StructuredData`
- `crawler_site.dfy`: `Crawler`
- `crawler_config.dfy`: `CrawlerConfig`, the constants and the library calls

Shared string and ordering facts live in `text.dfy` (`Text`) and `ordering.dfy` (`Ordering`). `results.dfy` holds `Option` and `Result`.

The crawler's library calls are inputs of the model, gathered in `CrawlerConfig.Collaborators`:

- BeautifulSoup's parse of a body, as a `Document` holding the text, the `href`s, the JSON-LD script texts and the metadata;
- `re.findall`, for one-group and for many-group patterns;
- `json.loads`;
- `urljoin`.

The fetched pages are an input too, one `Response` per path. The contracts therefore hold for every behaviour of those libraries that returns normally, and for every behaviour of the network.

The loops of the source are methods proved against a specification function:

- `LinkClassifier.ExtractLinks` against `Links`;
- `StructuredData.ExtractJsonLd` against `Parsed`;
- `Crawler.CrawlSite` against `CrawlResult`;
- `TimelineUpload.UploadEach`, the loop of `uploadImages`, against `Attempted`, `Requests` and `Successes`.

What the source promises is proved as lemmas about those functions.

The phone comprehension `m[0] + m[1] + m[2]` is modelled as written. The phone pattern has two capturing groups, so `re.findall` yields pairs, and reading `m[2]` raises `IndexError`. An uncaught exception ends `crawl_site`. The model therefore returns `Failure(TupleIndexOutOfRange(m, 2))`, and the whole crawl fails as soon as a status-200 page contains a phone-like number (`ContactExtractor.PhoneMatchFails`, `Crawler.CrawlFails`).

Python's `list(set(..))` leaves the order of each page's lists to hashing. The model keeps those lists ascending (`Ordering.SortedUnique`). The contracts about them state only what the source guarantees: no duplicates, and exactly the elements found.

## Model

| member | source | states |
|---|---|---|
| TextExtractor.ExtractText | attached_assets/crawler_1762816768780.py:53-55 | `extract_text` on the parser's text: the joined kept lines; what they are is stated by ExtractTextLines (the text splits back into exactly the kept lines) and CleanLinesKeepEvery (every line non-empty after stripping is kept, in order) |
| TextExtractor.ExtractTextLines | attached_assets/crawler_1762816768780.py:53-55 | the cleaned text is empty exactly when no line survives; otherwise splitting it at newlines gives back exactly the kept lines, each non-empty and with no surrounding whitespace |
| TextExtractor.ExtractTextIdempotent | attached_assets/crawler_1762816768780.py:53-55 | cleaning already cleaned text changes nothing |
| TextExtractor.KeepNonEmptyAppend | attached_assets/crawler_1762816768780.py:55 | filtering out empty lines works part by part: the kept lines of a concatenation are those of each part, in order |
| TextExtractor.KeepNonEmptyAt | attached_assets/crawler_1762816768780.py:55 | each line is judged in its place: a non-empty line is kept right after the lines kept before it, an empty one is dropped |
| TextExtractor.CleanLinesKeepEvery | attached_assets/crawler_1762816768780.py:53-55 | every line of the page text that is non-empty after stripping is kept, stripped, in its place among the kept lines; a blank one is dropped |
| LinkClassifier.Classify | attached_assets/crawler_1762816768780.py:108-110 | an href is skipped exactly when it is empty after stripping whitespace |
| LinkClassifier.RouteBuckets | attached_assets/crawler_1762816768780.py:112-124 | each bucket is characterised by its own test (mailto: / tel: / http with or without the site URL / leading / or ? resolved against the page), and other by failing all five prefix tests, in both directions |
| LinkClassifier.OnlyRelativeResolved | attached_assets/crawler_1762816768780.py:112-124 | only hrefs starting with / or ? are resolved against the page URL (and go to internal); every other href is stored as written |
| LinkClassifier.AbsoluteIgnoresPageUrl | attached_assets/crawler_1762816768780.py:112-120 | an href not starting with / or ? is classified the same whatever page it was found on |
| LinkClassifier.SubstringTestIsLoose | attached_assets/crawler_1762816768780.py:116-118 | the internal test is a substring test: an absolute URL of another host that merely mentions the site URL is counted internal |
| LinkClassifier.Links | attached_assets/crawler_1762816768780.py:99-128 | the specification of `extract_links`: all five buckets are present; their contents are stated by LinksBuckets and RouteBuckets |
| LinkClassifier.ExtractLinks | attached_assets/crawler_1762816768780.py:96-130 | the loop builds exactly the dictionary of the specification function: five buckets, each the sorted, deduplicated list of what was appended to it |
| LinkClassifier.LinksBuckets | attached_assets/crawler_1762816768780.py:99-128 | every bucket exists, is strictly sorted (so duplicate-free), and holds u exactly when some href of the page classifies to that bucket with value u |
| LinkClassifier.LinksIgnoreRepeats | attached_assets/crawler_1762816768780.py:127-128 | an href that appears again on the page does not change the result |
| ContactExtractor.Phones | attached_assets/crawler_1762816768780.py:145-147 | the phone list fails exactly when some non-empty match tuple has fewer than three groups; otherwise it is strictly sorted and holds exactly the concatenations of the first three groups of the non-empty tuples |
| ContactExtractor.Social | attached_assets/crawler_1762816768780.py:150-162 | every key is a platform of the table, and each key's handle list is non-empty and strictly sorted |
| ContactExtractor.SocialEntries | attached_assets/crawler_1762816768780.py:159-162 | with distinct platform names, a platform is a key exactly when its pattern matched, and its handles are exactly the matches |
| ContactExtractor.PhoneStrings | attached_assets/crawler_1762816768780.py:145-147 | the comprehension fails exactly when some non-empty tuple has fewer than three groups, reporting the index one past its end; otherwise it yields exactly the concatenations of the first three groups of the non-empty tuples |
| ContactExtractor.ExtractContactInfo | attached_assets/crawler_1762816768780.py:132-164 | the extraction fails exactly when the phone search returns a non-empty tuple of fewer than three groups |
| ContactExtractor.ContactInfoShape | attached_assets/crawler_1762816768780.py:139-162 | e-mails and phones have no duplicates; e-mails are exactly the matches, and phones exactly the concatenations of the first three groups of the phone matches; a platform is a social key exactly when its pattern matched, its handles are exactly the matches without duplicates, and all keys are among the six platforms |
| ContactExtractor.PhoneMatchFails | attached_assets/crawler_1762816768780.py:144-147 | with two-group phone matches the extraction fails exactly when the text has a phone match, at tuple index 2 |
| ContactExtractor.NoPhoneMatchNoPhones | attached_assets/crawler_1762816768780.py:145-147 | without a phone match the extraction succeeds with an empty phone list |
| StructuredData.ExtractJsonLd | attached_assets/crawler_1762816768780.py:166-178 | the loop collects exactly the specification function's list of decoded blocks |
| StructuredData.Parsed | attached_assets/crawler_1762816768780.py:171-176 | no more blocks than script elements |
| StructuredData.ParsedAppend | attached_assets/crawler_1762816768780.py:171-176 | blocks of consecutive runs of scripts are the concatenation, in order, of each run's blocks |
| StructuredData.ParsedMembers | attached_assets/crawler_1762816768780.py:171-176 | a value is in the list exactly when some script has a string that decodes to it; undecodable scripts are skipped silently |
| StructuredData.AllDecoded | attached_assets/crawler_1762816768780.py:171-176 | when every script decodes, the list is the decoded scripts in document order, one for one |
| Crawler.TextPreview | attached_assets/crawler_1762816768780.py:227 | the preview is the first 1000 characters of the text, or the whole text if shorter |
| Crawler.Page | attached_assets/crawler_1762816768780.py:217-232 | the page fails exactly when contact extraction on its cleaned text fails, with that error; otherwise its record keeps the URL, the fetched status and the body length, its text is the cleaned text and its preview that text's preview, and its metadata, links, contact details and JSON-LD are exactly what the extractors return for its body (five link buckets, social keys among the known platforms) |
| Crawler.Visit | attached_assets/crawler_1762816768780.py:199-252 | a status other than 200 (including the fetch-error status 0) leaves the crawl state unchanged; a 200 page fails exactly when the page fails, with its error; otherwise the stored pages are the earlier ones with this path mapped to the page's record, and the running text grows by the page's section |
| Crawler.AddAll | attached_assets/crawler_1762816768780.py:237-245 | adding a list to a set gives the union with the list's elements |
| Crawler.CrawlResult | attached_assets/crawler_1762816768780.py:180-264 | the specification of `crawl_site`: its error is characterised by CrawlFails, its pages by CrawlReportPages, its site-wide lists by CrawlReportShape and its text by CrawlReportText |
| Crawler.CrawlSite | attached_assets/crawler_1762816768780.py:180-264 | the loop over the site paths produces exactly the specification function's report, or its phone error |
| Crawler.CrawledStep | attached_assets/crawler_1762816768780.py:200-254 | one iteration: an error stops the crawl, otherwise the state is the previous one after visiting the next path |
| Crawler.FailureSticks | attached_assets/crawler_1762816768780.py:200-254 | once a page has raised, later paths do not change the outcome |
| Crawler.AddPageConsistent | attached_assets/crawler_1762816768780.py:234-252 | storing a page keeps every site-wide set equal to the union of the stored pages' lists |
| Crawler.VisitConsistent | attached_assets/crawler_1762816768780.py:199-252 | a visit keeps the site-wide sets consistent with the stored pages, and stores only status-200 records under their own URL |
| Crawler.CrawledConsistent | attached_assets/crawler_1762816768780.py:200-254 | after the loop, every union matches the stored pages and only visited paths are stored |
| Crawler.FinalizeShape | attached_assets/crawler_1762816768780.py:256-262 | from a state whose sets are the unions over the stored pages, every final list is sorted, duplicate-free and exactly that union; link keys stay internal, external, mailto and tel, and social keys stay the platforms some page named |
| Crawler.CrawlReportShape | attached_assets/crawler_1762816768780.py:180-264 | the report has links under internal, external, mailto and tel only; every site-wide list is sorted, duplicate-free and the union of the pages' lists; a platform is a key exactly when some page found it; every stored page is a site path fetched with status 200 at its joined URL |
| Crawler.NothingFetched | attached_assets/crawler_1762816768780.py:206-212 | when no path answers 200 the loop ends in its initial state |
| Crawler.CrawledFails | attached_assets/crawler_1762816768780.py:200-254 | the loop raises exactly when some response is a 200 page whose contact extraction raises, and the error is that of the first such response |
| Crawler.CrawledPages | attached_assets/crawler_1762816768780.py:200-234 | over distinct paths, the stored pages are keyed by visited paths only; a path is a key exactly when its response is 200, and its record is the page's record |
| Crawler.CrawlFails | attached_assets/crawler_1762816768780.py:180-264 | the crawl raises exactly when some site path answers 200 with a text whose contact extraction raises; the error is that of the first such path |
| Crawler.CrawlReportPages | attached_assets/crawler_1762816768780.py:180-234 | in a report, a site path is a page key exactly when it was fetched with status 200, and its record is the one built from its response at its joined URL |
| Crawler.VisitText | attached_assets/crawler_1762816768780.py:206-252 | a successful visit appends to the document exactly the path's section: its URL banner and cleaned text for a 200 page, nothing otherwise |
| Crawler.CrawledText | attached_assets/crawler_1762816768780.py:200-254 | when the loop does not raise, its document is the sections of the paths fetched with status 200, in path order |
| Crawler.CrawlReportText | attached_assets/crawler_1762816768780.py:180-264 | the report's all_text is the sections of the site paths fetched with status 200, in path order |
| Crawler.EmptyCrawl | attached_assets/crawler_1762816768780.py:180-264 | when no path answers 200 the report has no pages, four empty link lists, no contacts and no text |
| ImageUrls.ObjectKey | client/src/lib/gcs-utils.ts:16-22 | the object key always lies under images/; it is the path without one leading slash when that already starts with images/, and that path prefixed with images/ otherwise |
| ImageUrls.GetBucketUrl | client/src/lib/gcs-utils.ts:39-41 | the bucket URL; GetImageUrl states that every image URL is this URL, a slash, then the object key |
| ImageUrls.GetImageUrl | client/src/lib/gcs-utils.ts:15-25 | the URL is the bucket URL, a slash, then the object key |
| ImageUrls.SameUrlSameKey | client/src/lib/gcs-utils.ts:15-25 | two paths give the same URL exactly when they give the same object key |
| ImageUrls.LeadingSlashIgnored | client/src/lib/gcs-utils.ts:17 | a single leading slash does not change the URL |
| ImageUrls.OnlyOneSlashRemoved | client/src/lib/gcs-utils.ts:17 | only one leading slash is dropped; a second stays in the key |
| ImageUrls.ImagesPrefixNotDoubled | client/src/lib/gcs-utils.ts:20-22 | a path already under images/ gives the same URL as without the prefix |
| ImageUrls.ObjectKeyFixed | client/src/lib/gcs-utils.ts:15-25 | the key is a fixed point: building from a key gives the same key and URL |
| ImageUrls.GetImageUrls | client/src/lib/gcs-utils.ts:32-34 | one URL per path, in order |
| ImageUrls.GetImageUrlsAppend | client/src/lib/gcs-utils.ts:32-34 | the list version distributes over concatenation |
| TimelineImages.BuildFallbackSource | client/src/lib/timeline-images.ts:6-17 | the fallback source starts with a slash, its srcset is that path at 1x, it has no placeholder, is 960 by 640, and its aspect ratio is width over height |
| TimelineImages.FallbackPath | client/src/lib/timeline-images.ts:7-11 | a path starting with a slash is used as is and its srcset names it at 1x; any other goes under /images/ |
| TimelineImages.GetTimelineImageSource | client/src/lib/timeline-images.ts:19-23 | a path in the image map gives its entry; any other path gives the fallback source |
| TimelineImages.LookupIgnoresOtherEntries | client/src/lib/timeline-images.ts:22 | entries for other paths do not affect the lookup |
| SeoSchemas.FormatResponsibilities | client/src/components/seo/schemas.ts:4 | the bulleted text of a list of responsibilities; stated by ResponsibilityLines (one bulleted line per item) and FormatNothing (no items give the empty string) |
| SeoSchemas.ResponsibilityLines | client/src/components/seo/schemas.ts:4 | for items without line breaks the text has one line per item, each the item after a bullet |
| SeoSchemas.FormatNothing | client/src/components/seo/schemas.ts:4 | no items format as the empty string |
| SeoSchemas.BreadcrumbSchema | client/src/components/seo/schemas.ts:128-137 | the breadcrumb list of a trail; ListItems states its items and BreadcrumbRoundTrip that the trail is recovered from it in order |
| SeoSchemas.ListItems | client/src/components/seo/schemas.ts:130-136 | one list item per crumb, positioned from 1 and carrying its name and URL |
| SeoSchemas.BreadcrumbRoundTrip | client/src/components/seo/schemas.ts:128-137 | the trail is recovered in order from the breadcrumb list |
| SeoSchemas.BreadcrumbPositionsContinue | client/src/components/seo/schemas.ts:131-134 | positions of a concatenated trail continue from those of its first part |
| SeoSchemas.FaqSchema | client/src/components/seo/schemas.ts:139-150 | one question per FAQ, in order, with the answer as its accepted answer |
| SeoSchemas.FaqRoundTrip | client/src/components/seo/schemas.ts:139-150 | the questions and answers are recovered in order from the page |
| SeoSchemas.CreateProjectSchema | client/src/components/seo/schemas.ts:107-126 | the source-code schema of a project; ProjectRoundTrip states that the project is recovered from it |
| SeoSchemas.ProjectRoundTrip | client/src/components/seo/schemas.ts:107-126 | the project is recovered from its schema: optional fields stay as given and technologies become the languages |
| SeoSchemas.WebPageSchema | client/src/components/seo/schemas.ts:152-186 | name, description and url are the page's own; a missing or empty dateModified falls back to today's date; a breadcrumb list is present exactly when a trail was given, even an empty one |
| SeoSchemas.PageBreadcrumbMatches | client/src/components/seo/schemas.ts:177-185 | the page's breadcrumb items are those of breadcrumbSchema for the same trail |
| TimelineUpload.Extname | scripts/upload-timeline-images.ts:95 | the extension is empty or a dot followed by neither dot nor slash |
| TimelineUpload.ContentType | scripts/upload-timeline-images.ts:94-104 | the content type is the generic one or one of the table's |
| TimelineUpload.ExtnameOfSuffix | scripts/upload-timeline-images.ts:95 | a slash-free name with a non-empty stem followed by a dot and a dot-free tail has exactly that tail (with its dot) as extension |
| TimelineUpload.JpgSuffix | scripts/upload-timeline-images.ts:95-97 | a slash-free name with a non-empty stem before .jpg is image/jpeg |
| TimelineUpload.LastExtensionCounts | scripts/upload-timeline-images.ts:95 | only the last extension counts: a.png.jpg is image/jpeg |
| TimelineUpload.ExtensionCaseIgnored | scripts/upload-timeline-images.ts:95 | for a slash-free name with a non-empty stem, the case of the extension's letters does not change the content type |
| TimelineUpload.LowersToKey | scripts/upload-timeline-images.ts:95-103 | a slash-free name with a non-empty stem whose extension lower-cases to a table key gets that key's type |
| TimelineUpload.UpperCaseKeys | scripts/upload-timeline-images.ts:95-102 | the upper-case forms .JPG, .JPEG, .PNG, .GIF and .WEBP lower-case to the table's keys |
| TimelineUpload.UpperCaseJpg | scripts/upload-timeline-images.ts:95-97 | a slash-free name with a non-empty stem before .JPG is image/jpeg |
| TimelineUpload.NoExtensionIsGeneric | scripts/upload-timeline-images.ts:103 | a name without an extension gets application/octet-stream |
| TimelineUpload.NoDotIsGeneric | scripts/upload-timeline-images.ts:103 | a name without a dot gets application/octet-stream |
| TimelineUpload.DotFileIsGeneric | scripts/upload-timeline-images.ts:103 | a dot-file such as .jpg has no extension and gets application/octet-stream |
| TimelineUpload.TableLookup | scripts/upload-timeline-images.ts:96-103 | read entry by entry, the table gives image/jpeg exactly for .jpg and .jpeg, image/png, image/gif and image/webp exactly for their own extension, and application/octet-stream exactly for an extension not in it |
| TimelineUpload.ContentTypeTable | scripts/upload-timeline-images.ts:95-103 | the same, for the lower-cased extension of any file name |
| TimelineUpload.TimelineJpgImage | scripts/upload-timeline-images.ts:30 | the listed image with the upper-case .JPG extension is uploaded as image/jpeg |
| TimelineUpload.UploadEach | scripts/upload-timeline-images.ts:56-86 | every image counts exactly once, as a success or a failure; the successes are the images found and accepted; the requests made are, in order, those of the images found on disk |
| TimelineUpload.UploadImages | scripts/upload-timeline-images.ts:50-86 | the same, over the script's list of 32 images |
| TimelineUpload.AttemptedImages | scripts/upload-timeline-images.ts:59-69 | an image's upload is attempted exactly when it is in the list and found on disk |
| TimelineUpload.AllUploaded | scripts/upload-timeline-images.ts:56-86 | when every image is present and accepted, all count as successes |

## Left out

- Fetching, `time.sleep`, progress printing, `save_results` and `main` are not modelled. The response for each path is an input; network errors appear as status 0.
- The timestamp of `crawl_site` is a parameter rather than a `time.strftime` reading.
- `urljoin` is modelled as a total function. Python's `urljoin` raises `ValueError` on some malformed hrefs (for example `//[x`, an unclosed IPv6 host); `extract_links` does not catch it, so such a page would end the crawl. The model has no such error outcome.
- BeautifulSoup, `re.findall`, `json.loads` and `urljoin` are inputs (`CrawlerConfig.Collaborators`). Regular-expression matching, HTML parsing and JSON decoding are not modelled; the pattern constants are kept as data.
- `extract_metadata` is not part of this model. A page's metadata is whatever the parser input reports for it.
- ContactExtractor.ContactInfoShape: each page's lists come from `list(set(..))` in hash order in the source. The model picks ascending order, and the contract states only duplicate-freedom and membership.
- The phone `IndexError` is modelled as written: the crawl ends with an error outcome. The model does not guess which numbers the author meant to collect.
- TimelineUpload.ContentType: `toLowerCase` is modelled for ASCII letters only; other characters are kept as they are. Only two non-ASCII characters lower to text holding an ASCII letter. U+212A (Kelvin sign) becomes `k`, which is in none of the table's extensions. U+0130 becomes `i` followed by the combining mark U+0307, and the mark stays. Neither can turn an extension into one of the table's keys, so the content type is unaffected.
- The upload script's storage calls (`bucket.upload`), `fs.existsSync`, `path.join` with the working directory, the environment-derived bucket name and console output are left out. Whether a file exists and whether its upload completes are input predicates on the image name, `present` and `accepted`; the request for a name is fixed by `TimelineUpload.RequestFor`.
- TimelineImages.GetTimelineImageSource: the contents of the generated image map are a parameter. JavaScript prototype keys (such as `constructor`) that an object lookup would also find are not modelled.
- `webPageSchema`'s `new Date()` default is a `today` parameter.
- The constant `"@type"` fields of the schema objects are implicit in the datatype constructors. The other exported schema constants in `schemas.ts` (person, website, organisation and so on) are static data, not operations.
- The React components, the server and the other scripts are not part of this model.
