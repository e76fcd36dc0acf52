# Sitemap article search, modelled in Dafny

The repository is a handful of small Python scripts. Each one fetches the XML sitemaps
of a few blogs, turns every `<url>` entry into an article record (its URL and its
last-modified date), tags every record with the name of the website it came from, and
then either shows all records in one Streamlit table that a search box filters by URL,
or writes them to a CSV file. This project models the readers' core in Dafny and proves
what they promise:

- `mainv2.py`, module `MainV2`. The namespace is taken from the root tag. Every `url`
  element anywhere below the root is visited, and no entry is ever dropped. Three
  spellings of the last-modified element are tried. The table is searchable.
- `brunner.py`, module `Brunner`. The namespace is fixed to sitemaps.org 0.9. Only the
  root's direct `url` children are read. Dates go through a date parser. Failed fetches
  and malformed XML are reported, and empty lists are skipped.
- `test3.py`, module `Test3`. It exports one sitemap to CSV, with a title derived from
  each URL by `extract_title`.
- `main1.py`, module `Main1`. This is a `main` that stamps, concatenates and searches
  lists whose `parse_sitemap` is not defined in that file.

Shared modules:

- `Xml`: the parsed document, plus ElementTree's `find`, `findall` and `.//` search.
- `Ascii`: ASCII case mapping and case-insensitive substring search.
- `Records`: the article dicts as mutable `Article` objects, the exceptions that escape
  a reader, and stamping and aggregating across sources.
- `Search`: the URL filter and what a page finally shows.
- `Seqs`: slicing facts stated for any element type.

The loops of the scripts are imperative methods: `parse_sitemap` and `main` in mainv2.py
and brunner.py, `main` in main1.py, and the top-level CSV loop of test3.py. Each method
is proved against a function that states its result, and the properties are proved
about those functions. `extract_title` is pure and is modelled by functions. The dicts are objects because `main` updates them in place:
`article['Website'] = name`.

## Model

| member | source | states |
|---|---|---|
| Xml.FirstWithTag | mainv2.py:32 | the index found is the first child carrying the tag; every earlier child carries another tag |
| Xml.FindSpec | brunner.py:28-29 | `find` returns None exactly when no direct child carries the tag, and otherwise returns the earliest such child |
| Xml.FlatDescendantsAreChildren | mainv2.py:31 | when no `url` element sits below a child of the root, the `.//url` search of mainv2.py and the direct `findall('ns:url')` of brunner.py visit the same elements in the same order |
| Xml.ChildrenAmongDescendants | mainv2.py:31 | every direct `url` child is also found by the descendant search |
| Xml.LocalName | mainv2.py:26-28 | the local part of a Clark-notation tag is what follows its first `}`, or the whole tag when it has none |
| Xml.LocalNameOfClark | mainv2.py:26-31 | the local part of `{uri}local` is `local`, whatever else the URI holds, spaces included |
| Xml.SpacedTagNeverFound | mainv2.py:33-37 | in a document the XML parser produced, no local name has a space, so a tag whose local part has one is never found under any element; spaces in a namespace URI are allowed |
| Search.Select | mainv2.py:59 | the rows kept are exactly the input rows whose `URL` contains the query, ignoring case, with None never matching |
| Search.Filter | mainv2.py:58-61 | an empty query keeps every row unchanged; a non-empty one keeps exactly the matching rows |
| Search.SelectIsSubsequence | brunner.py:60 | the filtered table keeps the original order of its rows |
| Search.SelectCounts | brunner.py:60 | filtering keeps each matching row as many times as it occurs, and drops every other row |
| Search.SelectAppend | main1.py:23 | filtering the concatenated sources equals concatenating each source's filtered rows |
| Search.FilterIdempotent | main1.py:22-25 | searching the filtered table again for the same query changes nothing |
| Records.Entry | brunner.py:36 | the record has exactly the keys `URL` and `Last Modified`, holding the given values |
| Records.Labelled | mainv2.py:50-51 | stamping adds the key `Website` with the source's name, and keeps every other key and value and the number of rows |
| Records.StampWebsite | mainv2.py:50-51 | after the loop, the list's dicts hold the stamped rows of their old contents |
| Records.AggregatedAppend | mainv2.py:48-52 | aggregating two runs of sources equals concatenating their separate aggregates |
| Records.AggregatedAt | mainv2.py:48-52 | a source's stamped rows sit after every earlier source's rows and before every later source's rows |
| Records.Aggregated | mainv2.py:47-52 | `all_articles`: each source's stamped rows, concatenated in source order; no row is added or lost, so the total is the sum of the per-source counts |
| Records.AggregatedRows | mainv2.py:48-52 | every aggregated row carries the `Website` of one of the sources |
| Records.Article.Put | mainv2.py:51 | `article[key] = value` updates that one key of the dict in place |
| MainV2.BeforeFirst | mainv2.py:28 | `split('}')[0]` is a prefix without `}`, followed in the tag by `}` when the tag has one, and the whole tag otherwise |
| MainV2.Namespace | mainv2.py:26-31 | the prefix is empty when the root tag has no `}`, so the bare name `url` is searched; otherwise it is a prefix of the tag ending at its first `}` |
| MainV2.NamespaceOfQualifiedTag | mainv2.py:26-28 | for a Clark-notation root tag `{uri}local`, the prefix is exactly `{uri}` |
| MainV2.LocalNameUnderNamespace | mainv2.py:28-33 | a name looked up under the document's prefix keeps its own local part |
| MainV2.FirstVariant | mainv2.py:33-39 | the date is "Not provided" or the text of one of the spellings present |
| MainV2.FirstVariantSpec | mainv2.py:33-39 | with no spelling present the date is "Not provided"; otherwise it is the text of the earliest spelling present |
| MainV2.LookupLastModified | mainv2.py:34-39 | the inner loop's value is the first-spelling-wins date |
| MainV2.SitemapRowsShape | mainv2.py:16-42 | a failed fetch or unparsable body gives no records; otherwise there is one record per `url` element, in document order, with exactly the keys `URL` and `Last Modified`, the `loc` text or "URL not found", and the first spelling's text or "Not provided" |
| MainV2.SpacedSpellingAbsent | mainv2.py:33-37 | in any parsed document, whatever its namespace, no `url` element has a child under the third spelling, `Last Modified` |
| MainV2.SpacedSpellingIsDead | mainv2.py:33 | the third spelling can never match in a parsed document, so only the first two spellings decide the date |
| MainV2.NewArticle | mainv2.py:32-40 | one turn of the loop makes a new dict holding the entry's record |
| MainV2.BuildArticles | mainv2.py:30-40 | the loop builds one new, distinct dict per `url` element, holding that element's record |
| MainV2.ParseSitemap | mainv2.py:16-42 | `parse_sitemap` returns new, distinct dicts whose contents are the records of the response |
| MainV2.Present | mainv2.py:54-63 | with no records, the `Last Modified` column is missing and a KeyError escapes; otherwise the table shows every record, or exactly the matching ones for a non-empty query |
| MainV2.ParseAndStamp | mainv2.py:49-51 | one source's dicts are new, and they hold its records stamped with its name |
| MainV2.ShowArticles | mainv2.py:44-63 | the page shows `Present` of all sources' stamped records, concatenated in source order |
| Brunner.LastModifiedOf | brunner.py:29-35 | a missing `lastmod` gives "Not provided"; a `lastmod` without text, and only that, raises TypeError from the parser |
| Brunner.EntryRowSpec | brunner.py:27-36 | an entry is kept exactly when it has a `loc` and any `lastmod` has text. A missing `loc` raises AttributeError. The date is "Not provided" without `lastmod`, the parser's ISO text on success, and "Invalid date format" on failure; "Not provided" text is kept as is |
| Brunner.MissingDateIgnoresParser | brunner.py:30-31 | an entry without `lastmod` gets the same record whatever the date parser does |
| Brunner.GatheredSpec | brunner.py:27-37 | a loop that stops at the first exception succeeds exactly when every turn does, and then yields every turn's value in order |
| Brunner.EntriesRowsSpec | brunner.py:27-37 | `parse_sitemap` succeeds exactly when every `url` child gives a record, and then returns one record per child, in order |
| Brunner.FirstRaiseWins | brunner.py:27-37 | when the loop fails, the exception is that of the first entry that raises |
| Brunner.NewArticle | brunner.py:28-36 | one turn of the loop makes a new dict holding the entry's record, or raises that entry's exception |
| Brunner.BuildArticles | brunner.py:26-37 | the loop returns new, distinct dicts holding the records, or the exception the first failing entry raises |
| Brunner.ParseSitemap | brunner.py:16-41 | a non-200 status is reported as an HTTP error and malformed XML as an XML error, both with an empty list; otherwise the records come back or the exception escapes |
| Brunner.Present | brunner.py:54-65 | with no records, the error "No articles were found" is shown; otherwise the table shows every record, or exactly the matching ones for a non-empty query |
| Brunner.Collect | brunner.py:46-52 | `main`'s loop over sources: stops at the first exception, collects reports, and keeps each non-empty list with its source's name, in source order |
| Brunner.CollectSkipsEmpty | brunner.py:49-52 | every list the loop keeps has at least one row |
| Brunner.EmptyListContributesNothing | brunner.py:49 | skipping an empty list gives the same aggregate as appending it |
| Brunner.ReadSource | brunner.py:48-51 | a non-empty list of new dicts is stamped with its source's name; a report or an exception is passed on unchanged |
| Brunner.ShowArticles | brunner.py:43-65 | the page and the errors shown on the way are those of `Run`: every source in order, empty lists skipped, reports collected, and the first escaping exception ends `main` |
| Brunner.CollectAbortSticks | brunner.py:47-52 | once a source has raised, later sources are never read |
| Main1.Articles | main1.py:11 | every concatenated dict comes from one of the sources' lists |
| Main1.StampedRows | main1.py:7-11 | once each list is stamped with its source's name, the concatenated dicts hold the aggregated rows of all sources, in order |
| Main1.Present | main1.py:14-29 | no records give "No articles found."; an empty query shows every record; a non-empty query with no `URL` column raises KeyError; otherwise exactly the matching records are shown |
| Main1.StampAll | main1.py:6-11 | the loop stamps each list in place with its own source's name and concatenates the lists in source order |
| Main1.ShowArticles | main1.py:3-29 | the dicts end up holding the stamped rows of their old contents, and the page shows `Present` of those rows in source order |
| Test3.RStrip | test3.py:9 | `rstrip('/')` is a prefix of the URL that does not end in '/', and only '/' follows it |
| Test3.LastSegment | test3.py:9 | `split('/')[-1]` holds no '/', is a suffix of its input, and is preceded by '/' when it is shorter than the input |
| Test3.Unquote | test3.py:10 | decoding never lengthens the slug |
| Test3.Title | test3.py:10 | `str.title` keeps the length |
| Test3.ExtractTitle | test3.py:7-11 | `extract_title`: the title is never longer than the URL |
| Test3.SlugHasNoSlash | test3.py:9 | the slug never contains '/' |
| Test3.SlugIsLastSegment | test3.py:9 | the slug is the stripped URL's last segment, after the last '/' before the trailing slashes |
| Test3.OnlySlashesGiveEmptyTitle | test3.py:7-11 | a URL that is empty or made only of slashes gives an empty title |
| Test3.UnquoteWithoutPercent | test3.py:10 | decoding leaves a slug without '%' unchanged |
| Test3.UnquoteUndoesPercentEncode | test3.py:10 | `unquote` inverts percent-encoding of ASCII text |
| Test3.Replace | test3.py:10 | `replace('-', ' ')` keeps the length, replaces every '-' and keeps every other character |
| Test3.TitleSpec | test3.py:10 | `str.title` keeps the length; each character is upper-cased when the character before it is not a letter (or it is first), and lower-cased otherwise; non-letters are kept |
| Test3.TitleKeepsLetters | test3.py:10 | title-casing changes only case, and title-casing twice changes nothing more |
| Test3.PlainNameIsTitled | test3.py:7-11 | a URL without '/', '%' or '-' is only title-cased |
| Test3.MissingUrlTitle | test3.py:43-47 | an entry without `loc` is written with the title "No Url" |
| Test3.ExtractTitleHasNoHyphen | test3.py:10 | a title never contains '-', not even one decoded from `%2D` |
| Test3.ExtractTitleSpec | test3.py:7-11 | the title is the decoded last segment with '-' turned into ' ', then title-cased |
| Test3.EntryLineSpec | test3.py:39-44 | a missing `loc` gives "No URL" and a missing `lastmod` gives "Not provided"; otherwise their text is used, with a text-less `lastmod` written as an empty field; only a `loc` without text raises |
| Test3.WrittenSpec | test3.py:38-50 | the k-th line written is the k-th turn's line; the loop writes a line for every turn, or stops at the first turn that raises |
| Test3.EntryLinesSpec | test3.py:38-50 | the k-th row comes from the k-th `url` child, and the loop stops exactly at the first child whose `loc` has no text |
| Test3.ExportedSpec | test3.py:27-50 | a body that does not parse opens no file. Otherwise the file holds the header, then one row `[title, url, date]` per entry, up to the first entry that raises |
| Test3.CsvWriter.WriteRow | test3.py:50 | `writer.writerow(row)` appends the row to the file |
| Test3.WriteEntry | test3.py:39-50 | one turn writes the entry's row, or raises and writes nothing |
| Test3.WriteEntries | test3.py:38-50 | the rows written are the rendered lines, and the exception raised is the one that stopped the loop |
| Test3.ExportSitemap | test3.py:27-50 | the script's file and escaping exception are those of `Exported` |

## Left out

- Fetching (`requests.get`) is not modelled. A response is a status and a parsed-or-malformed body, and network exceptions from `requests` are not modelled.
- ElementTree's tokenising is not modelled. The parser's output is an `Element` tree, and text after a child (`tail`) and attributes are not represented.
- Brunner.ParseSitemap: the date parser (`dateutil.parser.parse(...).isoformat()`) is a parameter that returns an ISO string or None for ValueError. Other exceptions it may raise, such as OverflowError, are not modelled.
- Converting `Last Modified` with `pd.to_datetime(..., errors='coerce', utc=True)` is not modelled: the displayed rows keep the strings. The converted column is not searched.
- Search.UrlMatches: `str.contains` treats the query as a regular expression; the model treats it as a literal substring. Only ASCII letters are case-folded.
- Test3.Unquote decodes only `%XY` escapes of ASCII characters. Multi-byte UTF-8 escapes and the replacement of invalid sequences are not modelled.
- Test3.Title: `str.title` treats only ASCII letters as cased characters.
- Streamlit output is a `Display` value, and `st.error` messages are `Report` values. The message texts that embed the URL or the parser's error are not modelled.
- CSV quoting and the file itself are not modelled: a `CsvWriter` holds the rows written. The final success message of test3.py is not modelled.
- DataFrame layout is not modelled: the table is its rows. Columns filled with NaN for records that lack a key are not represented.
- Main1.ShowArticles: `parse_sitemap` and `sitemap_urls` are not defined in main1.py. The lists they give are the input, and they are required to be new dicts that are not shared between lists.
- rssV1.py and kevin2.py are not part of this model.
