/**
 * brunner.py: a sitemap reader with a fixed namespace (sitemaps.org 0.9) that looks only
 * at the root's direct `url` children, normalises each last-modified date with a date
 * parser, reports failed fetches and malformed documents, and appends only non-empty
 * per-source lists.
 *
 * The date parser is a parameter: `parse(text)` is `Some(iso)` when
 * `parser.parse(text).isoformat()` returns `iso` and `None` when it raises ValueError.
 */
module Brunner {
  import opened Seqs
  import opened Xml
  import opened Records
  import opened Search

  const NotProvided: string := "Not provided"
  const InvalidDate: string := "Invalid date format"
  const NoArticles: string := "No articles were found. Please check the sitemap URLs."

  type DateParser = string -> Option<string>

  /** The error `parse_sitemap` shows with `st.error` before returning an empty list. */
  datatype Report = HttpError(status: int) | XmlError

  /** How `parse_sitemap` ends: with its list, with a reported error and an empty list,
      or with an exception that escapes it. */
  datatype Ingest<T> = Ingested(items: seq<T>) | Reported(report: Report) | Raised(exception: Exception)

  /** The `Last Modified` value of one entry. */
  function LastModifiedOf(entry: Element, parse: DateParser): (r: Result<Option<string>>)
    ensures Find(entry, SitemapNamespace + "lastmod").None? ==> r == Ok(Some(NotProvided))
    ensures r.Raise? <==>
              Find(entry, SitemapNamespace + "lastmod").Some? &&
              Find(entry, SitemapNamespace + "lastmod").value.text.None?
    ensures r.Raise? ==> r.exception == TypeError
  {
    match Find(entry, SitemapNamespace + "lastmod")
    case None => Ok(Some(NotProvided))
    case Some(x) =>
      if x.text == Some(NotProvided) then Ok(x.text)
      else match x.text
        case None => Raise(TypeError)
        case Some(text) =>
          match parse(text)
          case Some(iso) => Ok(Some(iso))
          case None => Ok(Some(InvalidDate))
  }

  /** The dict for one entry; `.find('ns:loc').text` raises when the entry has no `loc`. */
  function EntryRow(entry: Element, parse: DateParser): Result<Row>
  {
    match Find(entry, SitemapNamespace + "loc")
    case None => Raise(AttributeError("text"))
    case Some(loc) =>
      match LastModifiedOf(entry, parse)
      case Raise(e) => Raise(e)
      case Ok(lastmod) => Ok(Entry(loc.text, lastmod))
  }

  /** A loop whose turns give the outcomes in order: the first exception aborts it,
      otherwise it yields one value per turn. */
  function Gathered<T>(outcomes: seq<Result<T>>): Result<seq<T>>
  {
    if outcomes == [] then Ok([])
    else
      var n := |outcomes| - 1;
      match Gathered(outcomes[..n])
      case Raise(e) => Raise(e)
      case Ok(values) =>
        match outcomes[n]
        case Raise(e) => Raise(e)
        case Ok(v) => Ok(values + [v])
  }

  /** What each entry gives, in document order. */
  function EntryOutcomes(entries: seq<Element>, parse: DateParser): (r: seq<Result<Row>>)
    ensures |r| == |entries|
    ensures forall k :: 0 <= k < |entries| ==> r[k] == EntryRow(entries[k], parse)
  {
    seq(|entries|, k requires 0 <= k < |entries| => EntryRow(entries[k], parse))
  }

  /** The loop over entries. */
  function EntriesRows(entries: seq<Element>, parse: DateParser): Result<seq<Row>>
  {
    Gathered(EntryOutcomes(entries, parse))
  }

  /** What `parse_sitemap` does with a response. */
  function SitemapOutcome(response: Response, parse: DateParser): Ingest<Row>
  {
    if response.status != HttpOk then Reported(HttpError(response.status))
    else match response.body
      case Malformed => Reported(XmlError)
      case Parsed(root) =>
        match EntriesRows(FindAll(root, SitemapNamespace + "url"), parse)
        case Raise(e) => Raised(e)
        case Ok(rows) => Ingested(rows)
  }

  /** An entry is kept exactly when it has a `loc` and its `lastmod`, if present, has
      text; its date is "Not provided" when `lastmod` is absent (the parser is not
      consulted), the parser's output when it succeeds, "Invalid date format" when it
      fails, and the text itself when that text is literally "Not provided". */
  lemma EntryRowSpec(entry: Element, parse: DateParser)
    ensures EntryRow(entry, parse).Ok? <==>
              Find(entry, SitemapNamespace + "loc").Some? &&
              (Find(entry, SitemapNamespace + "lastmod").Some? ==>
                 Find(entry, SitemapNamespace + "lastmod").value.text.Some?)
    ensures Find(entry, SitemapNamespace + "loc").None? ==>
              EntryRow(entry, parse) == Raise(AttributeError("text"))
    ensures EntryRow(entry, parse).Ok? ==>
              var row := EntryRow(entry, parse).value;
              var lastmod := Find(entry, SitemapNamespace + "lastmod");
              row.Keys == {UrlKey, LastModifiedKey} &&
              row[UrlKey] == Find(entry, SitemapNamespace + "loc").value.text &&
              (lastmod.None? ==> row[LastModifiedKey] == Some(NotProvided)) &&
              (lastmod.Some? && lastmod.value.text == Some(NotProvided) ==>
                 row[LastModifiedKey] == Some(NotProvided)) &&
              (lastmod.Some? && lastmod.value.text.Some? && lastmod.value.text != Some(NotProvided) ==>
                 row[LastModifiedKey] ==
                   if parse(lastmod.value.text.value).Some? then parse(lastmod.value.text.value)
                   else Some(InvalidDate))
  {
  }

  /** The "Not provided" marker is never handed to the parser: an entry without
      `lastmod` gets the same row whatever the parser does. */
  lemma MissingDateIgnoresParser(entry: Element, parse: DateParser, other: DateParser)
    requires Find(entry, SitemapNamespace + "lastmod").None?
    ensures EntryRow(entry, parse) == EntryRow(entry, other)
  {
  }

  /** The loop never skips a turn: it succeeds exactly when every turn does, and then
      yields every turn's value, in order. */
  lemma {:induction false} GatheredSpec<T>(outcomes: seq<Result<T>>)
    ensures Gathered(outcomes).Ok? <==> forall k :: 0 <= k < |outcomes| ==> outcomes[k].Ok?
    ensures Gathered(outcomes).Ok? ==>
              |Gathered(outcomes).value| == |outcomes| &&
              forall k :: 0 <= k < |outcomes| ==> Gathered(outcomes).value[k] == outcomes[k].value
  {
    if outcomes != [] {
      var n := |outcomes| - 1;
      var prefix := outcomes[..n];
      GatheredSpec(prefix);
      PrefixStep(outcomes, n);
      WholePrefix(outcomes);
      if Gathered(outcomes).Ok? {
        var values := Gathered(prefix).value;
        assert Gathered(outcomes).value == values + [outcomes[n].value];
      }
    }
  }

  /** The loop never drops an entry: it succeeds exactly when every entry does, and then
      yields one row per entry, in order. */
  lemma EntriesRowsSpec(entries: seq<Element>, parse: DateParser)
    ensures EntriesRows(entries, parse).Ok? <==> forall e :: e in entries ==> EntryRow(e, parse).Ok?
    ensures EntriesRows(entries, parse).Ok? ==>
              |EntriesRows(entries, parse).value| == |entries| &&
              forall k :: 0 <= k < |entries| ==>
                EntriesRows(entries, parse).value[k] == EntryRow(entries[k], parse).value
  {
    GatheredSpec(EntryOutcomes(entries, parse));
    if forall k :: 0 <= k < |entries| ==> EntryRow(entries[k], parse).Ok? {
      forall e | e in entries ensures EntryRow(e, parse).Ok? {
        var k :| 0 <= k < |entries| && entries[k] == e;
      }
    }
  }

  /** When it fails, it fails with the exception of the first entry that raises. */
  lemma FirstRaiseWins(entries: seq<Element>, j: nat, parse: DateParser)
    requires j < |entries| && EntryRow(entries[j], parse).Raise?
    requires forall k :: 0 <= k < j ==> EntryRow(entries[k], parse).Ok?
    ensures EntriesRows(entries, parse) == Raise(EntryRow(entries[j], parse).exception)
  {
    var outcomes := EntryOutcomes(entries, parse);
    GatheredSpec(outcomes[..j]);
    GatheredStep(outcomes, j);
    GatheredStop(outcomes, j + 1);
  }

  /** One more turn of the loop. */
  lemma GatheredStep<T>(outcomes: seq<Result<T>>, i: nat)
    requires i < |outcomes|
    ensures Gathered(outcomes[..i + 1]) ==
              match Gathered(outcomes[..i])
              case Raise(e) => Raise(e)
              case Ok(values) =>
                match outcomes[i]
                case Raise(e) => Raise(e)
                case Ok(v) => Ok(values + [v])
  {
    PrefixStep(outcomes, i);
  }

  /** Once the loop has raised, later turns do not matter. */
  lemma {:induction false} GatheredStop<T>(outcomes: seq<Result<T>>, i: nat)
    requires i <= |outcomes|
    requires Gathered(outcomes[..i]).Raise?
    ensures Gathered(outcomes) == Gathered(outcomes[..i])
    decreases |outcomes| - i
  {
    if i < |outcomes| {
      GatheredStep(outcomes, i);
      GatheredStop(outcomes, i + 1);
    } else {
      WholePrefix(outcomes);
    }
  }

  /** The current contents of what `parse_sitemap` returned. */
  function View(outcome: Ingest<Article>): Ingest<Row>
    reads if outcome.Ingested? then set a | a in outcome.items else {}
  {
    match outcome
    case Ingested(items) => Ingested(Rows(items))
    case Reported(r) => Reported(r)
    case Raised(e) => Raised(e)
  }

  /** The body of the loop over `url` children: the new dict for one entry, or the
      exception it raises. */
  method NewArticle(entry: Element, parse: DateParser) returns (article: Result<Article>)
    ensures article.Ok? ==> fresh(article.value) && EntryRow(entry, parse) == Ok(article.value.fields)
    ensures article.Raise? ==> EntryRow(entry, parse) == Raise(article.exception)
  {
    var locElem := Find(entry, SitemapNamespace + "loc");
    if locElem.None? {
      return Raise(AttributeError("text"));
    }
    var lastmodElem := Find(entry, SitemapNamespace + "lastmod");
    var lastmod := if lastmodElem.Some? then lastmodElem.value.text else Some(NotProvided);
    if lastmod != Some(NotProvided) {
      if lastmod.None? {
        return Raise(TypeError);
      }
      var parsed := parse(lastmod.value);
      lastmod := if parsed.Some? then parsed else Some(InvalidDate);
    }
    var a := new Article(locElem.value.text, lastmod);
    return Ok(a);
  }

  /** The loop over the root's `url` children. */
  method BuildArticles(entries: seq<Element>, parse: DateParser) returns (articles: Result<seq<Article>>)
    ensures articles.Ok? ==> Distinct(articles.value) && forall a :: a in articles.value ==> fresh(a)
    ensures articles.Ok? ==> EntriesRows(entries, parse) == Ok(Rows(articles.value))
    ensures articles.Raise? ==> EntriesRows(entries, parse) == Raise(articles.exception)
  {
    ghost var outcomes := EntryOutcomes(entries, parse);
    var built: seq<Article> := [];
    for i := 0 to |entries|
      invariant Distinct(built) && forall a :: a in built ==> fresh(a)
      invariant Gathered(outcomes[..i]) == Ok(Rows(built))
    {
      GatheredStep(outcomes, i);
      var article := NewArticle(entries[i], parse);
      if article.Raise? {
        GatheredStop(outcomes, i + 1);
        return Raise(article.exception);
      }
      RowsAppend(built, article.value);
      built := built + [article.value];
    }
    WholePrefix(outcomes);
    return Ok(built);
  }

  /** `parse_sitemap`. */
  method ParseSitemap(response: Response, parse: DateParser) returns (outcome: Ingest<Article>)
    ensures outcome.Ingested? ==> Distinct(outcome.items) && forall a :: a in outcome.items ==> fresh(a)
    ensures View(outcome) == SitemapOutcome(response, parse)
  {
    if response.status != HttpOk {
      return Reported(HttpError(response.status));
    }
    if response.body.Malformed? {
      return Reported(XmlError);
    }
    var articles := BuildArticles(FindAll(response.body.root, SitemapNamespace + "url"), parse);
    if articles.Raise? {
      return Raised(articles.exception);
    }
    return Ingested(articles.value);
  }

  /** What the sources' loop in `main` has gathered: the stamped, non-empty lists and
      the errors shown so far, or the exception that ended it. */
  datatype Collected =
    | Collected(fetched: seq<(string, seq<Row>)>, reports: seq<Report>)
    | Aborted(exception: Exception, reports: seq<Report>)

  function Collect(sources: seq<Source>, parse: DateParser): Collected
  {
    if sources == [] then Collected([], [])
    else
      var n := |sources| - 1;
      match Collect(sources[..n], parse)
      case Aborted(e, reports) => Aborted(e, reports)
      case Collected(fetched, reports) =>
        match SitemapOutcome(sources[n].response, parse)
        case Raised(e) => Aborted(e, reports)
        case Reported(r) => Collected(fetched, reports + [r])
        case Ingested(rows) =>
          if rows == [] then Collected(fetched, reports)
          else Collected(fetched + [(sources[n].name, rows)], reports)
  }

  /** What the page shows once every source has been read. */
  function Present(all: seq<Row>, query: string): (shown: Display)
    ensures all == [] <==> shown == Alert(NoArticles)
    ensures all != [] && query == "" ==> shown == Table(all)
    ensures all != [] && query != "" ==>
              shown.Table? && forall x :: x in shown.rows <==> x in all && UrlMatches(x, query)
  {
    if all == [] then Alert(NoArticles) else Table(Filter(all, query))
  }

  /** `main` as a whole: the final display and the errors shown on the way. */
  function Run(sources: seq<Source>, parse: DateParser, query: string): (Display, seq<Report>)
  {
    match Collect(sources, parse)
    case Aborted(e, reports) => (Crash(e), reports)
    case Collected(fetched, reports) => (Present(Aggregated(fetched), query), reports)
  }

  /** Skipping an empty list (`if articles:`) gives the same table as appending it. */
  lemma EmptyListContributesNothing(fetched: seq<(string, seq<Row>)>, name: string)
    ensures Aggregated(fetched + [(name, [])]) == Aggregated(fetched)
  {
    Snoc(fetched, (name, []));
  }

  /** One turn of `main`'s loop: read a source and, if it gave a non-empty list, stamp
      it with the source's name. */
  method ReadSource(source: Source, parse: DateParser) returns (outcome: Ingest<Article>)
    ensures outcome.Ingested? ==> Distinct(outcome.items) && forall a :: a in outcome.items ==> fresh(a)
    ensures outcome.Ingested? ==>
              SitemapOutcome(source.response, parse).Ingested? &&
              Rows(outcome.items) == Labelled(SitemapOutcome(source.response, parse).items, source.name)
    ensures !outcome.Ingested? ==> View(outcome) == SitemapOutcome(source.response, parse)
  {
    outcome := ParseSitemap(source.response, parse);
    if outcome.Ingested? && outcome.items != [] {
      StampWebsite(outcome.items, source.name);
    }
  }

  /** `main`. */
  method ShowArticles(sources: seq<Source>, parse: DateParser, query: string) returns (shown: Display, reports: seq<Report>)
    ensures (shown, reports) == Run(sources, parse, query)
  {
    var all: seq<Article> := [];
    reports := [];
    ghost var fetched: seq<(string, seq<Row>)> := [];
    for i := 0 to |sources|
      invariant Distinct(all) && forall a :: a in all ==> fresh(a)
      invariant Collect(sources[..i], parse) == Collected(fetched, reports)
      invariant Rows(all) == Aggregated(fetched)
    {
      PrefixStep(sources, i);
      ghost var before := Rows(all);
      var outcome := ReadSource(sources[i], parse);
      match outcome {
        case Raised(e) =>
          CollectAbortSticks(sources, i + 1, parse);
          return Crash(e), reports;
        case Reported(r) =>
          reports := reports + [r];
        case Ingested(articles) =>
          assert forall x :: x in all ==> x !in articles;
          assert Rows(all) == before;
          if articles != [] {
            DistinctConcat(all, articles);
            RowsConcat(all, articles);
            AggregatedSnoc(fetched, (sources[i].name, SitemapOutcome(sources[i].response, parse).items));
            all := all + articles;
            fetched := fetched + [(sources[i].name, SitemapOutcome(sources[i].response, parse).items)];
          }
      }
    }
    WholePrefix(sources);
    var rows := Rows(all);
    shown := if rows == [] then Alert(NoArticles) else Table(Filter(rows, query));
  }

  /** `if articles:` keeps only non-empty lists: every list gathered has a row. */
  lemma {:induction false} CollectSkipsEmpty(sources: seq<Source>, parse: DateParser)
    ensures Collect(sources, parse).Collected? ==>
              forall k :: 0 <= k < |Collect(sources, parse).fetched| ==> Collect(sources, parse).fetched[k].1 != []
  {
    if sources != [] {
      CollectSkipsEmpty(sources[..|sources| - 1], parse);
    }
  }

  /** One more source read by `main`'s loop. */
  lemma CollectStep(sources: seq<Source>, i: nat, parse: DateParser)
    requires i < |sources|
    ensures Collect(sources[..i + 1], parse) ==
              match Collect(sources[..i], parse)
              case Aborted(e, reports) => Aborted(e, reports)
              case Collected(fetched, reports) =>
                match SitemapOutcome(sources[i].response, parse)
                case Raised(e) => Aborted(e, reports)
                case Reported(r) => Collected(fetched, reports + [r])
                case Ingested(rows) =>
                  if rows == [] then Collected(fetched, reports)
                  else Collected(fetched + [(sources[i].name, rows)], reports)
  {
    PrefixStep(sources, i);
  }

  /** Once a source has raised, later sources are never read. */
  lemma {:induction false} CollectAbortSticks(sources: seq<Source>, i: nat, parse: DateParser)
    requires i <= |sources|
    requires Collect(sources[..i], parse).Aborted?
    ensures Collect(sources, parse) == Collect(sources[..i], parse)
    decreases |sources| - i
  {
    if i < |sources| {
      CollectStep(sources, i, parse);
      CollectAbortSticks(sources, i + 1, parse);
    } else {
      WholePrefix(sources);
    }
  }
}
