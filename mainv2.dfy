/**
 * mainv2.py: a sitemap reader that takes the XML namespace from the document's own root
 * tag, finds every `url` element anywhere below the root, never drops an entry (a missing
 * `loc` becomes "URL not found"), looks the last-modified date up under three spellings,
 * and shows all sources' articles in one searchable table.
 */
module MainV2 {
  import opened Seqs
  import opened Xml
  import opened Records
  import opened Search

  const UrlNotFound: string := "URL not found"
  const NotProvided: string := "Not provided"

  /** `s.split(c)[0]`: the text before the first `c`, or all of `s` when it has none. */
  function BeforeFirst(s: string, c: char): (r: string)
    ensures r <= s && c !in r
    ensures c in s ==> |r| < |s| && s[|r|] == c
    ensures c !in s ==> r == s
  {
    if s == [] then []
    else if s[0] == c then []
    else [s[0]] + BeforeFirst(s[1..], c)
  }

  /** The namespace prefix taken from the root tag: empty when the tag has no `}`,
      otherwise the tag up to and including its first `}`. */
  function Namespace(tag: string): (ns: string)
    ensures '}' !in tag ==> ns == ""
    ensures '}' in tag ==> ns <= tag && |ns| > 0 && ns[|ns| - 1] == '}' && '}' !in ns[..|ns| - 1]
  {
    if '}' in tag then BeforeFirst(tag, '}') + "}" else ""
  }

  /** The text before the first `c` of `p + [c] + q` is `p` when `p` has no `c`. */
  lemma {:induction false} BeforeFirstOf(p: string, c: char, q: string)
    requires c !in p
    ensures BeforeFirst(p + [c] + q, c) == p
  {
    if p != [] {
      assert (p + [c] + q)[1..] == p[1..] + [c] + q;
      BeforeFirstOf(p[1..], c, q);
    }
  }

  /** For a tag in Clark notation the prefix is exactly the `{uri}` part, so the
      lookups `ns + "url"` etc. name elements of the document's own namespace. */
  lemma NamespaceOfQualifiedTag(uri: string, local: string)
    requires '}' !in uri
    ensures Namespace("{" + uri + "}" + local) == "{" + uri + "}"
  {
    var tag := "{" + uri + "}" + local;
    assert tag == ("{" + uri) + ['}'] + local;
    assert tag[|uri| + 1] == '}';
    BeforeFirstOf("{" + uri, '}', local);
  }

  /** A name looked up under the document's prefix keeps its own local part: the
      prefix is empty, or a `{uri}` whose only `}` is its last character. */
  lemma LocalNameUnderNamespace(tag: string, local: string)
    requires '}' !in local
    ensures LocalName(Namespace(tag) + local) == local
  {
    if '}' in tag {
      LocalNameOfClark(BeforeFirst(tag, '}'), local);
    }
  }

  /** The spellings of the last-modified element that are tried, in order. */
  function LastModifiedTags(ns: string): seq<string>
  {
    [ns + "lastmod", ns + "LastMod", ns + "Last Modified"]
  }

  /** The text of the first tag in `tags` that exists under `entry`, else "Not provided". */
  function FirstVariant(entry: Element, tags: seq<string>): (r: Option<string>)
    ensures r == Some(NotProvided) ||
            exists i :: 0 <= i < |tags| && Find(entry, tags[i]).Some? && r == Find(entry, tags[i]).value.text
  {
    if tags == [] then Some(NotProvided)
    else match Find(entry, tags[0])
      case Some(x) => x.text
      case None => FirstVariant(entry, tags[1..])
  }

  /** First match wins: with no spelling present the value is "Not provided"; otherwise
      it is the text of the earliest spelling present, the later ones unlooked at. */
  lemma {:induction false} FirstVariantSpec(entry: Element, tags: seq<string>)
    ensures (forall i :: 0 <= i < |tags| ==> Find(entry, tags[i]).None?) ==>
              FirstVariant(entry, tags) == Some(NotProvided)
    ensures forall i :: 0 <= i < |tags| && Find(entry, tags[i]).Some?
                          && (forall j :: 0 <= j < i ==> Find(entry, tags[j]).None?)
                        ==> FirstVariant(entry, tags) == Find(entry, tags[i]).value.text
  {
    if tags != [] {
      FirstVariantSpec(entry, tags[1..]);
      if Find(entry, tags[0]).None? {
        forall i | 0 < i < |tags| && Find(entry, tags[i]).Some?
                   && (forall j :: 0 <= j < i ==> Find(entry, tags[j]).None?)
          ensures FirstVariant(entry, tags) == Find(entry, tags[i]).value.text
        {
          assert tags[1..][i - 1] == tags[i];
          forall j | 0 <= j < i - 1 ensures Find(entry, tags[1..][j]).None? {
            assert tags[1..][j] == tags[j + 1];
          }
        }
        if forall i :: 0 <= i < |tags| ==> Find(entry, tags[i]).None? {
          forall j | 0 <= j < |tags| - 1 ensures Find(entry, tags[1..][j]).None? {
            assert tags[1..][j] == tags[j + 1];
          }
        }
      }
    }
  }

  /** The inner loop: try each spelling in turn and stop at the first one present. */
  method LookupLastModified(entry: Element, tags: seq<string>) returns (lastmod: Option<string>)
    ensures lastmod == FirstVariant(entry, tags)
  {
    lastmod := Some(NotProvided);
    for i := 0 to |tags|
      invariant FirstVariant(entry, tags) == FirstVariant(entry, tags[i..])
      invariant lastmod == Some(NotProvided)
    {
      assert tags[i..][1..] == tags[i + 1..];
      var found := Find(entry, tags[i]);
      if found.Some? {
        lastmod := found.value.text;
        break;
      }
    }
  }

  /** The `loc` text, or "URL not found" when the entry has no `loc`. */
  function LocOf(entry: Element, ns: string): Option<string>
  {
    match Find(entry, ns + "loc")
    case Some(x) => x.text
    case None => Some(UrlNotFound)
  }

  function EntryRow(entry: Element, ns: string): Row
  {
    Entry(LocOf(entry, ns), FirstVariant(entry, LastModifiedTags(ns)))
  }

  function EntryRows(entries: seq<Element>, ns: string): seq<Row>
  {
    seq(|entries|, k requires 0 <= k < |entries| => EntryRow(entries[k], ns))
  }

  /** The `url` elements the reader visits: all descendants of the root named `url`
      in the root's namespace, in document order. */
  function UrlEntries(root: Element): seq<Element>
  {
    FindAllDescendants(root, Namespace(root.tag) + "url")
  }

  /** What `parse_sitemap` returns for a response. */
  function SitemapRows(response: Response): seq<Row>
  {
    if response.status != HttpOk || response.body.Malformed? then []
    else EntryRows(UrlEntries(response.body.root), Namespace(response.body.root.tag))
  }

  /** A failed fetch or an unparsable body gives no articles; otherwise there is one
      record per `url` element, in document order, with exactly the keys `URL` and
      `Last Modified`, the `loc` text or "URL not found", and the first last-modified
      spelling found or "Not provided". */
  lemma SitemapRowsShape(response: Response)
    ensures response.status != HttpOk || response.body.Malformed? ==> SitemapRows(response) == []
    ensures response.status == HttpOk && response.body.Parsed? ==>
      var root := response.body.root;
      var ns := Namespace(root.tag);
      var entries := UrlEntries(root);
      var rows := SitemapRows(response);
      |rows| == |entries| &&
      forall k :: 0 <= k < |entries| ==>
        rows[k].Keys == {UrlKey, LastModifiedKey} &&
        entries[k].tag == ns + "url" &&
        (Find(entries[k], ns + "loc").None? ==> rows[k][UrlKey] == Some(UrlNotFound)) &&
        (Find(entries[k], ns + "loc").Some? ==> rows[k][UrlKey] == Find(entries[k], ns + "loc").value.text) &&
        rows[k][LastModifiedKey] == FirstVariant(entries[k], LastModifiedTags(ns))
  {
    if response.status == HttpOk && response.body.Parsed? {
      var root := response.body.root;
      var ns := Namespace(root.tag);
      var entries := UrlEntries(root);
      forall k | 0 <= k < |entries| ensures entries[k].tag == ns + "url" {
        assert entries[k] in entries;
      }
    }
  }

  /** The third spelling can never be found in a document the XML parser produced: its
      local part has a space, and no parsed local name has one. Only `lastmod` and
      `LastMod` are ever looked up to effect. */
  lemma SpacedSpellingIsDead(root: Element, entry: Element)
    requires WellFormed(root) && entry in UrlEntries(root)
    ensures FirstVariant(entry, LastModifiedTags(Namespace(root.tag)))
            == FirstVariant(entry, LastModifiedTags(Namespace(root.tag))[..2])
  {
    var tags := LastModifiedTags(Namespace(root.tag));
    SpacedSpellingAbsent(root, entry);
    var two := tags[..2];
    assert two[1..] == [tags[1]] && tags[1..] == [tags[1], tags[2]];
    assert [tags[1], tags[2]][1..] == [tags[2]] && [tags[1]][1..] == [] && [tags[2]][1..] == [];
    assert FirstVariant(entry, [tags[2]]) == Some(NotProvided);
  }

  lemma SpacedSpellingAbsent(root: Element, entry: Element)
    requires WellFormed(root) && entry in UrlEntries(root)
    ensures Find(entry, Namespace(root.tag) + "Last Modified").None?
  {
    var spaced := Namespace(root.tag) + "Last Modified";
    assert entry in IterAll(root.children);
    assert entry in Iter(root);
    LocalNameUnderNamespace(root.tag, "Last Modified");
    assert LocalName(spaced)[4] == ' ';
    SpacedTagNeverFound(root, entry, spaced);
  }

  /** The body of the loop over `url` elements: the dict for one entry. */
  method NewArticle(entry: Element, ns: string) returns (article: Article)
    ensures fresh(article) && article.fields == EntryRow(entry, ns)
  {
    var locElem := Find(entry, ns + "loc");
    var loc := if locElem.Some? then locElem.value.text else Some(UrlNotFound);
    var lastmod := LookupLastModified(entry, LastModifiedTags(ns));
    article := new Article(loc, lastmod);
  }

  /** The loop over `url` elements: one new dict per element, in order. */
  method BuildArticles(entries: seq<Element>, ns: string) returns (articles: seq<Article>)
    ensures Distinct(articles) && forall a :: a in articles ==> fresh(a)
    ensures Rows(articles) == EntryRows(entries, ns)
  {
    articles := [];
    for i := 0 to |entries|
      invariant Distinct(articles) && forall a :: a in articles ==> fresh(a)
      invariant |articles| == i
      invariant forall k :: 0 <= k < i ==> articles[k].fields == EntryRow(entries[k], ns)
    {
      var article := NewArticle(entries[i], ns);
      articles := articles + [article];
    }
  }

  /** `parse_sitemap`: an empty list on a failed fetch or an unparsable body, otherwise
      one new dict per `url` element. */
  method ParseSitemap(response: Response) returns (articles: seq<Article>)
    ensures Distinct(articles) && forall a :: a in articles ==> fresh(a)
    ensures Rows(articles) == SitemapRows(response)
  {
    if response.status != HttpOk {
      return [];
    }
    if response.body.Malformed? {
      return [];
    }
    var root := response.body.root;
    var ns := Namespace(root.tag);
    articles := BuildArticles(FindAllDescendants(root, ns + "url"), ns);
  }

  /** Each source's name with the rows `parse_sitemap` returns for it. */
  function Fetched(sources: seq<Source>): seq<(string, seq<Row>)>
  {
    seq(|sources|, i requires 0 <= i < |sources| => (sources[i].name, SitemapRows(sources[i].response)))
  }

  /** What the page shows for the aggregated rows: with no rows at all, converting the
      missing `Last Modified` column raises; otherwise the table, filtered by the query. */
  function Present(all: seq<Row>, query: string): (shown: Display)
    ensures all == [] <==> shown == Crash(KeyError(LastModifiedKey))
    ensures all != [] && query == "" ==> shown == Table(all)
    ensures all != [] && query != "" ==>
              shown.Table? && forall x :: x in shown.rows <==> x in all && UrlMatches(x, query)
  {
    if all == [] then Crash(KeyError(LastModifiedKey)) else Table(Filter(all, query))
  }

  /** One turn of `main`'s loop: parse a source and stamp its dicts with its name. */
  method ParseAndStamp(source: Source) returns (articles: seq<Article>)
    ensures Distinct(articles) && forall a :: a in articles ==> fresh(a)
    ensures Rows(articles) == Labelled(SitemapRows(source.response), source.name)
  {
    articles := ParseSitemap(source.response);
    StampWebsite(articles, source.name);
  }

  /** `main`: parse every source in order, stamp its dicts with its name, concatenate,
      then search. */
  method ShowArticles(sources: seq<Source>, query: string) returns (shown: Display)
    ensures shown == Present(Aggregated(Fetched(sources)), query)
  {
    var all: seq<Article> := [];
    ghost var fetched := Fetched(sources);
    for i := 0 to |sources|
      invariant Distinct(all) && forall a :: a in all ==> fresh(a)
      invariant Rows(all) == Aggregated(fetched[..i])
    {
      ghost var before := Rows(all);
      var articles := ParseAndStamp(sources[i]);
      assert forall x :: x in all ==> x !in articles;
      assert Rows(all) == before;
      DistinctConcat(all, articles);
      RowsConcat(all, articles);
      AggregatedPrefix(fetched, i);
      all := all + articles;
    }
    WholePrefix(fetched);
    var rows := Rows(all);
    shown := if rows == [] then Crash(KeyError(LastModifiedKey)) else Table(Filter(rows, query));
  }
}
