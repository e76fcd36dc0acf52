/**
 * Article records and their aggregation across sources.
 *
 * Each reader builds one dict per sitemap entry, `{'URL': ..., 'Last Modified': ...}`,
 * whose values may be None. The dicts are mutable: the readers' `main` functions stamp
 * each one in place with `article['Website'] = website_name` before concatenating the
 * per-source lists. A dict is a `Row` (a map from key to optional string) held in an
 * `Article` object so that the stamping really updates shared state.
 */
module Records {
  import opened Seqs
  import opened Xml

  type Row = map<string, Option<string>>

  const UrlKey: string := "URL"
  const LastModifiedKey: string := "Last Modified"
  const WebsiteKey: string := "Website"

  /** The exceptions that escape a reader and abort it. */
  datatype Exception =
    | KeyError(key: string)              // a DataFrame column that does not exist
    | AttributeError(attribute: string)  // an attribute looked up on None
    | TypeError                          // the date parser handed None instead of a string
    | ParseError                         // malformed XML where nothing catches it

  /** A value, or the exception raised while computing it. */
  datatype Result<T> = Ok(value: T) | Raise(exception: Exception)

  /** One entry of `sitemap_urls`: a website's name and what fetching its sitemap gave. */
  datatype Source = Source(name: string, response: Response)

  /** The dict literal `{'URL': url, 'Last Modified': lastModified}`. */
  function Entry(url: Option<string>, lastModified: Option<string>): (r: Row)
    ensures r.Keys == {UrlKey, LastModifiedKey}
    ensures r[UrlKey] == url && r[LastModifiedKey] == lastModified
  {
    map[UrlKey := url, LastModifiedKey := lastModified]
  }

  /** One article dict, as a mutable object. */
  class Article {
    var fields: Row

    constructor (url: Option<string>, lastModified: Option<string>)
      ensures fields == Entry(url, lastModified)
    {
      fields := Entry(url, lastModified);
    }

    /** `article[key] = value` */
    method Put(key: string, value: Option<string>)
      modifies this
      ensures fields == old(fields)[key := value]
    {
      fields := fields[key := value];
    }
  }

  /** The current contents of a list of article dicts. */
  function Rows(articles: seq<Article>): (rows: seq<Row>)
    reads set a | a in articles
    ensures |rows| == |articles|
    ensures forall k :: 0 <= k < |articles| ==> rows[k] == articles[k].fields
  {
    seq(|articles|, k requires 0 <= k < |articles| reads set a | a in articles => articles[k].fields)
  }

  lemma RowsAppend(articles: seq<Article>, a: Article)
    ensures Rows(articles + [a]) == Rows(articles) + [a.fields]
  {
  }

  lemma RowsConcat(articles: seq<Article>, more: seq<Article>)
    ensures Rows(articles + more) == Rows(articles) + Rows(more)
  {
  }

  /** No dict occurs twice in the list. */
  ghost predicate Distinct(articles: seq<Article>)
  {
    forall i, j :: 0 <= i < j < |articles| ==> articles[i] != articles[j]
  }

  lemma DistinctConcat(a: seq<Article>, b: seq<Article>)
    requires Distinct(a) && Distinct(b)
    requires forall x :: x in a ==> x !in b
    ensures Distinct(a + b)
  {
    forall i, j | 0 <= i < j < |a + b| ensures (a + b)[i] != (a + b)[j] {
      if j < |a| {
      } else if i >= |a| {
        assert (a + b)[i] == b[i - |a|] && (a + b)[j] == b[j - |a|];
      } else {
        assert (a + b)[i] in a && (a + b)[j] in b;
      }
    }
  }

  /** The rows of one source after every dict has been stamped with the source's name:
      each row gains the `Website` key and keeps every other key and value. */
  function Labelled(rows: seq<Row>, name: string): (r: seq<Row>)
    ensures |r| == |rows|
    ensures forall k :: 0 <= k < |rows| ==>
              r[k].Keys == rows[k].Keys + {WebsiteKey} && r[k][WebsiteKey] == Some(name)
    ensures forall k, key :: 0 <= k < |rows| && key in rows[k] && key != WebsiteKey ==>
              r[k][key] == rows[k][key]
  {
    seq(|rows|, k requires 0 <= k < |rows| => rows[k][WebsiteKey := Some(name)])
  }

  /** `all_articles`: the per-source lists, each stamped with its source's name,
      concatenated in source-iteration order. No row is added or lost: the total is the
      sum of the per-source counts. */
  function Aggregated(sources: seq<(string, seq<Row>)>): (rows: seq<Row>)
    ensures |rows| == TotalRows(sources)
  {
    if sources == [] then []
    else
      var n := |sources| - 1;
      Aggregated(sources[..n]) + Labelled(sources[n].1, sources[n].0)
  }

  lemma {:induction false} AggregatedAppend(a: seq<(string, seq<Row>)>, b: seq<(string, seq<Row>)>)
    ensures Aggregated(a + b) == Aggregated(a) + Aggregated(b)
    decreases |b|
  {
    if b == [] {
      assert a + b == a;
    } else {
      var init, last := b[..|b| - 1], b[|b| - 1];
      DropLastOfAppend(a, b);
      AggregatedAppend(a, init);
      AppendAssoc(Aggregated(a), Aggregated(init), Labelled(last.1, last.0));
    }
  }

  lemma AggregatedSnoc(sources: seq<(string, seq<Row>)>, last: (string, seq<Row>))
    ensures Aggregated(sources + [last]) == Aggregated(sources) + Labelled(last.1, last.0)
  {
    Snoc(sources, last);
  }

  lemma AggregatedPrefix(sources: seq<(string, seq<Row>)>, i: nat)
    requires i < |sources|
    ensures Aggregated(sources[..i + 1]) == Aggregated(sources[..i]) + Labelled(sources[i].1, sources[i].0)
  {
    PrefixStep(sources, i);
  }

  /** Source i's rows, labelled with its name, sit after every earlier source's rows and
      before every later source's rows. */
  lemma {:induction false} AggregatedAt(sources: seq<(string, seq<Row>)>, i: nat)
    requires i < |sources|
    ensures Aggregated(sources) ==
              Aggregated(sources[..i]) + Labelled(sources[i].1, sources[i].0) + Aggregated(sources[i + 1..])
  {
    var before, here, after := sources[..i], [sources[i]], sources[i + 1..];
    assert sources == (before + here) + after;
    AggregatedAppend(before + here, after);
    AggregatedAppend(before, here);
    assert here[..0] == [];
    assert Aggregated(here) == Aggregated([]) + Labelled(sources[i].1, sources[i].0);
  }

  /** Every aggregated row carries the `Website` of one of the sources. */
  lemma {:induction false} AggregatedRows(sources: seq<(string, seq<Row>)>)
    ensures forall r :: r in Aggregated(sources) ==>
              WebsiteKey in r && exists i :: 0 <= i < |sources| && r[WebsiteKey] == Some(sources[i].0)
  {
    if sources != [] {
      var n := |sources| - 1;
      AggregatedRows(sources[..n]);
      forall r | r in Aggregated(sources)
        ensures WebsiteKey in r && exists i :: 0 <= i < |sources| && r[WebsiteKey] == Some(sources[i].0)
      {
        if r in Aggregated(sources[..n]) {
          var i :| 0 <= i < n && r[WebsiteKey] == Some(sources[..n][i].0);
          assert sources[..n][i] == sources[i];
        } else {
          assert r in Labelled(sources[n].1, sources[n].0);
        }
      }
    }
  }

  function TotalRows(sources: seq<(string, seq<Row>)>): nat
  {
    if sources == [] then 0 else TotalRows(sources[..|sources| - 1]) + |sources[|sources| - 1].1|
  }

  /** Stamps every dict of one source with the source's name, in place. */
  method StampWebsite(articles: seq<Article>, name: string)
    requires Distinct(articles)
    modifies set a | a in articles
    ensures Rows(articles) == Labelled(old(Rows(articles)), name)
  {
    for j := 0 to |articles|
      invariant forall k :: 0 <= k < j ==>
                  articles[k].fields == old(articles[k].fields)[WebsiteKey := Some(name)]
      invariant forall k :: j <= k < |articles| ==> articles[k].fields == old(articles[k].fields)
    {
      articles[j].Put(WebsiteKey, Some(name));
    }
  }
}
