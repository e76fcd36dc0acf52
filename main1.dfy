/**
 * main1.py: the page that stamps and concatenates the lists of article dicts that
 * `parse_sitemap` returned for each website, then searches them.
 *
 * `parse_sitemap` and `sitemap_urls` are not defined in main1.py, so the lists it
 * returned are the input: one `(website name, list of dicts)` pair per source, in the
 * order `sitemap_urls.items()` yields them. The dicts are assumed to be new ones, not
 * shared between lists, as every `parse_sitemap` in the repository builds them.
 */
module Main1 {
  import opened Seqs
  import opened Records
  import opened Search

  const NoArticlesFound: string := "No articles found."

  /** Every dict of every source's list. */
  ghost function Footprint(sources: seq<(string, seq<Article>)>): set<Article>
  {
    set i, a | 0 <= i < |sources| && a in sources[i].1 :: a
  }

  /** No dict occurs twice in one list, nor in two lists. */
  ghost predicate Unaliased(sources: seq<(string, seq<Article>)>)
  {
    (forall i :: 0 <= i < |sources| ==> Distinct(sources[i].1)) &&
    (forall i, j, a :: 0 <= i < |sources| && 0 <= j < |sources| && i != j && a in sources[i].1 ==>
       a !in sources[j].1)
  }

  /** The lists one after the other: what `all_articles.extend` builds. */
  function Articles(sources: seq<(string, seq<Article>)>): (all: seq<Article>)
    ensures forall a :: a in all ==> exists i :: 0 <= i < |sources| && a in sources[i].1
  {
    if sources == [] then []
    else
      var n := |sources| - 1;
      Articles(sources[..n]) + sources[n].1
  }

  /** The current contents of each source's dicts. */
  function Snapshot(sources: seq<(string, seq<Article>)>): (snap: seq<(string, seq<Row>)>)
    reads Footprint(sources)
    ensures |snap| == |sources|
    ensures forall k :: 0 <= k < |sources| ==> snap[k] == (sources[k].0, Rows(sources[k].1))
  {
    seq(|sources|, k requires 0 <= k < |sources| reads Footprint(sources) =>
      (sources[k].0, Rows(sources[k].1)))
  }

  /** Once every list has been stamped with its own source's name, the concatenated
      dicts hold the stamped rows of each source, in source order. */
  lemma {:induction false} StampedRows(sources: seq<(string, seq<Article>)>, snap: seq<(string, seq<Row>)>)
    requires |snap| == |sources|
    requires forall j :: 0 <= j < |sources| ==> Rows(sources[j].1) == Labelled(snap[j].1, snap[j].0)
    ensures Rows(Articles(sources)) == Aggregated(snap)
  {
    if sources != [] {
      var n := |sources| - 1;
      StampedRows(sources[..n], snap[..n]);
      RowsConcat(Articles(sources[..n]), sources[n].1);
    }
  }

  /** What the page shows for the concatenated rows. The table's columns are the keys
      of its dicts, so a search needs some dict to have a `URL`. */
  function Present(all: seq<Row>, query: string): (shown: Display)
    ensures all == [] <==> shown == Notice(NoArticlesFound)
    ensures all != [] && query == "" ==> shown == Table(all)
    ensures all != [] && query != "" && (forall r :: r in all ==> UrlKey !in r) ==>
              shown == Crash(KeyError(UrlKey))
    ensures all != [] && query != "" && (exists r :: r in all && UrlKey in r) ==>
              shown.Table? && forall x :: x in shown.rows <==> x in all && UrlMatches(x, query)
  {
    if all == [] then Notice(NoArticlesFound)
    else if query != "" && forall r :: r in all ==> UrlKey !in r then Crash(KeyError(UrlKey))
    else Table(Filter(all, query))
  }

  /** `main`: stamps every dict of each list with its source's name, concatenates the
      lists, then shows the search result. */
  method ShowArticles(sources: seq<(string, seq<Article>)>, query: string) returns (shown: Display)
    requires Unaliased(sources)
    modifies Footprint(sources)
    ensures Rows(Articles(sources)) == Aggregated(old(Snapshot(sources)))
    ensures shown == Present(Aggregated(old(Snapshot(sources))), query)
  {
    ghost var snap := Snapshot(sources);
    var all := StampAll(sources);
    StampedRows(sources, snap);
    shown := Present(Rows(all), query);
  }

  /** The loop of `main`: each list stamped in place with its own source's name, and
      the lists concatenated in source order. */
  method StampAll(sources: seq<(string, seq<Article>)>) returns (all: seq<Article>)
    requires Unaliased(sources)
    modifies Footprint(sources)
    ensures all == Articles(sources)
    ensures forall j :: 0 <= j < |sources| ==>
              Rows(sources[j].1) == Labelled(old(Rows(sources[j].1)), sources[j].0)
  {
    all := [];
    for i := 0 to |sources|
      invariant all == Articles(sources[..i])
      invariant forall j :: 0 <= j < i ==>
                  Rows(sources[j].1) == Labelled(old(Rows(sources[j].1)), sources[j].0)
      invariant forall j :: i <= j < |sources| ==> Rows(sources[j].1) == old(Rows(sources[j].1))
    {
      StampWebsite(sources[i].1, sources[i].0);
      PrefixStep(sources, i);
      all := all + sources[i].1;
    }
    WholePrefix(sources);
  }
}
