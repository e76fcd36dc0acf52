/**
 * The search box shared by the readers: a non-empty query keeps the rows whose `URL`
 * contains the query, ignoring case, in their original order; rows whose URL is missing
 * or None never match (`na=False`). An empty query keeps every row.
 * Also what a reader finally puts on the page.
 */
module Search {
  import opened Xml
  import opened Ascii
  import opened Records

  /** What a reader finally shows. */
  datatype Display =
    | Table(rows: seq<Row>)      // `st.write(dataframe)`
    | Notice(message: string)    // `st.write(text)`
    | Alert(message: string)     // `st.error(text)`
    | Crash(exception: Exception) // an exception escaped `main`

  /** `df['URL'].str.contains(query, case=False, na=False)` for one row. */
  predicate UrlMatches(row: Row, query: string)
  {
    UrlKey in row && row[UrlKey].Some? && ContainsIgnoreCase(row[UrlKey].value, query)
  }

  /** The rows kept by the boolean mask, in order. */
  function Select(rows: seq<Row>, query: string): (r: seq<Row>)
    ensures |r| <= |rows|
    ensures forall x :: x in r <==> x in rows && UrlMatches(x, query)
  {
    if rows == [] then []
    else (if UrlMatches(rows[0], query) then [rows[0]] else []) + Select(rows[1..], query)
  }

  /** `if search_query: df[mask] else: df` */
  function Filter(rows: seq<Row>, query: string): (r: seq<Row>)
    ensures query == "" ==> r == rows
    ensures query != "" ==> forall x :: x in r <==> x in rows && UrlMatches(x, query)
  {
    if query == "" then rows else Select(rows, query)
  }

  /** `r` is `s` with some elements left out, the rest in their original order. */
  ghost predicate IsSubsequence(r: seq<Row>, s: seq<Row>)
    decreases |s|
  {
    if r == [] then true
    else if s == [] then false
    else (r[0] == s[0] && IsSubsequence(r[1..], s[1..])) || IsSubsequence(r, s[1..])
  }

  /** Filtering keeps order: it is a subsequence of its input. */
  lemma {:induction false} SelectIsSubsequence(rows: seq<Row>, query: string)
    ensures IsSubsequence(Select(rows, query), rows)
  {
    if rows != [] {
      SelectIsSubsequence(rows[1..], query);
      var tail := Select(rows[1..], query);
      if UrlMatches(rows[0], query) {
        assert Select(rows, query) == [rows[0]] + tail;
        assert ([rows[0]] + tail)[1..] == tail;
      } else {
        assert Select(rows, query) == tail;
        if tail != [] {
          assert IsSubsequence(tail, rows[1..]);
        }
      }
    }
  }

  /** Filtering keeps every matching row as often as it occurs, and no other row. */
  lemma {:induction false} SelectCounts(rows: seq<Row>, query: string, x: Row)
    ensures multiset(Select(rows, query))[x] == if UrlMatches(x, query) then multiset(rows)[x] else 0
  {
    if rows != [] {
      SelectCounts(rows[1..], query, x);
      assert rows == [rows[0]] + rows[1..];
    }
  }

  /** Filtering a concatenation filters each part: rows of one source stay together and
      in source order. */
  lemma {:induction false} SelectAppend(a: seq<Row>, b: seq<Row>, query: string)
    ensures Select(a + b, query) == Select(a, query) + Select(b, query)
  {
    if a == [] {
      assert a + b == b;
    } else {
      assert (a + b)[0] == a[0] && (a + b)[1..] == a[1..] + b;
      SelectAppend(a[1..], b, query);
    }
  }

  /** Searching twice for the same query changes nothing the second time. */
  lemma {:induction false} FilterIdempotent(rows: seq<Row>, query: string)
    ensures Filter(Filter(rows, query), query) == Filter(rows, query)
  {
    if query != "" {
      SelectKeepsMatches(rows, query);
    }
  }

  lemma {:induction false} SelectKeepsMatches(rows: seq<Row>, query: string)
    ensures Select(Select(rows, query), query) == Select(rows, query)
  {
    if rows != [] {
      SelectKeepsMatches(rows[1..], query);
      var tail := Select(rows[1..], query);
      if UrlMatches(rows[0], query) {
        var kept := [rows[0]] + tail;
        assert Select(rows, query) == kept;
        assert kept[0] == rows[0] && kept[1..] == tail;
        assert Select(kept, query) == [rows[0]] + Select(tail, query);
      } else {
        assert Select(rows, query) == tail;
      }
    }
  }
}
