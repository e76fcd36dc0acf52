/**
 * test3.py: exports one sitemap to CSV, one row `[title, url, date]` per `sm:url`
 * child of the root, after the header `['article', 'url', 'date']`. The title is derived
 * from the URL's last path segment by `extract_title`.
 *
 * The script checks nothing: a body that does not parse raises before the file is
 * opened, and an entry whose `loc` element has no text makes `extract_title` raise after
 * the earlier rows have been written.
 */
module Test3 {
  import opened Seqs
  import opened Xml
  import opened Ascii
  import opened Records

  const NoUrl: string := "No URL"
  const NotProvided: string := "Not provided"
  const Header: seq<string> := ["article", "url", "date"]

  // ---------------------------------------------------------------------------------
  // extract_title

  /** `s.rstrip(c)`: s without its trailing run of c. */
  function RStrip(s: string, c: char): (r: string)
    ensures |r| <= |s| && r == s[..|r|]
    ensures r == [] || r[|r| - 1] != c
    ensures forall i :: |r| <= i < |s| ==> s[i] == c
  {
    if s != [] && s[|s| - 1] == c then RStrip(s[..|s| - 1], c) else s
  }

  /** `s.split('/')[-1]`: what follows the last '/', or all of s when it has none. */
  function LastSegment(s: string): (r: string)
    ensures '/' !in r
    ensures |r| <= |s| && r == s[|s| - |r|..]
    ensures |r| < |s| ==> s[|s| - |r| - 1] == '/'
  {
    if s == [] then []
    else if s[|s| - 1] == '/' then []
    else
      var n := |s| - 1;
      var r := LastSegment(s[..n]);
      assert s[..n][n - |r|..] + [s[n]] == s[n - |r|..];
      r + [s[n]]
  }

  /** The slug `extract_title` works on. */
  function Slug(url: string): string
  {
    LastSegment(RStrip(url, '/'))
  }

  predicate IsHexDigit(c: char)
  {
    '0' <= c <= '9' || 'a' <= c <= 'f' || 'A' <= c <= 'F'
  }

  function HexValue(c: char): (v: nat)
    requires IsHexDigit(c)
    ensures v < 16
  {
    if '0' <= c <= '9' then c as int - '0' as int
    else if 'a' <= c <= 'f' then c as int - 'a' as int + 10
    else c as int - 'A' as int + 10
  }

  /** `%XY` at the front of s, naming an ASCII character. */
  predicate AsciiEscapeAt(s: string)
  {
    |s| >= 3 && s[0] == '%' && IsHexDigit(s[1]) && IsHexDigit(s[2]) &&
    HexValue(s[1]) * 16 + HexValue(s[2]) < 0x80
  }

  /** `urllib.parse.unquote` on escapes of ASCII characters; every other '%' is kept. */
  function Unquote(s: string): (r: string)
    ensures |r| <= |s|
  {
    if s == [] then []
    else if AsciiEscapeAt(s) then [(HexValue(s[1]) * 16 + HexValue(s[2])) as char] + Unquote(s[3..])
    else [s[0]] + Unquote(s[1..])
  }

  /** `s.replace(from, to)` for single characters. */
  function Replace(s: string, from: char, to: char): (r: string)
    ensures |r| == |s|
    ensures forall i :: 0 <= i < |s| ==> r[i] == if s[i] == from then to else s[i]
  {
    seq(|s|, i requires 0 <= i < |s| => if s[i] == from then to else s[i])
  }

  /** `str.title`, walking the string: a character that follows a cased character is
      lower-cased, any other is upper-cased (title-cased). */
  function TitleFrom(s: string, previousIsCased: bool): (r: string)
    ensures |r| == |s|
  {
    if s == [] then []
    else
      var c := if previousIsCased then Lower(s[0]) else Upper(s[0]);
      [c] + TitleFrom(s[1..], IsLetter(c))
  }

  function Title(s: string): (r: string)
    ensures |r| == |s|
  {
    TitleFrom(s, false)
  }

  /** `extract_title(url)` for a URL that is a string. */
  function ExtractTitle(url: string): (title: string)
    ensures |title| <= |url|
  {
    Title(Replace(Unquote(Slug(url)), '-', ' '))
  }

  // ---------------------------------------------------------------------------------
  // Properties of extract_title

  /** The slug holds no '/': trailing slashes are dropped before the last segment is
      taken. */
  lemma SlugHasNoSlash(url: string)
    ensures '/' !in Slug(url)
  {
    var slug := LastSegment(RStrip(url, '/'));
    assert Slug(url) == slug;
  }

  /** The slug is what follows the last '/' that is not part of the trailing run. */
  lemma SlugIsLastSegment(url: string)
    ensures var stripped := RStrip(url, '/');
            var n := |stripped| - |Slug(url)|;
            Slug(url) == stripped[n..] && (n > 0 ==> stripped[n - 1] == '/')
  {
    var slug := LastSegment(RStrip(url, '/'));
    assert Slug(url) == slug;
  }

  /** An empty URL, or one made only of slashes, has an empty title. */
  lemma {:induction false} OnlySlashesGiveEmptyTitle(url: string)
    requires forall i :: 0 <= i < |url| ==> url[i] == '/'
    ensures ExtractTitle(url) == ""
  {
    var stripped := RStrip(url, '/');
    assert forall k :: 0 <= k < |stripped| ==> stripped[k] == url[k];
    assert Unquote([]) == [];
    assert Replace([], '-', ' ') == [];
  }

  /** Without escapes, decoding leaves the slug alone. */
  lemma {:induction false} UnquoteWithoutPercent(s: string)
    requires '%' !in s
    ensures Unquote(s) == s
  {
    if s != [] {
      assert s[0] != '%';
      assert forall c :: c in s[1..] ==> c in s;
      UnquoteWithoutPercent(s[1..]);
    }
  }

  function HexDigit(n: nat): (c: char)
    requires n < 16
    ensures IsHexDigit(c) && HexValue(c) == n
  {
    if n < 10 then (n + '0' as int) as char else (n - 10 + 'A' as int) as char
  }

  /** Every character written as its `%XY` escape: the encoding `unquote` undoes. */
  function PercentEncode(s: string): (r: string)
    requires forall i :: 0 <= i < |s| ==> s[i] as int < 0x80
    ensures |r| == 3 * |s|
  {
    if s == [] then []
    else ['%', HexDigit(s[0] as int / 16), HexDigit(s[0] as int % 16)] + PercentEncode(s[1..])
  }

  /** Decoding undoes percent-encoding of ASCII text. */
  lemma {:induction false} UnquoteUndoesPercentEncode(s: string)
    requires forall i :: 0 <= i < |s| ==> s[i] as int < 0x80
    ensures Unquote(PercentEncode(s)) == s
  {
    if s != [] {
      var e := PercentEncode(s);
      var rest := PercentEncode(s[1..]);
      assert e[..3] == ['%', HexDigit(s[0] as int / 16), HexDigit(s[0] as int % 16)];
      assert e[3..] == rest;
      assert AsciiEscapeAt(e);
      UnquoteUndoesPercentEncode(s[1..]);
    }
  }

  /** A URL that is a plain name (no '/', '%' or '-') is only title-cased. */
  lemma PlainNameIsTitled(url: string)
    requires '/' !in url && '%' !in url && '-' !in url
    ensures ExtractTitle(url) == Title(url)
  {
    PlainSlug(url);
    PlainWords(url);
  }

  lemma PlainSlug(url: string)
    requires '/' !in url
    ensures Slug(url) == url
  {
    var stripped := RStrip(url, '/');
    assert stripped == url by {
      if url != [] {
        assert url[|url| - 1] in url;
      }
    }
    assert LastSegment(url) == url[0..];
  }

  lemma PlainWords(slug: string)
    requires '%' !in slug && '-' !in slug
    ensures Replace(Unquote(slug), '-', ' ') == slug
  {
    UnquoteWithoutPercent(slug);
    var words := Replace(slug, '-', ' ');
    forall i | 0 <= i < |slug| ensures words[i] == slug[i] {
      assert slug[i] in slug;
    }
  }

  /** An entry without `loc` is written with the URL "No URL" and the title "No Url". */
  lemma MissingUrlTitle()
    ensures ExtractTitle(NoUrl) == "No Url"
  {
    PlainNameIsTitled(NoUrl);
    NoUrlTitled();
  }

  lemma NoUrlTitled()
    ensures Title(NoUrl) == "No Url"
  {
    var name := NoUrl;
    TitleSpec(name);
    var title := Title(name);
    assert name[0] == 'N' && name[1] == 'o' && name[2] == ' ' && name[3] == 'U' && name[4] == 'R' && name[5] == 'L';
    assert title[0] == 'N' && title[1] == 'o' && title[2] == ' ';
    assert title[3] == 'U' && title[4] == 'r' && title[5] == 'l';
    assert title == "No Url";
  }

  /** What `str.title` does to each character, stated without the walk: a character is
      lower-cased exactly when the character before it is a letter. */
  lemma {:induction false} TitleFromSpec(s: string, previousIsCased: bool)
    ensures |TitleFrom(s, previousIsCased)| == |s|
    ensures forall i :: 0 <= i < |s| ==>
              TitleFrom(s, previousIsCased)[i] ==
                if (if i == 0 then previousIsCased else IsLetter(s[i - 1])) then Lower(s[i]) else Upper(s[i])
  {
    if s != [] {
      var c := if previousIsCased then Lower(s[0]) else Upper(s[0]);
      var tail := s[1..];
      TitleFromSpec(tail, IsLetter(c));
      forall i | 1 <= i < |s|
        ensures TitleFrom(s, previousIsCased)[i] ==
                  if IsLetter(s[i - 1]) then Lower(s[i]) else Upper(s[i])
      {
        assert TitleFrom(s, previousIsCased)[i] == TitleFrom(tail, IsLetter(c))[i - 1];
        assert tail[i - 1] == s[i];
        if i > 1 {
          assert tail[i - 2] == s[i - 1];
        }
      }
    }
  }

  /** Title case: the first letter of each run of letters is upper case, every other
      letter lower case, and everything else is unchanged. */
  lemma TitleSpec(s: string)
    ensures |Title(s)| == |s|
    ensures forall i :: 0 <= i < |s| ==>
              Title(s)[i] == if i > 0 && IsLetter(s[i - 1]) then Lower(s[i]) else Upper(s[i])
  {
    TitleFromSpec(s, false);
  }

  /** Title-casing only changes case, and doing it twice changes nothing more. */
  lemma TitleKeepsLetters(s: string)
    ensures LowerAll(Title(s)) == LowerAll(s)
    ensures Title(Title(s)) == Title(s)
  {
    TitleSpec(s);
    TitleSpec(Title(s));
    forall i | 0 <= i < |s| ensures Lower(Title(s)[i]) == Lower(s[i]) {
      CaseRoundTrip(s[i]);
      if i > 0 && IsLetter(s[i - 1]) {
        assert Title(s)[i] == Lower(s[i]);
      } else {
        assert Title(s)[i] == Upper(s[i]);
      }
    }
    forall i | 0 <= i < |s| ensures Title(Title(s))[i] == Title(s)[i] {
      CaseRoundTrip(s[i]);
      if i > 0 {
        assert IsLetter(Title(s)[i - 1]) == IsLetter(s[i - 1]);
      }
    }
  }

  /** Hyphens are replaced after decoding, so the title has none, not even from `%2D`. */
  lemma ExtractTitleHasNoHyphen(url: string)
    ensures '-' !in ExtractTitle(url)
  {
    var words := Replace(Unquote(Slug(url)), '-', ' ');
    TitleSpec(words);
    forall i | 0 <= i < |words| ensures ExtractTitle(url)[i] != '-' {
      assert words[i] != '-';
      assert ExtractTitle(url)[i] == Title(words)[i];
      if i > 0 && IsLetter(words[i - 1]) {
        assert Title(words)[i] == Lower(words[i]);
      } else {
        assert Title(words)[i] == Upper(words[i]);
      }
    }
  }

  /** The title is the decoded slug with '-' turned into ' ', then title-cased. */
  lemma ExtractTitleSpec(url: string)
    ensures var words := Replace(Unquote(Slug(url)), '-', ' ');
            |ExtractTitle(url)| == |words| &&
            LowerAll(ExtractTitle(url)) == LowerAll(words) &&
            forall i :: 0 <= i < |words| ==>
              ExtractTitle(url)[i] == if i > 0 && IsLetter(words[i - 1]) then Lower(words[i]) else Upper(words[i])
  {
    var words := Replace(Unquote(Slug(url)), '-', ' ');
    TitleSpec(words);
    TitleKeepsLetters(words);
  }

  // ---------------------------------------------------------------------------------
  // The CSV rows

  /** How `csv.writer` writes a field: None as the empty string. */
  function Cell(value: Option<string>): string
  {
    if value.Some? then value.value else ""
  }

  /** What the loop reads from one `url` element: its URL and its date. */
  datatype Line = Line(url: string, date: string)

  /** The line for one `url` element. A missing `loc` gives "No URL" and a missing
      `lastmod` "Not provided"; a `loc` without text makes `extract_title(None)` raise. */
  function EntryLine(entry: Element): Result<Line>
  {
    var locElem := Find(entry, SitemapNamespace + "loc");
    var lastmodElem := Find(entry, SitemapNamespace + "lastmod");
    var loc := if locElem.Some? then locElem.value.text else Some(NoUrl);
    var lastmod := if lastmodElem.Some? then lastmodElem.value.text else Some(NotProvided);
    if loc.None? then Raise(AttributeError("rstrip")) else Ok(Line(loc.value, Cell(lastmod)))
  }

  /** The CSV row written for a line: `[extract_title(loc), loc, lastmod]`. */
  function Render(line: Line): seq<string>
  {
    [ExtractTitle(line.url), line.url, line.date]
  }

  /** `f` applied to every element, in order. */
  function Map<A, B>(f: A -> B, xs: seq<A>): (ys: seq<B>)
    ensures |ys| == |xs|
    ensures forall k :: 0 <= k < |xs| ==> ys[k] == f(xs[k])
  {
    seq(|xs|, k requires 0 <= k < |xs| => f(xs[k]))
  }

  lemma MapSnoc<A, B>(f: A -> B, xs: seq<A>, x: A)
    ensures Map(f, xs + [x]) == Map(f, xs) + [f(x)]
  {
    var longer, joined := Map(f, xs + [x]), Map(f, xs) + [f(x)];
    forall k | 0 <= k < |longer| ensures longer[k] == joined[k] {
      if k < |xs| {
        assert (xs + [x])[k] == xs[k];
      }
    }
  }

  /** The rows written for a run of lines. */
  function Rendered(lines: seq<Line>): seq<seq<string>>
  {
    Map(Render, lines)
  }

  lemma RowAfterHeader(lines: seq<Line>, k: nat)
    requires 1 <= k <= |lines|
    ensures ([Header] + Rendered(lines))[k] == Render(lines[k - 1])
  {
    AfterFirst(Header, Rendered(lines), k);
  }

  /** The lines written so far, and the exception that stopped the loop. */
  datatype Progress = Progress(lines: seq<Line>, raised: Option<Exception>)

  /** What the loop writes given what each of its turns gives: the line of every turn up
      to the first one that raises. */
  function Written(outcomes: seq<Result<Line>>): Progress
  {
    if outcomes == [] then Progress([], None)
    else
      var n := |outcomes| - 1;
      var before := Written(outcomes[..n]);
      if before.raised.Some? then before
      else match outcomes[n]
        case Raise(e) => Progress(before.lines, Some(e))
        case Ok(line) => Progress(before.lines + [line], None)
  }

  /** The lines written for a run of `url` elements. */
  function EntryLines(entries: seq<Element>): Progress
  {
    Written(Map(EntryLine, entries))
  }

  /** The whole script: None for the file when the body does not parse (it is never
      opened), otherwise what the file holds, and the exception that escaped, if any. */
  datatype Export = Export(file: Option<seq<seq<string>>>, raised: Option<Exception>)

  function Exported(response: Response): Export
  {
    match response.body
    case Malformed => Export(None, Some(ParseError))
    case Parsed(root) =>
      var progress := EntryLines(FindAll(root, SitemapNamespace + "url"));
      Export(Some([Header] + Rendered(progress.lines)), progress.raised)
  }

  /** A missing `loc` becomes "No URL" and a missing `lastmod` "Not provided"; otherwise
      their text is written as is, a `lastmod` without text as an empty field. Only a
      `loc` element without text raises. */
  lemma EntryLineSpec(entry: Element)
    ensures var loc := Find(entry, SitemapNamespace + "loc");
            EntryLine(entry).Raise? <==> loc.Some? && loc.value.text.None?
    ensures EntryLine(entry).Ok? ==>
              var line := EntryLine(entry).value;
              var loc := Find(entry, SitemapNamespace + "loc");
              var lastmod := Find(entry, SitemapNamespace + "lastmod");
              (loc.None? ==> line.url == NoUrl) &&
              (loc.Some? ==> line.url == loc.value.text.value) &&
              (lastmod.None? ==> line.date == NotProvided) &&
              (lastmod.Some? ==> line.date == Cell(lastmod.value.text))
  {
  }

  /** No turn is skipped: the k-th line written is the k-th turn's line; the loop either
      writes a line for every turn or stops at the first turn that raises. */
  lemma {:induction false} WrittenSpec(outcomes: seq<Result<Line>>)
    ensures |Written(outcomes).lines| <= |outcomes|
    ensures forall k :: 0 <= k < |Written(outcomes).lines| ==> outcomes[k] == Ok(Written(outcomes).lines[k])
    ensures Written(outcomes).raised.None? <==> |Written(outcomes).lines| == |outcomes|
    ensures Written(outcomes).raised.Some? ==>
              outcomes[|Written(outcomes).lines|] == Raise(Written(outcomes).raised.value)
  {
    if outcomes != [] {
      var n := |outcomes| - 1;
      var prefix := outcomes[..n];
      WrittenSpec(prefix);
      var before, after := Written(prefix), Written(outcomes);
      if before.raised.None? && outcomes[n].Ok? {
        assert after.lines == before.lines + [outcomes[n].value];
      } else {
        assert after.lines == before.lines;
      }
      forall k | 0 <= k < |after.lines| ensures outcomes[k] == Ok(after.lines[k]) {
        if k < |before.lines| {
          assert prefix[k] == outcomes[k] && after.lines[k] == before.lines[k];
        }
      }
    }
  }

  /** The same for the `url` elements: the k-th row is the k-th element's line, and the
      loop stops exactly at the first element whose `loc` has no text. */
  lemma EntryLinesSpec(entries: seq<Element>)
    ensures |EntryLines(entries).lines| <= |entries|
    ensures forall k :: 0 <= k < |EntryLines(entries).lines| ==>
              EntryLine(entries[k]) == Ok(EntryLines(entries).lines[k])
    ensures EntryLines(entries).raised.None? <==> |EntryLines(entries).lines| == |entries|
    ensures EntryLines(entries).raised.Some? ==>
              EntryLine(entries[|EntryLines(entries).lines|]) == Raise(EntryLines(entries).raised.value)
  {
    WrittenSpec(Map(EntryLine, entries));
  }

  /** The file: the header, then one row per entry up to the first entry that raises,
      each row rendered from its entry's line. */
  lemma ExportedSpec(response: Response)
    ensures response.body.Malformed? <==> Exported(response).file.None?
    ensures response.body.Parsed? ==>
              var entries := FindAll(response.body.root, SitemapNamespace + "url");
              var rows := Exported(response).file.value;
              |rows| >= 1 && rows[0] == Header &&
              (Exported(response).raised.None? <==> |rows| == |entries| + 1) &&
              forall k :: 1 <= k < |rows| ==>
                k <= |entries| && EntryLine(entries[k - 1]).Ok? && rows[k] == Render(EntryLine(entries[k - 1]).value)
  {
    if response.body.Parsed? {
      var entries := FindAll(response.body.root, SitemapNamespace + "url");
      EntryLinesSpec(entries);
      var lines := EntryLines(entries).lines;
      var rows := Exported(response).file.value;
      assert rows == [Header] + Rendered(lines);
      forall k | 1 <= k < |rows|
        ensures k <= |entries| && EntryLine(entries[k - 1]).Ok? && rows[k] == Render(EntryLine(entries[k - 1]).value)
      {
        RowAfterHeader(lines, k);
        assert EntryLine(entries[k - 1]) == Ok(lines[k - 1]);
      }
    }
  }

  // ---------------------------------------------------------------------------------
  // The script

  /** `csv.writer` over the opened file: the rows written so far. */
  class CsvWriter {
    var rows: seq<seq<string>>

    constructor ()
      ensures rows == []
    {
      rows := [];
    }

    /** `writer.writerow(row)` */
    method WriteRow(row: seq<string>)
      modifies this
      ensures rows == old(rows) + [row]
    {
      rows := rows + [row];
    }
  }

  /** One turn of the loop: the row for one `url` element, written unless building it
      raises. */
  method WriteEntry(writer: CsvWriter, entry: Element) returns (raised: Option<Exception>)
    modifies writer
    ensures raised.None? ==>
              EntryLine(entry).Ok? && writer.rows == old(writer.rows) + [Render(EntryLine(entry).value)]
    ensures raised.Some? ==> EntryLine(entry) == Raise(raised.value) && writer.rows == old(writer.rows)
  {
    var locElem := Find(entry, SitemapNamespace + "loc");
    var lastmodElem := Find(entry, SitemapNamespace + "lastmod");
    var loc := if locElem.Some? then locElem.value.text else Some(NoUrl);
    var lastmod := if lastmodElem.Some? then lastmodElem.value.text else Some(NotProvided);
    if loc.None? {
      return Some(AttributeError("rstrip"));
    }
    var title := ExtractTitle(loc.value);
    writer.WriteRow([title, loc.value, Cell(lastmod)]);
    return None;
  }

  /** The loop over the root's `url` children. */
  method WriteEntries(writer: CsvWriter, entries: seq<Element>) returns (raised: Option<Exception>)
    modifies writer
    ensures writer.rows == old(writer.rows) + Rendered(EntryLines(entries).lines)
    ensures raised == EntryLines(entries).raised
  {
    ghost var outcomes := Map(EntryLine, entries);
    raised := None;
    for i := 0 to |entries|
      invariant raised.None? && Written(outcomes[..i]).raised.None?
      invariant writer.rows == old(writer.rows) + Rendered(Written(outcomes[..i]).lines)
    {
      raised := WriteEntry(writer, entries[i]);
      if raised.Some? {
        WrittenRaise(outcomes, i);
        return;
      }
      WrittenStep(outcomes, i);
      MapSnoc(Render, Written(outcomes[..i]).lines, outcomes[i].value);
      AppendAssoc(old(writer.rows), Rendered(Written(outcomes[..i]).lines), [Render(outcomes[i].value)]);
    }
    WholePrefix(outcomes);
  }

  /** The script: parses the body, opens the file, writes the header and then one row
      per entry. */
  method ExportSitemap(response: Response) returns (writer: CsvWriter?, raised: Option<Exception>)
    ensures writer != null ==> fresh(writer)
    ensures Exported(response).file == (if writer == null then None else Some(writer.rows))
    ensures Exported(response).raised == raised
  {
    if response.body.Malformed? {
      return null, Some(ParseError);
    }
    writer := new CsvWriter();
    writer.WriteRow(Header);
    assert writer.rows == [Header];
    raised := WriteEntries(writer, FindAll(response.body.root, SitemapNamespace + "url"));
  }

  /** A turn of the loop that writes its line. */
  lemma WrittenStep(outcomes: seq<Result<Line>>, i: nat)
    requires i < |outcomes| && Written(outcomes[..i]).raised.None? && outcomes[i].Ok?
    ensures Written(outcomes[..i + 1]) == Progress(Written(outcomes[..i]).lines + [outcomes[i].value], None)
  {
    PrefixStep(outcomes, i);
  }

  /** A turn of the loop that raises: the lines written so far are all the file gets. */
  lemma WrittenRaise(outcomes: seq<Result<Line>>, i: nat)
    requires i < |outcomes| && Written(outcomes[..i]).raised.None? && outcomes[i].Raise?
    ensures Written(outcomes) == Progress(Written(outcomes[..i]).lines, Some(outcomes[i].exception))
  {
    PrefixStep(outcomes, i);
    WrittenStop(outcomes, i + 1);
  }

  /** Once the loop has raised, later turns write nothing. */
  lemma {:induction false} WrittenStop(outcomes: seq<Result<Line>>, i: nat)
    requires i <= |outcomes|
    requires Written(outcomes[..i]).raised.Some?
    ensures Written(outcomes) == Written(outcomes[..i])
    decreases |outcomes| - i
  {
    if i < |outcomes| {
      PrefixStep(outcomes, i);
      WrittenStop(outcomes, i + 1);
    } else {
      WholePrefix(outcomes);
    }
  }
}
