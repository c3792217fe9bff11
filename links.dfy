/**
 * Follow-up links: the team pages listed on a tournament page and the player pages listed
 * in the roster tables of a team page. Every link is the current page's scheme and host
 * followed by the `href` read from the markup.
 */
module Links {
  import opened Failures
  import opened Text
  import opened Markup

  /** `scheme + "://" + netloc`: the prefix of every emitted link. */
  function Domain(scheme: string, netloc: string): string {
    scheme + "://" + netloc
  }

  // ---------------------------------------------------------------- tournament page

  /** The link of one row of the qualified-teams table: the last link of its first cell. */
  function DirectoryRowLink(domain: string, row: CellRow): (r: Result<string>)
    ensures r.Ok? <==> row != [] && row[0].anchors != []
                       && row[0].anchors[|row[0].anchors| - 1].href.Some?
    ensures r.Ok? ==> row != [] && row[0].anchors != []
                      && var a := row[0].anchors[|row[0].anchors| - 1];
                         a.href.Some? && r.value == domain + a.href.value
  {
    if row == [] then Err(MissingElement)
    else if row[0].anchors == [] then Err(IndexOutOfRange)
    else
      var href := row[0].anchors[|row[0].anchors| - 1].href;
      if href.None? then Err(MissingElement) else Ok(domain + href.value)
  }

  /**
   * The links of the data rows of the qualified-teams table: a success holds the link of every
   * row, in row order; a failure is that of the first row without a link.
   */
  predicate DirectoryLinked(domain: string, data: seq<CellRow>, r: Result<seq<string>>) {
    (r.Ok? <==> forall k :: 0 <= k < |data| ==> DirectoryRowLink(domain, data[k]).Ok?)
    && (r.Ok? ==> |r.value| == |data|
                  && forall k :: 0 <= k < |data| ==> DirectoryRowLink(domain, data[k]) == Ok(r.value[k]))
    && (r.Err? ==> exists k :: 0 <= k < |data| && DirectoryRowLink(domain, data[k]) == Err(r.error)
                               && forall j :: 0 <= j < k ==> DirectoryRowLink(domain, data[j]).Ok?)
  }

  /** The links of a directory table are determined by its rows: at most one result fits. */
  lemma DirectoryLinkedUnique(domain: string, data: seq<CellRow>, r1: Result<seq<string>>, r2: Result<seq<string>>)
    requires DirectoryLinked(domain, data, r1) && DirectoryLinked(domain, data, r2)
    ensures r1 == r2
  {
    if r1.Ok? {
      assert r2.Ok?;
      assert |r1.value| == |r2.value| == |data|;
      forall k | 0 <= k < |data|
        ensures r1.value[k] == r2.value[k]
      {
        assert DirectoryRowLink(domain, data[k]) == Ok(r1.value[k]);
      }
      assert r1.value == r2.value;
    } else {
      var k1 :| 0 <= k1 < |data| && DirectoryRowLink(domain, data[k1]) == Err(r1.error)
                && forall j :: 0 <= j < k1 ==> DirectoryRowLink(domain, data[j]).Ok?;
      var k2 :| 0 <= k2 < |data| && DirectoryRowLink(domain, data[k2]) == Err(r2.error)
                && forall j :: 0 <= j < k2 ==> DirectoryRowLink(domain, data[j]).Ok?;
      assert k1 == k2;
    }
  }

  /**
   * `_main_page_parse`: one link per row after the header row, in row order. A missing table,
   * a row without a cell, a first cell without a link, or a last link without `href` fails
   * the page; the first such row decides the failure.
   */
  method MainPageParse(domain: string, table: Option<seq<CellRow>>) returns (r: Result<seq<string>>)
    ensures table.None? ==> r == Err(MissingElement)
    ensures table.Some? ==> DirectoryLinked(domain, Drop1(table.value), r)
  {
    if table.None? {
      return Err(MissingElement);
    }
    var data := Drop1(table.value);
    var links: seq<string> := [];
    for i := 0 to |data|
      invariant |links| == i
      invariant forall k :: 0 <= k < i ==> DirectoryRowLink(domain, data[k]) == Ok(links[k])
    {
      var cells := data[i];
      if cells == [] {
        return Err(MissingElement);
      }
      var anchors := cells[0].anchors;
      if anchors == [] {
        return Err(IndexOutOfRange);
      }
      var url := anchors[|anchors| - 1];
      if url.href.None? {
        return Err(MissingElement);
      }
      links := links + [domain + url.href.value];
    }
    return Ok(links);
  }

  // ---------------------------------------------------------------- team page

  /** The section anchors a roster may follow, in the order they are tried. */
  const RosterHeadings: seq<string> := [
    "Текущий_состав", "Текущий_состав_сборной", "Состав", "Состав_сборной", "Недавние_вызовы"
  ]

  /** The headings, in their given order, whose anchor exists on the page. */
  function PresentHeadings(headers: seq<string>, spans: RosterSections): (r: seq<string>)
    ensures |r| <= |headers|
    ensures forall h :: h in r <==> h in headers && h in spans
    decreases |headers|
  {
    if headers == [] then []
    else
      var init := headers[..|headers| - 1];
      var last := headers[|headers| - 1];
      assert headers == init + [last];
      PresentHeadings(init, spans) + (if last in spans then [last] else [])
  }

  /** `find_relevant_tags`: keep, in order, the headings whose anchor is found. */
  method FindRelevantTags(spans: RosterSections, headers: seq<string>) returns (tags: seq<string>)
    ensures tags == PresentHeadings(headers, spans)
  {
    tags := [];
    for i := 0 to |headers|
      invariant tags == PresentHeadings(headers[..i], spans)
    {
      assert headers[..i + 1][..i] == headers[..i];
      if headers[i] in spans {
        tags := tags + [headers[i]];
      }
    }
    assert headers[..|headers|] == headers;
  }

  /** The tables that follow the given anchors, skipping anchors with no table after them. */
  function TablesAfter(tags: seq<string>, spans: RosterSections): seq<seq<CellRow>>
    requires forall h :: h in tags ==> h in spans
    decreases |tags|
  {
    if tags == [] then []
    else
      var init := tags[..|tags| - 1];
      var last := tags[|tags| - 1];
      assert forall h :: h in init ==> h in tags;
      TablesAfter(init, spans) + (if spans[last].Some? then [spans[last].value] else [])
  }

  /** The roster tables of a team page, in heading order. */
  function RosterTables(spans: RosterSections): seq<seq<CellRow>> {
    TablesAfter(PresentHeadings(RosterHeadings, spans), spans)
  }

  /** The rows of every table after its header row, table after table. */
  function DataRows(tables: seq<seq<CellRow>>): seq<CellRow>
    decreases |tables|
  {
    if tables == [] then [] else Drop1(tables[0]) + DataRows(tables[1..])
  }

  /**
   * The link of one roster row: none for a row of zero or one cell (a separator), otherwise
   * the first link of the third cell, which fails when that cell, its link or its `href` is
   * missing.
   */
  function RosterRowLink(domain: string, row: CellRow): (r: Result<Option<string>>)
    ensures r == Ok(None) <==> |row| <= 1
    ensures r.Ok? <==> |row| <= 1 || (|row| >= 3 && row[2].anchors != [] && row[2].anchors[0].href.Some?)
    ensures r.Ok? && r.value.Some? ==>
              |row| >= 3 && row[2].anchors != [] && row[2].anchors[0].href.Some?
              && r.value.value == domain + row[2].anchors[0].href.value
              && StartsWith(r.value.value, domain)
  {
    if |row| <= 1 then Ok(None)
    else if |row| < 3 then Err(IndexOutOfRange)
    else if row[2].anchors == [] then Err(MissingElement)
    else
      var href := row[2].anchors[0].href;
      if href.None? then Err(MissingElement)
      else
        assert (domain + href.value)[..|domain|] == domain;
        Ok(Some(domain + href.value))
  }

  /** The number of rows of at least two cells. */
  function CountLinked(rows: seq<CellRow>): nat
    decreases |rows|
  {
    if rows == [] then 0 else (if |rows[0]| >= 2 then 1 else 0) + CountLinked(rows[1..])
  }

  /**
   * The links of a sequence of roster rows. On success there is exactly one link per row of
   * two or more cells, every link starts with the domain, and no row had exactly two cells.
   */
  function RowsLinks(domain: string, rows: seq<CellRow>): (r: Result<seq<string>>)
    ensures r.Ok? ==> |r.value| == CountLinked(rows)
    ensures r.Ok? ==> forall k :: 0 <= k < |r.value| ==> StartsWith(r.value[k], domain)
    ensures r.Ok? ==> forall k :: 0 <= k < |rows| ==> |rows[k]| != 2
    decreases |rows|
  {
    if rows == [] then Ok([])
    else
      var head :- RosterRowLink(domain, rows[0]);
      var rest :- RowsLinks(domain, rows[1..]);
      assert forall k :: 1 <= k < |rows| ==> rows[k] == rows[1..][k - 1];
      Ok((if head.Some? then [head.value] else []) + rest)
  }

  /** The links one roster row contributes: none or one. */
  function RowLinks(link: Result<Option<string>>): Result<seq<string>> {
    if link.Err? then Err(link.error)
    else if link.value.Some? then Ok([link.value.value])
    else Ok([])
  }

  lemma RowsLinksStep(domain: string, row: CellRow, rest: seq<CellRow>)
    ensures RowsLinks(domain, [row] + rest) == Concat(RowLinks(RosterRowLink(domain, row)), RowsLinks(domain, rest))
  {
    assert ([row] + rest)[0] == row && ([row] + rest)[1..] == rest;
  }

  /** The roster tables found after the given anchors, in anchor order. */
  method TablesAfterTags(spans: RosterSections, relevantTags: seq<string>) returns (tables: seq<seq<CellRow>>)
    requires forall h :: h in relevantTags ==> h in spans
    ensures tables == TablesAfter(relevantTags, spans)
  {
    tables := [];
    for t := 0 to |relevantTags|
      invariant tables == TablesAfter(relevantTags[..t], spans)
    {
      assert relevantTags[..t + 1][..t] == relevantTags[..t];
      var table := spans[relevantTags[t]];
      if table.Some? {
        tables := tables + [table.value];
      }
    }
    assert relevantTags[..|relevantTags|] == relevantTags;
  }

  /** Links of consecutive row runs concatenate; the first failure wins. */
  lemma {:induction false} RowsLinksAppend(domain: string, a: seq<CellRow>, b: seq<CellRow>)
    ensures RowsLinks(domain, a + b) == Concat(RowsLinks(domain, a), RowsLinks(domain, b))
    decreases |a|
  {
    if a == [] {
      assert a + b == b;
      ConcatUnit(RowsLinks(domain, b));
    } else {
      assert a + b == [a[0]] + (a[1..] + b);
      assert a == [a[0]] + a[1..];
      RowsLinksStep(domain, a[0], a[1..] + b);
      RowsLinksStep(domain, a[0], a[1..]);
      RowsLinksAppend(domain, a[1..], b);
      ConcatAssociative(RowLinks(RosterRowLink(domain, a[0])), RowsLinks(domain, a[1..]), RowsLinks(domain, b));
    }
  }

  /** The player links of the data rows of one table, row after row. */
  method TableLinks(domain: string, rows: seq<CellRow>) returns (r: Result<seq<string>>)
    ensures r == RowsLinks(domain, rows)
  {
    var links: seq<string> := [];
    assert rows[0..] == rows;
    ConcatUnit(RowsLinks(domain, rows));
    for i := 0 to |rows|
      invariant RowsLinks(domain, rows) == Concat(Ok(links), RowsLinks(domain, rows[i..]))
    {
      assert rows[i..] == [rows[i]] + rows[i + 1..];
      RowsLinksStep(domain, rows[i], rows[i + 1..]);
      ConcatAssociative(Ok(links), RowLinks(RosterRowLink(domain, rows[i])), RowsLinks(domain, rows[i + 1..]));
      ConcatUnit(RowsLinks(domain, rows[i + 1..]));
      var cols := rows[i];
      if |cols| == 0 || |cols| == 1 {
        continue;
      }
      if |cols| < 3 {
        return Err(IndexOutOfRange);
      }
      var anchor := cols[2].anchors;
      if anchor == [] {
        return Err(MissingElement);
      }
      var href := anchor[0].href;
      if href.None? {
        return Err(MissingElement);
      }
      links := links + [domain + href.value];
    }
    assert links + [] == links;
    return Ok(links);
  }

  /** The player links of the data rows of the given tables, table after table. */
  method RosterLinks(domain: string, tables: seq<seq<CellRow>>) returns (r: Result<seq<string>>)
    ensures r == RowsLinks(domain, DataRows(tables))
  {
    var links: seq<string> := [];
    assert tables[0..] == tables;
    ConcatUnit(RowsLinks(domain, DataRows(tables)));
    for ti := 0 to |tables|
      invariant RowsLinks(domain, DataRows(tables)) == Concat(Ok(links), RowsLinks(domain, DataRows(tables[ti..])))
    {
      var data := Drop1(tables[ti]);
      assert DataRows(tables[ti..]) == data + DataRows(tables[ti + 1..]) by {
        assert tables[ti..][1..] == tables[ti + 1..];
      }
      RowsLinksAppend(domain, data, DataRows(tables[ti + 1..]));
      ConcatAssociative(Ok(links), RowsLinks(domain, data), RowsLinks(domain, DataRows(tables[ti + 1..])));
      var found := TableLinks(domain, data);
      if found.Err? {
        return Err(found.error);
      }
      links := links + found.value;
    }
    assert tables[|tables|..] == [];
    assert links + [] == links;
    return Ok(links);
  }

  /**
   * `_team_parse`: the player links of every roster table found after a known heading, the
   * header row of each table skipped and separator rows ignored.
   */
  method TeamParse(domain: string, spans: RosterSections) returns (r: Result<seq<string>>)
    ensures r == RowsLinks(domain, DataRows(RosterTables(spans)))
  {
    var relevantTags := FindRelevantTags(spans, RosterHeadings);
    var tables := TablesAfterTags(spans, relevantTags);
    r := RosterLinks(domain, tables);
  }
}
