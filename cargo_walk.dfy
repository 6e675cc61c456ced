/**
 * The page and row walk of `parse_pdf_to_excel` in
 * scrapers/cargo_processor.py. The extractor's output is the input: each
 * page is its list of tables and its text. Two values travel along the
 * walk, the document date and the jetty in force, and every entry row
 * under a set (non-empty), domestic jetty is appended as one or more records.
 */
module CargoWalk {
  import opened Wrappers
  import opened Strings
  import opened Search
  import opened CargoRows
  import opened CargoDates
  import opened CargoLookup
  import opened CargoEntry

  /** One page as the extractor reports it: its tables (each a list of rows)
      and its text, "" where the extractor found none. */
  datatype Page = Page(tables: seq<seq<Row>>, text: string)

  /** What the walk carries: the date, the jetty in force ("" for none yet)
      and the records emitted so far. */
  datatype WalkState = WalkState(date: DateField, jetty: string, records: seq<ManifestEntry>)

  const Start := WalkState(NoDate, "", [])

  // ------------------------------------------------------------------ the date

  /** Page 0 sets the date from cell 9 of row 2 of its first table, when
      that cell exists and holds text; otherwise the date stays as it was. */
  function PageDate(page: Page, date: DateField, strptime: Parser): DateField {
    if |page.tables| > 0 && |page.tables[0]| > 2 && |page.tables[0][2]| > 9 &&
       page.tables[0][2][9].Some? && page.tables[0][2][9].value != ""
    then ParseDate(page.tables[0][2][9].value, strptime)
    else date
  }

  /** The date every record of a document carries. */
  function DocumentDate(pages: seq<Page>, strptime: Parser): DateField {
    if pages == [] then NoDate else PageDate(pages[0], NoDate, strptime)
  }

  // ------------------------------------------------------- the jetty of a page

  /** A text line that can name the page's jetty: not blank, and not the
      page-number line. */
  predicate IsHeaderLine(line: string) {
    Strip(line) != "" && !Contains(Lower(line), "page")
  }

  /** The jetty named by the page text: the cleaned first header line. */
  function HeaderJettyOf(text: string, jetty: string): string {
    if text == "" then jetty
    else
      var lines := Split(text, "\n");
      match FirstWhere(lines, IsHeaderLine)
      case Some(k) => CleanJettyName(Strip(lines[k]))
      case None => jetty
  }

  /** The first header line decides; lines before it are blank or
      page-number lines. */
  lemma HeaderLineFirst(text: string, jetty: string, k: nat)
    requires text != "" && k < |Split(text, "\n")|
    requires IsHeaderLine(Split(text, "\n")[k])
    requires forall j :: 0 <= j < k ==> !IsHeaderLine(Split(text, "\n")[j])
    ensures HeaderJettyOf(text, jetty) == CleanJettyName(Strip(Split(text, "\n")[k]))
  {
    FirstWhereAt(Split(text, "\n"), IsHeaderLine, k);
  }

  /** A text without a header line leaves the jetty as it was. */
  lemma NoHeaderLine(text: string, jetty: string)
    requires forall j :: 0 <= j < |Split(text, "\n")| ==> !IsHeaderLine(Split(text, "\n")[j])
    ensures HeaderJettyOf(text, jetty) == jetty
  {
  }

  /** The scan of the page's lines for its jetty. */
  method HeaderJetty(text: string, jetty: string) returns (r: string)
    ensures r == HeaderJettyOf(text, jetty)
  {
    r := jetty;
    if text != "" {
      var lines := Split(text, "\n");
      var i := 0;
      while i < |lines|
        invariant 0 <= i <= |lines|
        invariant forall j :: 0 <= j < i ==> !IsHeaderLine(lines[j])
      {
        if Strip(lines[i]) != "" && !Contains(Lower(lines[i]), "page") {
          FirstWhereAt(lines, IsHeaderLine, i);
          r := CleanJettyName(Strip(lines[i]));
          return;
        }
        i := i + 1;
      }
    }
  }

  /** A page after the first whose first table opens with a field row takes
      its jetty from its text. */
  function PageJetty(page: Page, jetty: string): string {
    if |page.tables| > 0 && |page.tables[0]| > 0 && IsFieldRow(page.tables[0][0])
    then HeaderJettyOf(page.text, jetty)
    else jetty
  }

  // ---------------------------------------------------------------- the rows

  /** One row of the walk. */
  function RowStep(st: WalkState, row: Row, strptime: Parser): WalkState {
    if row == [] then st
    else if IsJettyRow(row) then st.(jetty := CleanJettyName(FilledTexts(row)[0]))
    else if IsEntryRow(row) && st.jetty != "" then
      if IsForeignEntry(st.jetty) then st
      else
        match NormalizeRow(row)
        case None => st
        case Some(e) => st.(records := st.records + SplitBundled(BuildEntry(st.date, st.jetty, e, strptime)))
    else st
  }

  /** The rows of a table, one after the other. */
  function WalkRows(st: WalkState, rows: seq<Row>, strptime: Parser): WalkState
    decreases |rows|
  {
    if rows == [] then st
    else RowStep(WalkRows(st, rows[..|rows| - 1], strptime), rows[|rows| - 1], strptime)
  }

  /** The rows walked on a page: its first table, without the final row on
      the last page. */
  function RowsToProcess(page: Page, isLast: bool): seq<Row> {
    if page.tables == [] then []
    else
      var table := page.tables[0];
      if isLast && table != [] then table[..|table| - 1] else table
  }

  /** One page of the walk: the date (page 0), the jetty header (later
      pages), then the rows. */
  function PageStep(st: WalkState, page: Page, index: nat, count: nat, strptime: Parser): WalkState {
    var st1 := if index == 0 then st.(date := PageDate(page, st.date, strptime)) else st;
    var st2 := if index > 0 then st1.(jetty := PageJetty(page, st1.jetty)) else st1;
    WalkRows(st2, RowsToProcess(page, index + 1 == count), strptime)
  }

  /** The state after the first `n` pages. */
  function WalkPages(pages: seq<Page>, n: nat, strptime: Parser): WalkState
    requires n <= |pages|
  {
    if n == 0 then Start
    else PageStep(WalkPages(pages, n - 1, strptime), pages[n - 1], n - 1, |pages|, strptime)
  }

  /** `parse_pdf_to_excel`: the records of the document, `None` when there
      are none. */
  function ParsePdfSpec(pages: seq<Page>, strptime: Parser): (r: Option<seq<ManifestEntry>>)
    ensures r.Some? ==> r.value != []
  {
    var records := WalkPages(pages, |pages|, strptime).records;
    if records == [] then None else Some(records)
  }

  // ------------------------------------------------------------- the method

  /** One row as written: a jetty row replaces `current_jetty`, an entry row
      under a set (non-empty), domestic jetty extends the records. */
  method ProcessRow(date: DateField, jetty: string, records: seq<ManifestEntry>, row: Row, strptime: Parser)
    returns (jetty': string, records': seq<ManifestEntry>)
    ensures WalkState(date, jetty', records') == RowStep(WalkState(date, jetty, records), row, strptime)
  {
    jetty', records' := jetty, records;
    if row == [] {
      return;
    }
    if IsJettyRow(row) {
      var nonNone := FilledTexts(row);
      jetty' := CleanJettyName(if nonNone != [] then nonNone[0] else "");
    } else if IsEntryRow(row) && jetty != "" {
      if IsForeignEntry(jetty) {
        return;
      }
      var entry := NormalizeEntry(row);
      if entry.None? {
        return;
      }
      var base := BuildEntry(date, jetty, entry.value, strptime);
      var split := SplitBundledRow(base);
      records' := records + split;
    }
  }

  /** The row loop of one page. */
  method ProcessRows(date: DateField, jetty: string, records: seq<ManifestEntry>, rows: seq<Row>, strptime: Parser)
    returns (jetty': string, records': seq<ManifestEntry>)
    ensures WalkState(date, jetty', records') == WalkRows(WalkState(date, jetty, records), rows, strptime)
  {
    jetty', records' := jetty, records;
    var i := 0;
    while i < |rows|
      invariant 0 <= i <= |rows|
      invariant WalkState(date, jetty', records') == WalkRows(WalkState(date, jetty, records), rows[..i], strptime)
    {
      jetty', records' := ProcessRow(date, jetty', records', rows[i], strptime);
      assert rows[..i + 1][..i] == rows[..i];
      i := i + 1;
    }
    assert rows[..i] == rows;
  }

  /** The start of a page as written: the date read on page 0, the jetty
      header read on later pages. */
  method PageContext(page: Page, pageIndex: nat, date: DateField, jetty: string, strptime: Parser)
    returns (date': DateField, jetty': string)
    ensures date' == if pageIndex == 0 then PageDate(page, date, strptime) else date
    ensures jetty' == if pageIndex > 0 then PageJetty(page, jetty) else jetty
  {
    date', jetty' := date, jetty;
    var tables := page.tables;
    if pageIndex == 0 && |tables| > 0 && |tables[0]| > 2 {
      var row: Row := tables[0][2];
      if |row| > 9 && row[9].Some? && row[9].value != "" {
        date' := ParseDate(row[9].value, strptime);
      }
    }
    if pageIndex > 0 && |tables| > 0 && |tables[0]| > 0 && IsFieldRow(tables[0][0]) {
      jetty' := HeaderJetty(page.text, jetty);
    }
  }

  /** Page `pageIndex` of the walk as written: the page context, then the
      rows of its first table (without the final row on the last page). */
  method ProcessPage(pages: seq<Page>, pageIndex: nat, date: DateField, jetty: string,
                     records: seq<ManifestEntry>, strptime: Parser)
    returns (date': DateField, jetty': string, records': seq<ManifestEntry>)
    requires pageIndex < |pages|
    requires WalkState(date, jetty, records) == WalkPages(pages, pageIndex, strptime)
    ensures WalkState(date', jetty', records') == WalkPages(pages, pageIndex + 1, strptime)
  {
    var page := pages[pageIndex];
    date', jetty' := PageContext(page, pageIndex, date, jetty, strptime);
    ghost var st2 := WalkState(date', jetty', records);
    records' := records;
    var tables := page.tables;
    if |tables| > 0 {
      var table := tables[0];
      var rowsToProcess := if pageIndex == |pages| - 1 && |table| > 0 then table[..|table| - 1] else table;
      assert rowsToProcess == RowsToProcess(page, pageIndex + 1 == |pages|);
      jetty', records' := ProcessRows(date', jetty', records', rowsToProcess, strptime);
    }
    assert WalkState(date', jetty', records') == WalkRows(st2, RowsToProcess(page, pageIndex + 1 == |pages|), strptime);
  }

  /** The walk as written: locals `date` and `current_jetty` updated page by
      page, and the records list extended row by row. */
  method ParsePdf(pages: seq<Page>, strptime: Parser) returns (r: Option<seq<ManifestEntry>>)
    ensures r == ParsePdfSpec(pages, strptime)
  {
    var allData: seq<ManifestEntry> := [];
    var date := NoDate;
    var currentJetty := "";
    var pageIndex := 0;
    while pageIndex < |pages|
      invariant 0 <= pageIndex <= |pages|
      invariant WalkState(date, currentJetty, allData) == WalkPages(pages, pageIndex, strptime)
    {
      date, currentJetty, allData := ProcessPage(pages, pageIndex, date, currentJetty, allData, strptime);
      pageIndex := pageIndex + 1;
    }
    if allData == [] {
      return None;
    }
    return Some(allData);
  }
}
