/**
 * What the cargo manifest walk guarantees: the context every record
 * carries, the rows that change nothing, the order of the records, the
 * parts of the document the result depends on, and two worked documents
 * (a dated document, rows under an "APAPA" jetty).
 */
module CargoProperties {
  import opened Wrappers
  import opened Strings
  import opened Search
  import opened CargoRows
  import opened CargoDates
  import opened CargoLookup
  import opened CargoEntry
  import opened CargoWalk

  // ------------------------------------------------------------ the context

  /** A record as the walk emits it: the document date, a set (non-empty), domestic
      jetty in cleaned form and that jetty's state. */
  predicate RecordOk(r: ManifestEntry, date: DateField) {
    r.date == date && r.jetty != "" && !IsForeignEntry(r.jetty) &&
    r.state == GetStateFromJetty(r.jetty) && !Contains(Lower(r.jetty), LatMarker)
  }

  /** The walk's invariant: the date is the document's, the jetty is a
      cleaned name, and every record so far is as emitted. */
  predicate StateOk(st: WalkState, date: DateField) {
    st.date == date && !Contains(Lower(st.jetty), LatMarker) &&
    forall r :: r in st.records ==> RecordOk(r, date)
  }

  /** A row keeps the invariant and only appends records. */
  lemma RowStepKeeps(st: WalkState, row: Row, date: DateField, strptime: Parser)
    requires StateOk(st, date)
    ensures StateOk(RowStep(st, row, strptime), date)
    ensures st.records <= RowStep(st, row, strptime).records
  {
    var next := RowStep(st, row, strptime);
    if row != [] && IsJettyRow(row) {
      CleanHasNoLat(FilledTexts(row)[0]);
    } else if row != [] && IsEntryRow(row) && st.jetty != "" && !IsForeignEntry(st.jetty) {
      match NormalizeRow(row)
      case None =>
      case Some(e) =>
        var base := BuildEntry(st.date, st.jetty, e, strptime);
        SplitCopiesFields(base);
        assert next.records == st.records + SplitBundled(base);
    }
  }

  /** The rows of a table keep the invariant and only append records. */
  lemma {:induction false} WalkRowsKeeps(st: WalkState, rows: seq<Row>, date: DateField, strptime: Parser)
    requires StateOk(st, date)
    ensures StateOk(WalkRows(st, rows, strptime), date)
    ensures st.records <= WalkRows(st, rows, strptime).records
    decreases |rows|
  {
    if rows != [] {
      var mid := WalkRows(st, rows[..|rows| - 1], strptime);
      WalkRowsKeeps(st, rows[..|rows| - 1], date, strptime);
      RowStepKeeps(mid, rows[|rows| - 1], date, strptime);
    }
  }

  /** A jetty read from the page text is a cleaned name too. */
  lemma PageJettyNoLat(page: Page, jetty: string)
    requires !Contains(Lower(jetty), LatMarker)
    ensures !Contains(Lower(PageJetty(page, jetty)), LatMarker)
  {
    if PageJetty(page, jetty) != jetty {
      var lines := Split(page.text, "\n");
      var k := FirstWhere(lines, IsHeaderLine).value;
      CleanHasNoLat(Strip(lines[k]));
    }
  }

  /** The first page sets the document date and keeps the invariant. */
  lemma FirstPageKeeps(pages: seq<Page>, strptime: Parser)
    requires pages != []
    ensures StateOk(WalkPages(pages, 1, strptime), DocumentDate(pages, strptime))
  {
    var date := DocumentDate(pages, strptime);
    TooShort(Lower(""), LatMarker);
    var st1 := Start.(date := PageDate(pages[0], NoDate, strptime));
    assert StateOk(st1, date);
    WalkRowsKeeps(st1, RowsToProcess(pages[0], 1 == |pages|), date, strptime);
    assert WalkPages(pages, 1, strptime) == WalkRows(st1, RowsToProcess(pages[0], 1 == |pages|), strptime);
  }

  /** A later page keeps the invariant. */
  lemma LaterPageKeeps(prev: WalkState, page: Page, index: nat, count: nat, date: DateField, strptime: Parser)
    requires index > 0 && StateOk(prev, date)
    ensures StateOk(PageStep(prev, page, index, count, strptime), date)
  {
    PageJettyNoLat(page, prev.jetty);
    var st2 := prev.(jetty := PageJetty(page, prev.jetty));
    WalkRowsKeeps(st2, RowsToProcess(page, index + 1 == count), date, strptime);
  }

  /** After the first page the walk's date is the document date, and the
      invariant holds from then on. */
  lemma {:induction false} WalkPagesKeeps(pages: seq<Page>, n: nat, strptime: Parser)
    requires 1 <= n <= |pages|
    ensures StateOk(WalkPages(pages, n, strptime), DocumentDate(pages, strptime))
  {
    if n == 1 {
      FirstPageKeeps(pages, strptime);
    } else {
      WalkPagesKeeps(pages, n - 1, strptime);
      LaterPageKeeps(WalkPages(pages, n - 1, strptime), pages[n - 1], n - 1, |pages|,
        DocumentDate(pages, strptime), strptime);
    }
  }

  /** Every record of a document carries the document date, a known,
      domestic, cleaned jetty and that jetty's state. */
  lemma RecordsCarryContext(pages: seq<Page>, strptime: Parser)
    ensures ParsePdfSpec(pages, strptime).Some? ==>
      forall r :: r in ParsePdfSpec(pages, strptime).value ==> RecordOk(r, DocumentDate(pages, strptime))
  {
    if pages != [] {
      WalkPagesKeeps(pages, |pages|, strptime);
    }
  }

  // ----------------------------------------------------------- single rows

  /** Field-name rows and rows without a filled cell change nothing. */
  lemma NonDataRowsIgnored(st: WalkState, row: Row, strptime: Parser)
    requires IsFieldRow(row) || FilledCount(row) == 0
    ensures RowStep(st, row, strptime) == st
  {
  }

  /** A jetty row makes the cleaned text of its one filled cell the jetty
      in force, and emits nothing. */
  lemma JettyRowSetsJetty(st: WalkState, row: Row, i: nat, strptime: Parser)
    requires i < |row| && IsFilled(row[i])
    requires forall j :: 0 <= j < |row| && j != i ==> !IsFilled(row[j])
    ensures RowStep(st, row, strptime) == st.(jetty := CleanJettyName(Strip(row[i].value)))
  {
    SoleFilled(row, i);
  }

  /** While no jetty is set, or the jetty is foreign, only a jetty row
      changes anything: every other row is dropped. */
  lemma RowsDroppedWithoutJetty(st: WalkState, row: Row, strptime: Parser)
    requires st.jetty == "" || IsForeignEntry(st.jetty)
    requires !IsJettyRow(row)
    ensures RowStep(st, row, strptime) == st
  {
  }

  /** Under a jetty naming Ghana nothing is emitted. */
  lemma GhanaRowsDropped(st: WalkState, row: Row, strptime: Parser)
    requires Contains(Upper(st.jetty), "GHANA") && !IsJettyRow(row)
    ensures RowStep(st, row, strptime) == st
  {
    GhanaIsForeign(st.jetty);
  }

  /** An entry row under a set (non-empty), domestic jetty appends one record per
      cargo of its (possibly bundled) entry, at the end. */
  lemma EntryRowEmits(st: WalkState, row: Row, e: seq<string>, strptime: Parser)
    requires IsEntryRow(row) && st.jetty != "" && !IsForeignEntry(st.jetty)
    requires NormalizeRow(row) == Some(e)
    ensures var next := RowStep(st, row, strptime);
      next.jetty == st.jetty && next.date == st.date &&
      next.records == st.records + SplitBundled(BuildEntry(st.date, st.jetty, e, strptime)) &&
      |next.records| >= |st.records| + 1
  {
    EntryStep(st, row, e, strptime);
    SplitCardinality(BuildEntry(st.date, st.jetty, e, strptime));
  }

  /** The new state after an entry row under a set (non-empty), domestic jetty. */
  lemma EntryStep(st: WalkState, row: Row, e: seq<string>, strptime: Parser)
    requires IsEntryRow(row) && st.jetty != "" && !IsForeignEntry(st.jetty)
    requires NormalizeRow(row) == Some(e)
    ensures RowStep(st, row, strptime) ==
      st.(records := st.records + SplitBundled(BuildEntry(st.date, st.jetty, e, strptime)))
  {
  }

  // ---------------------------------------------------------------- order

  /** Rows are walked in order: walking `a + b` is walking `a`, then `b`. */
  lemma {:induction false} WalkRowsAppend(st: WalkState, a: seq<Row>, b: seq<Row>, strptime: Parser)
    ensures WalkRows(st, a + b, strptime) == WalkRows(WalkRows(st, a, strptime), b, strptime)
    decreases |b|
  {
    if b == [] {
      assert a + b == a;
    } else {
      var b' := b[..|b| - 1];
      WalkRowsAppend(st, a, b', strptime);
      assert (a + b)[..|a + b| - 1] == a + b';
      assert (a + b)[|a + b| - 1] == b[|b| - 1];
    }
  }

  // --------------------------------------------- what the result depends on

  /** Two documents that agree on the page count, the page texts and each
      page's first table (and on which pages have tables at all) give the
      same state: the other tables are never read. */
  lemma {:induction false} FirstTableOnly(pages: seq<Page>, pages': seq<Page>, n: nat, strptime: Parser)
    requires |pages| == |pages'| && n <= |pages|
    requires forall i :: 0 <= i < |pages| ==>
      pages[i].text == pages'[i].text && (pages[i].tables == [] <==> pages'[i].tables == [])
    requires forall i :: 0 <= i < |pages| && pages[i].tables != [] ==>
      pages[i].tables[0] == pages'[i].tables[0]
    ensures WalkPages(pages, n, strptime) == WalkPages(pages', n, strptime)
  {
    if n > 0 {
      FirstTableOnly(pages, pages', n - 1, strptime);
      SameFirstTable(WalkPages(pages, n - 1, strptime), pages[n - 1], pages'[n - 1], n - 1, |pages|, strptime);
    }
  }

  /** One page step reads the page's text and first table only. */
  lemma SameFirstTable(st: WalkState, p: Page, p': Page, index: nat, count: nat, strptime: Parser)
    requires p.text == p'.text && (p.tables == [] <==> p'.tables == [])
    requires p.tables != [] ==> p.tables[0] == p'.tables[0]
    ensures PageStep(st, p, index, count, strptime) == PageStep(st, p', index, count, strptime)
  {
    assert RowsToProcess(p, index + 1 == count) == RowsToProcess(p', index + 1 == count);
    assert PageDate(p, st.date, strptime) == PageDate(p', st.date, strptime);
    assert PageJetty(p, st.jetty) == PageJetty(p', st.jetty);
  }

  /** The walk up to page `n` reads only the first `n` pages and the page
      count. */
  lemma {:induction false} WalkPagesPrefix(pages: seq<Page>, pages': seq<Page>, n: nat, strptime: Parser)
    requires |pages| == |pages'| && n <= |pages| && pages[..n] == pages'[..n]
    ensures WalkPages(pages, n, strptime) == WalkPages(pages', n, strptime)
  {
    if n > 0 {
      assert pages[..n - 1] == pages[..n][..n - 1];
      assert pages'[..n - 1] == pages'[..n][..n - 1];
      assert pages[n - 1] == pages[..n][n - 1];
      assert pages'[n - 1] == pages'[..n][n - 1];
      WalkPagesPrefix(pages, pages', n - 1, strptime);
    }
  }

  /** The final row of the last page's first table is never read (when that
      table is long enough not to hold the date cell or the opening field
      row there): replacing it leaves the result unchanged. */
  lemma LastRowIgnored(pages: seq<Page>, row: Row, strptime: Parser)
    requires pages != [] && pages[|pages| - 1].tables != []
    requires |pages[|pages| - 1].tables[0]| > 3
    ensures var last := pages[|pages| - 1];
      var table := last.tables[0];
      var table' := table[|table| - 1 := row];
      var pages' := pages[|pages| - 1 := last.(tables := last.tables[0 := table'])];
      ParsePdfSpec(pages', strptime) == ParsePdfSpec(pages, strptime)
  {
    var n := |pages|;
    var last := pages[n - 1];
    var pages' := pages[n - 1 := LastRowReplaced(last, row)];
    assert pages[..n - 1] == pages'[..n - 1];
    LastPageWalk(pages, pages', row, strptime);
  }

  /** `last` with the final row of its first table replaced by `row`. */
  function LastRowReplaced(last: Page, row: Row): Page
    requires last.tables != [] && last.tables[0] != []
  {
    last.(tables := last.tables[0 := last.tables[0][|last.tables[0]| - 1 := row]])
  }

  /** Two documents that differ only in the final row of the last page's
      first table are walked alike. */
  lemma LastPageWalk(pages: seq<Page>, pages': seq<Page>, row: Row, strptime: Parser)
    requires pages != [] && |pages'| == |pages| && pages[..|pages| - 1] == pages'[..|pages| - 1]
    requires pages[|pages| - 1].tables != [] && |pages[|pages| - 1].tables[0]| > 3
    requires pages'[|pages| - 1] == LastRowReplaced(pages[|pages| - 1], row)
    ensures WalkPages(pages', |pages|, strptime) == WalkPages(pages, |pages|, strptime)
  {
    var n := |pages|;
    LastPageSame(WalkPages(pages, n - 1, strptime), pages[n - 1], row, n - 1, n, strptime);
    WalkPagesPrefix(pages, pages', n - 1, strptime);
  }

  /** The last page with its final row replaced is walked as the page itself. */
  lemma LastPageSame(st: WalkState, last: Page, row: Row, index: nat, count: nat, strptime: Parser)
    requires last.tables != [] && |last.tables[0]| > 3 && index + 1 == count
    ensures PageStep(st, LastRowReplaced(last, row), index, count, strptime) == PageStep(st, last, index, count, strptime)
  {
    var last' := LastRowReplaced(last, row);
    var table := last.tables[0];
    var table' := last'.tables[0];
    assert table'[..|table'| - 1] == table[..|table| - 1];
    assert RowsToProcess(last', true) == RowsToProcess(last, true);
    assert PageDate(last', st.date, strptime) == PageDate(last, st.date, strptime);
    assert PageJetty(last', st.jetty) == PageJetty(last, st.jetty);
  }

  // ------------------------------------------------------------- scenarios

  /** A document whose date cell reads "DATE: 10-Jan-24" dates every record
      with what the formats make of "10-JAN-24"; with the first format
      reading it as 10 January 2024, that is the date of every record, on
      every page. */
  lemma DatedDocument(pages: seq<Page>, strptime: Parser)
    requires pages != [] && pages[0].tables != [] && |pages[0].tables[0]| > 2
    requires |pages[0].tables[0][2]| > 9 && pages[0].tables[0][2][9] == Some("DATE: 10-Jan-24")
    requires strptime("10-JAN-24", DayMonAbbrYear2) == Some(Date(2024, 1, 10))
    requires ParsePdfSpec(pages, strptime).Some?
    ensures forall r :: r in ParsePdfSpec(pages, strptime).value ==> r.date == Parsed(Date(2024, 1, 10))
  {
    RecordsCarryContext(pages, strptime);
    DateLabelDropped();
    assert !IsBlankDate("DATE: 10-Jan-24") by {
      LabelFacts();
      StrippedIsFixpoint("DATE: 10-Jan-24");
    }
    FirstFormatWins("DATE: 10-Jan-24", strptime, 0);
  }

  lemma ApapaCell()
    ensures Strip("APAPA") == "APAPA" && IsFilled(Some("APAPA"))
    ensures FilledTexts([Some("APAPA")]) == ["APAPA"]
  {
    StrippedIsFixpoint("APAPA");
    SoleFilled([Some("APAPA")], 0);
  }

  lemma ApapaClean()
    ensures CleanJettyName("APAPA") == "APAPA"
  {
    assert Lower("APAPA") == "apapa";
    MissingChar("apapa", LatMarker, ' ');
    StrippedIsFixpoint("APAPA");
  }

  lemma ApapaMissesWest()
    ensures !Contains("APAPA", "GHANA") && !Contains("APAPA", "ABIDJAN")
    ensures !Contains("APAPA", "LOME") && !Contains("APAPA", "TOGO")
  {
    MissingChar("APAPA", "GHANA", 'G');
    MissingChar("APAPA", "ABIDJAN", 'B');
    MissingChar("APAPA", "LOME", 'L');
    MissingChar("APAPA", "TOGO", 'T');
  }

  lemma ApapaMissesEast()
    ensures !Contains("APAPA", "COTONOU") && !Contains("APAPA", "BENIN")
    ensures !Contains("APAPA", "IVORY COAST")
  {
    MissingChar("APAPA", "COTONOU", 'C');
    MissingChar("APAPA", "BENIN", 'B');
    MissingChar("APAPA", "IVORY COAST", 'I');
  }

  lemma ApapaDomestic()
    ensures !IsForeignEntry("APAPA")
  {
    assert Upper("APAPA") == "APAPA";
    ApapaMissesWest();
    ApapaMissesEast();
    ForeignIff("APAPA");
  }

  /** A jetty under which entry rows are recorded: set (non-empty) and domestic. */
  predicate DomesticJetty(jetty: string) {
    jetty != "" && !IsForeignEntry(jetty)
  }

  /** An entry row whose normalised cells `e` name a single cargo. */
  predicate UnbundledEntry(row: Row, e: seq<string>) {
    IsEntryRow(row) && NormalizeRow(row) == Some(e) && !Contains(e[2], "/")
  }

  /** An entry row without a bundled cargo under a set (non-empty), domestic jetty
      appends exactly its own record. */
  lemma UnbundledEntryStep(st: WalkState, row: Row, e: seq<string>, strptime: Parser)
    requires DomesticJetty(st.jetty) && UnbundledEntry(row, e)
    ensures RowStep(st, row, strptime) ==
      st.(records := st.records + [BuildEntry(st.date, st.jetty, e, strptime)])
  {
    EntryStep(st, row, e, strptime);
    SplitCardinality(BuildEntry(st.date, st.jetty, e, strptime));
  }

  /** The jetty row "APAPA" makes "APAPA" the jetty in force. */
  lemma ApapaRowStep(st: WalkState, strptime: Parser)
    ensures RowStep(st, [Some("APAPA")], strptime) == st.(jetty := "APAPA")
  {
    ApapaCell();
    ApapaClean();
  }

  /** Three rows, walked one after the other. */
  lemma WalkThree(st: WalkState, a: Row, b: Row, c: Row, strptime: Parser)
    ensures WalkRows(st, [a, b, c], strptime) ==
      RowStep(RowStep(RowStep(st, a, strptime), b, strptime), c, strptime)
  {
    var rows := [a, b, c];
    assert rows[..2] == [a, b] && [a, b][..1] == [a] && [a][..0] == [];
    assert WalkRows(st, [a], strptime) == RowStep(st, a, strptime);
    assert WalkRows(st, [a, b], strptime) == RowStep(RowStep(st, a, strptime), b, strptime);
  }

  /** A record built under "APAPA" is a Lagos record. */
  lemma ApapaRecord(date: DateField, e: seq<string>, strptime: Parser)
    requires |e| == EntryWidth
    ensures BuildEntry(date, "APAPA", e, strptime).jetty == "APAPA"
    ensures BuildEntry(date, "APAPA", e, strptime).state == "Lagos"
  {
    ApapaIsLagos();
  }

  /** Appending two elements one at a time appends the pair. */
  lemma AppendTwo<T>(s: seq<T>, x: T, y: T)
    ensures (s + [x]) + [y] == s + [x, y]
  {
  }

  /** Two unbundled entry rows under a set (non-empty), domestic jetty append their
      two records, in row order. */
  lemma TwoEntries(st: WalkState, r1: Row, r2: Row, e1: seq<string>, e2: seq<string>, strptime: Parser)
    requires DomesticJetty(st.jetty)
    requires UnbundledEntry(r1, e1)
    requires UnbundledEntry(r2, e2)
    ensures RowStep(RowStep(st, r1, strptime), r2, strptime).records ==
      st.records + [BuildEntry(st.date, st.jetty, e1, strptime), BuildEntry(st.date, st.jetty, e2, strptime)]
  {
    var b1 := BuildEntry(st.date, st.jetty, e1, strptime);
    UnbundledEntryStep(st.(records := st.records + [b1]), r2, e2, strptime);
    UnbundledEntryStep(st, r1, e1, strptime);
    var b2 := BuildEntry(st.date, st.jetty, e2, strptime);
    AppendTwo(st.records, b1, b2);
  }

  /** The records of the "APAPA" rows, before their fields are looked at. */
  lemma ApapaRecords(st: WalkState, r1: Row, r2: Row, e1: seq<string>, e2: seq<string>, strptime: Parser)
    requires UnbundledEntry(r1, e1)
    requires UnbundledEntry(r2, e2)
    ensures WalkRows(st, [[Some("APAPA")], r1, r2], strptime).records ==
      st.records + [BuildEntry(st.date, "APAPA", e1, strptime), BuildEntry(st.date, "APAPA", e2, strptime)]
  {
    ApapaDomestic();
    WalkThree(st, [Some("APAPA")], r1, r2, strptime);
    ApapaRowStep(st, strptime);
    TwoEntries(st.(jetty := "APAPA"), r1, r2, e1, e2, strptime);
  }

  /** A jetty row "APAPA" followed by two entry rows: two records, both under
      jetty "APAPA" in Lagos, in row order. The jetty is the cell's text as
      written; it is not re-cased. */
  lemma ApapaScenario(st: WalkState, r1: Row, r2: Row, e1: seq<string>, e2: seq<string>, strptime: Parser)
    requires UnbundledEntry(r1, e1)
    requires UnbundledEntry(r2, e2)
    ensures var out := WalkRows(st, [[Some("APAPA")], r1, r2], strptime).records;
      out == st.records + [BuildEntry(st.date, "APAPA", e1, strptime), BuildEntry(st.date, "APAPA", e2, strptime)] &&
      out[|st.records|].jetty == "APAPA" && out[|st.records|].state == "Lagos" &&
      out[|st.records| + 1].jetty == "APAPA" && out[|st.records| + 1].state == "Lagos"
  {
    ApapaRecords(st, r1, r2, e1, e2, strptime);
    ApapaRecord(st.date, e1, strptime);
    ApapaRecord(st.date, e2, strptime);
  }
}
