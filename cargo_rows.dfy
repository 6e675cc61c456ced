/**
 * The row classifier of scrapers/cargo_processor.py: a table row is a jetty
 * header (one filled cell), a field-name header (enough cells naming the
 * manifest columns), an entry, or blank.
 */
module CargoRows {
  import opened Wrappers
  import opened Strings

  /** An extracted table cell: text, or `None` where the extractor found none. */
  type Cell = Option<string>
  type Row = seq<Cell>

  /** The test `c and str(c).strip()`: a cell with visible text. */
  predicate IsFilled(c: Cell) {
    c.Some? && Strip(c.value) != ""
  }

  /** `[str(c).strip() for c in row if c and str(c).strip()]`. */
  function FilledTexts(row: Row): seq<string>
    decreases |row|
  {
    if row == [] then []
    else (if IsFilled(row[0]) then [Strip(row[0].value)] else []) + FilledTexts(row[1..])
  }

  /** The number of filled cells. */
  function FilledCount(row: Row): nat {
    |FilledTexts(row)|
  }

  /** A row has no filled cell exactly when no cell is filled. */
  lemma {:induction false} NoFilledIff(row: Row)
    ensures FilledCount(row) == 0 <==> forall i :: 0 <= i < |row| ==> !IsFilled(row[i])
    decreases |row|
  {
    if row != [] {
      NoFilledIff(row[1..]);
      assert forall i :: 1 <= i < |row| ==> row[i] == row[1..][i - 1];
    }
  }

  /** The filled cells of a row are the row's only source of text: when
      cell `i` is filled and no other is, the filled texts are its text. */
  lemma {:induction false} SoleFilled(row: Row, i: nat)
    requires i < |row| && IsFilled(row[i])
    requires forall j :: 0 <= j < |row| && j != i ==> !IsFilled(row[j])
    ensures FilledTexts(row) == [Strip(row[i].value)]
    decreases |row|
  {
    if i == 0 {
      NoFilledIff(row[1..]);
      assert forall j :: 0 <= j < |row[1..]| ==> row[1..][j] == row[j + 1];
    } else {
      SoleFilled(row[1..], i - 1);
    }
  }

  // ---------------------------------------------------------------- jetty rows

  /** `is_jetty_row`: exactly one filled cell. */
  predicate IsJettyRow(row: Row) {
    FilledCount(row) == 1
  }

  /** The filled cell of a row with exactly one. */
  lemma {:induction false} SoleFilledIndex(row: Row) returns (i: nat)
    requires FilledCount(row) == 1
    ensures i < |row| && IsFilled(row[i])
    ensures forall j :: 0 <= j < |row| && j != i ==> !IsFilled(row[j])
    decreases |row|
  {
    var tail := row[1..];
    assert forall j :: 1 <= j < |row| ==> row[j] == tail[j - 1];
    if IsFilled(row[0]) {
      NoFilledIff(tail);
      i := 0;
    } else {
      var k := SoleFilledIndex(tail);
      i := k + 1;
    }
  }

  /** A jetty row has one filled cell and every other cell is blank. */
  lemma JettyRowIff(row: Row)
    ensures IsJettyRow(row) <==>
      exists i :: 0 <= i < |row| && IsFilled(row[i]) &&
        forall j :: 0 <= j < |row| && j != i ==> !IsFilled(row[j])
  {
    if IsJettyRow(row) {
      var i := SoleFilledIndex(row);
    } else {
      forall i | 0 <= i < |row| && IsFilled(row[i])
        ensures exists j :: 0 <= j < |row| && j != i && IsFilled(row[j])
      {
        if forall j :: 0 <= j < |row| && j != i ==> !IsFilled(row[j]) {
          SoleFilled(row, i);
        }
      }
    }
  }

  // ---------------------------------------------------------------- field rows

  /** The column names that mark a field-name header. */
  const FieldKeywords: seq<string> :=
    ["POSITION", "SHIP'S NAME", "CARGO", "QTY", "ARRVD", "ETB", "SAILED"]

  /** How many of `keywords` occur in `cell`. */
  function KeywordHits(cell: string, keywords: seq<string>): (n: nat)
    ensures n <= |keywords|
    decreases |keywords|
  {
    if keywords == [] then 0
    else (if Contains(cell, keywords[0]) then 1 else 0) + KeywordHits(cell, keywords[1..])
  }

  /** `sum(1 for cell in cells for exp in expected if exp in cell)`: the
      number of (cell, keyword) pairs with the keyword inside the cell. */
  function MatchCount(cells: seq<string>, keywords: seq<string>): nat
    decreases |cells|
  {
    if cells == [] then 0
    else KeywordHits(cells[0], keywords) + MatchCount(cells[1..], keywords)
  }

  /** The stripped, upper-cased texts that `is_field_row` inspects. */
  function HeaderTexts(row: Row): seq<string> {
    var t := FilledTexts(row);
    seq(|t|, k requires 0 <= k < |t| => Upper(t[k]))
  }

  /** `is_field_row`: at least four filled cells and three keyword hits. */
  predicate IsFieldRow(row: Row) {
    FilledCount(row) >= 4 && MatchCount(HeaderTexts(row), FieldKeywords) >= 3
  }

  /** Each keyword inside a cell is one hit of its own. */
  lemma {:induction false} KeywordHitsCountsEach(cell: string, keywords: seq<string>, i: nat, j: nat)
    requires i < j < |keywords|
    requires Contains(cell, keywords[i]) && Contains(cell, keywords[j])
    ensures KeywordHits(cell, keywords) >= 2
    decreases |keywords|
  {
    if i == 0 {
      KeywordHitsAtLeastOne(cell, keywords[1..], j - 1);
    } else {
      KeywordHitsCountsEach(cell, keywords[1..], i - 1, j - 1);
    }
  }

  lemma {:induction false} KeywordHitsAtLeastOne(cell: string, keywords: seq<string>, i: nat)
    requires i < |keywords| && Contains(cell, keywords[i])
    ensures KeywordHits(cell, keywords) >= 1
    decreases |keywords|
  {
    if i > 0 {
      KeywordHitsAtLeastOne(cell, keywords[1..], i - 1);
    }
  }

  /** Every cell's hits add to the total: no cell's hits are lost. */
  lemma {:induction false} MatchCountCoversCell(cells: seq<string>, keywords: seq<string>, k: nat)
    requires k < |cells|
    ensures MatchCount(cells, keywords) >= KeywordHits(cells[k], keywords)
    decreases |cells|
  {
    if k > 0 {
      MatchCountCoversCell(cells[1..], keywords, k - 1);
    }
  }

  /** One cell naming two columns counts twice: with at least four filled
      cells, a pair of keywords in one cell and a third in another make a
      field row. */
  lemma FieldRowByPairs(row: Row, a: nat, b: nat, i: nat, j: nat, l: nat)
    requires FilledCount(row) >= 4 && a < |HeaderTexts(row)| && b < |HeaderTexts(row)| && a != b
    requires i < j < |FieldKeywords| && l < |FieldKeywords|
    requires Contains(HeaderTexts(row)[a], FieldKeywords[i]) && Contains(HeaderTexts(row)[a], FieldKeywords[j])
    requires Contains(HeaderTexts(row)[b], FieldKeywords[l])
    ensures IsFieldRow(row)
  {
    var h := HeaderTexts(row);
    KeywordHitsCountsEach(h[a], FieldKeywords, i, j);
    KeywordHitsAtLeastOne(h[b], FieldKeywords, l);
    MatchCountCoversTwo(h, FieldKeywords, a, b);
  }

  lemma {:induction false} MatchCountCoversTwo(cells: seq<string>, keywords: seq<string>, a: nat, b: nat)
    requires a < |cells| && b < |cells| && a != b
    ensures MatchCount(cells, keywords) >= KeywordHits(cells[a], keywords) + KeywordHits(cells[b], keywords)
    decreases |cells|
  {
    if a == 0 {
      assert cells[1..][b - 1] == cells[b];
      MatchCountCoversCell(cells[1..], keywords, b - 1);
    } else if b == 0 {
      assert cells[1..][a - 1] == cells[a];
      MatchCountCoversCell(cells[1..], keywords, a - 1);
    } else {
      MatchCountCoversTwo(cells[1..], keywords, a - 1, b - 1);
    }
  }

  // ---------------------------------------------------------------- entry rows

  /** `is_entry_row`: some filled cell, and neither a jetty nor a field row. */
  predicate IsEntryRow(row: Row) {
    FilledCount(row) > 0 && !IsJettyRow(row) && !IsFieldRow(row)
  }

  /** The four classes a row can fall into. */
  datatype RowKind = BlankRow | JettyRow | FieldRow | EntryRow

  /** Every row falls into exactly one class: the classifier's three tests
      never hold together, and a row failing all three is blank. */
  function Classify(row: Row): (kind: RowKind)
    ensures kind == JettyRow <==> IsJettyRow(row)
    ensures kind == FieldRow <==> IsFieldRow(row)
    ensures kind == EntryRow <==> IsEntryRow(row)
    ensures kind == BlankRow <==> forall i :: 0 <= i < |row| ==> !IsFilled(row[i])
  {
    NoFilledIff(row);
    if IsJettyRow(row) then JettyRow
    else if IsFieldRow(row) then FieldRow
    else if IsEntryRow(row) then EntryRow
    else BlankRow
  }
}
