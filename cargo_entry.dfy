/**
 * The entry normaliser and the bundled-row splitter of
 * scrapers/cargo_processor.py: an entry row becomes nine text cells
 * (Position, Ship's Name, Cargo, Quantity, ETA, ETB, Sailed, Charterers,
 * Remarks), then one manifest record, then one record per cargo of a
 * bundle such as "PMS / AGO".
 */
module CargoEntry {
  import opened Wrappers
  import opened Strings
  import opened CargoRows
  import opened CargoDates
  import opened CargoLookup

  /** The number of cells of a normalised entry. */
  const EntryWidth: nat := 9

  /** The placeholder for an empty cell. */
  const Sentinel := "-"

  // ------------------------------------------------------------- normalising

  /** `str(c).strip() if c else None`: a falsy cell is absent; any other cell
      is its stripped text, which is "" for a cell of white space. */
  function ProcessCell(c: Cell): (p: Cell)
    ensures p.Some? <==> c.Some? && c.value != ""
    ensures p.Some? ==> p.value == Strip(c.value)
  {
    if c.Some? && c.value != "" then Some(Strip(c.value)) else None
  }

  function Processed(row: Row): seq<Cell> {
    seq(|row|, i requires 0 <= i < |row| => ProcessCell(row[i]))
  }

  /** The index of the last present cell, `None` when every cell is absent. */
  function LastPresent(p: seq<Cell>): (r: Option<nat>)
    ensures r.Some? ==> r.value < |p| && p[r.value].Some?
    ensures r.Some? ==> forall j :: r.value < j < |p| ==> p[j].None?
    ensures r.None? ==> forall j :: 0 <= j < |p| ==> p[j].None?
    decreases |p|
  {
    if p == [] then None
    else if p[|p| - 1].Some? then Some(|p| - 1)
    else LastPresent(p[..|p| - 1])
  }

  /** `data[-9:]` when more than nine cells remain. */
  function KeepLast(d: seq<Cell>): (k: seq<Cell>)
    ensures |k| <= EntryWidth && (|d| <= EntryWidth ==> k == d)
  {
    if |d| > EntryWidth then d[|d| - EntryWidth..] else d
  }

  /** `item if item else '-'`. */
  function FillCell(c: Cell): string {
    if c.Some? && c.value != "" then c.value else Sentinel
  }

  function FillSentinels(d: seq<Cell>): (e: seq<string>)
    ensures |e| == |d|
  {
    seq(|d|, i requires 0 <= i < |d| => FillCell(d[i]))
  }

  /** The `while len(entry) < 9: entry.append('-')` padding. */
  function PadToWidth(e: seq<string>): (r: seq<string>)
    requires |e| <= EntryWidth
    ensures |r| == EntryWidth && r[..|e|] == e
    ensures forall k :: |e| <= k < EntryWidth ==> r[k] == Sentinel
  {
    e + seq(EntryWidth - |e|, _ => Sentinel)
  }

  /** The nine cells of an entry row before rejection and the swap, or
      `None` when every cell is absent. */
  function Padded(row: Row): (r: Option<seq<string>>)
    ensures r.Some? ==> |r.value| == EntryWidth
  {
    var p := Processed(row);
    match LastPresent(p)
    case None => None
    case Some(last) => Some(PadToWidth(FillSentinels(KeepLast(p[..last + 1]))))
  }

  /** A Position that marks no vessel: the sentinel or "VACANT" in any case. */
  predicate IsVacant(position: string) {
    position == Sentinel || Upper(position) == "VACANT"
  }

  /** The Cargo/Quantity repair: a quantity found where the Cargo column is
      empty is the cargo, and the quantity becomes unknown. */
  function SwapCargoQuantity(e: seq<string>): seq<string>
    requires |e| == EntryWidth
  {
    if (e[2] == Sentinel || e[2] == "") && e[3] != Sentinel && e[3] != "" then
      e[2 := e[3]][3 := Sentinel]
    else e
  }

  /** Entry normalisation: the nine cells of an entry row, or `None` when the
      row yields no record. */
  function NormalizeRow(row: Row): (r: Option<seq<string>>)
    ensures r.Some? ==> |r.value| == EntryWidth
  {
    match Padded(row)
    case None => None
    case Some(e) =>
      if IsVacant(e[0]) then None else Some(SwapCargoQuantity(e))
  }

  /** The backward scan for the last present cell; -1 when there is none. */
  method FindLastPresent(processed: seq<Cell>) returns (lastIdx: int)
    ensures lastIdx == -1 <==> LastPresent(processed).None?
    ensures lastIdx != -1 ==> LastPresent(processed) == Some(lastIdx)
  {
    lastIdx := -1;
    var i := |processed| - 1;
    while i >= 0
      invariant -1 <= i < |processed|
      invariant lastIdx == -1
      invariant forall j :: i < j < |processed| ==> processed[j].None?
      decreases i + 1
    {
      if processed[i].Some? {
        lastIdx := i;
        break;
      }
      i := i - 1;
    }
  }

  /** The padding loop: sentinels appended up to nine cells. */
  method PadEntry(filled: seq<string>) returns (entry: seq<string>)
    requires |filled| <= EntryWidth
    ensures entry == PadToWidth(filled)
  {
    entry := filled;
    while |entry| < EntryWidth
      invariant |filled| <= |entry| <= EntryWidth
      invariant entry[..|filled|] == filled
      invariant forall k :: |filled| <= k < |entry| ==> entry[k] == Sentinel
    {
      entry := entry + [Sentinel];
    }
  }

  /** The normalisation of scrapers/cargo_processor.py, step by step on a
      list it updates: the backward scan for the last present cell, the
      cut to the last nine, the padding loop and the in-place swap. */
  method NormalizeEntry(row: Row) returns (r: Option<seq<string>>)
    ensures r == NormalizeRow(row)
  {
    var processed := Processed(row);
    var lastIdx := FindLastPresent(processed);
    if lastIdx == -1 {
      return None;
    }
    var data := processed[..lastIdx + 1];
    if |data| > EntryWidth {
      data := data[|data| - EntryWidth..];
    }
    assert data == KeepLast(processed[..lastIdx + 1]);
    var entry := PadEntry(FillSentinels(data));
    PaddedFrom(row, data, entry);
    if IsVacant(entry[0]) {
      return None;
    }
    if (entry[2] == Sentinel || entry[2] == "") && entry[3] != Sentinel && entry[3] != "" {
      entry := entry[2 := entry[3]];
      entry := entry[3 := Sentinel];
    }
    return Some(entry);
  }

  lemma PaddedFrom(row: Row, data: seq<Cell>, entry: seq<string>)
    requires LastPresent(Processed(row)).Some?
    requires data == KeepLast(Processed(row)[..LastPresent(Processed(row)).value + 1])
    requires entry == PadToWidth(FillSentinels(data))
    ensures Padded(row) == Some(entry)
  {
  }

  /** Cell `k` of the padded entry: the `k`-th of the last (at most nine)
      cells up to the last present one, with the sentinel for an empty cell,
      and the sentinel beyond them. */
  lemma PaddedCells(row: Row, k: nat)
    requires Padded(row).Some? && k < EntryWidth
    ensures |Padded(row).value| == EntryWidth
    ensures var last := LastPresent(Processed(row)).value;
      var start := if last + 1 > EntryWidth then last + 1 - EntryWidth else 0;
      Padded(row).value[k] ==
        if start + k <= last then FillCell(ProcessCell(row[start + k])) else Sentinel
  {
    var p := Processed(row);
    var last := LastPresent(p).value;
    var d := p[..last + 1];
    var kept := KeepLast(d);
    var start := if last + 1 > EntryWidth then last + 1 - EntryWidth else 0;
    assert |kept| == last + 1 - start;
    if start + k <= last {
      assert kept[k] == p[start + k];
    }
  }

  /** A row yields nothing exactly when all its cells are absent or its
      Position is vacant. */
  lemma NormalizeRejects(row: Row)
    ensures NormalizeRow(row).None? <==>
      (forall i :: 0 <= i < |row| ==> row[i].None? || row[i].value == "") ||
      (Padded(row).Some? && IsVacant(Padded(row).value[0]))
  {
    var p := Processed(row);
    if LastPresent(p).None? {
      forall i | 0 <= i < |row|
        ensures row[i].None? || row[i].value == ""
      {
        assert p[i].None?;
      }
    } else {
      var i := LastPresent(p).value;
      assert p[i].Some?;
      PaddedCells(row, 0);
    }
  }

  /** What a normalised entry looks like: nine cells, none of them empty, a
      real Position, and never a quantity left beside an empty Cargo. */
  predicate IsNormalized(e: seq<string>) {
    |e| == EntryWidth &&
    (forall k :: 0 <= k < |e| ==> e[k] != "") &&
    !IsVacant(e[0]) &&
    (e[2] == Sentinel ==> e[3] == Sentinel)
  }

  /** Every entry the normaliser produces has the normalised shape. */
  lemma NormalizeRowShape(row: Row)
    requires NormalizeRow(row).Some?
    ensures IsNormalized(NormalizeRow(row).value)
  {
    var e := Padded(row).value;
    assert forall k :: 0 <= k < |e| ==> e[k] != "" by {
      forall k | 0 <= k < |e|
        ensures e[k] != ""
      {
        PaddedCells(row, k);
      }
    }
  }

  /** The swap moves a misplaced quantity into Cargo and leaves the other
      seven cells alone; otherwise the entry is unchanged. */
  lemma SwapLaw(e: seq<string>)
    requires |e| == EntryWidth && forall k :: 0 <= k < |e| ==> e[k] != ""
    ensures var s := SwapCargoQuantity(e);
      |s| == EntryWidth &&
      (forall k :: 0 <= k < EntryWidth && k != 2 && k != 3 ==> s[k] == e[k]) &&
      (e[2] == Sentinel && e[3] != Sentinel ==> s[2] == e[3] && s[3] == Sentinel) &&
      (!(e[2] == Sentinel && e[3] != Sentinel) ==> s == e)
  {
  }

  /** Repairing twice is repairing once. */
  lemma SwapIdempotent(e: seq<string>)
    requires |e| == EntryWidth && forall k :: 0 <= k < |e| ==> e[k] != ""
    ensures SwapCargoQuantity(SwapCargoQuantity(e)) == SwapCargoQuantity(e)
  {
  }

  /** A normalised entry, read back as a row of cells. */
  function AsRow(e: seq<string>): Row {
    seq(|e|, i requires 0 <= i < |e| => Some(e[i]))
  }

  /** Normalisation is idempotent: an already normalised entry of stripped
      cells comes back unchanged. */
  lemma NormalizeIdempotent(e: seq<string>)
    requires IsNormalized(e)
    requires forall k :: 0 <= k < |e| ==> Stripped(e[k])
    ensures NormalizeRow(AsRow(e)) == Some(e)
  {
    var row := AsRow(e);
    var p := Processed(row);
    forall k | 0 <= k < |e|
      ensures p[k] == Some(e[k])
    {
      StrippedIsFixpoint(e[k]);
    }
    assert LastPresent(p) == Some(EntryWidth - 1);
    assert p[..EntryWidth] == p;
    var pad := Padded(row).value;
    forall k | 0 <= k < EntryWidth
      ensures pad[k] == e[k]
    {
      PaddedCells(row, k);
    }
    assert pad == e;
  }

  // ----------------------------------------------------------------- records

  /** One manifest record: the document date, the state and the jetty in
      force, and the nine cells with the three dates parsed. */
  datatype ManifestEntry = ManifestEntry(
    date: DateField,
    state: string,
    jetty: string,
    position: string,
    shipName: string,
    cargo: string,
    quantity: string,
    eta: DateField,
    etb: DateField,
    sailed: DateField,
    charterers: string,
    remarks: string)

  /** A date column: the sentinel bypasses `parse_date` and stays "-". */
  function DateColumn(cell: string, strptime: Parser): DateField {
    if cell == Sentinel then Text(Sentinel) else ParseDate(cell, strptime)
  }

  /** A date column shows "-" exactly when its cell is the sentinel. */
  lemma DateColumnDash(cell: string, strptime: Parser)
    ensures DateColumn(cell, strptime) == Text(Sentinel) <==> cell == Sentinel
  {
  }

  /** The `base` record built from a normalised entry. */
  function BuildEntry(date: DateField, jetty: string, e: seq<string>, strptime: Parser): ManifestEntry
    requires |e| == EntryWidth
  {
    ManifestEntry(date, GetStateFromJetty(jetty), jetty, e[0], e[1], e[2], e[3],
      DateColumn(e[4], strptime), DateColumn(e[5], strptime), DateColumn(e[6], strptime),
      e[7], e[8])
  }

  // ---------------------------------------------------------------- splitting

  function StripAll(parts: seq<string>): seq<string> {
    seq(|parts|, i requires 0 <= i < |parts| => Strip(parts[i]))
  }

  /** The quantity of record `i`: the `i`-th part, or the last part when
      there are fewer parts, or the whole text when there are none. */
  function QuantityFor(qtyParts: seq<string>, qty: string, i: nat): string {
    if i < |qtyParts| then qtyParts[i]
    else if qtyParts != [] then qtyParts[|qtyParts| - 1]
    else qty
  }

  /** `split_bundled_row`. */
  function SplitBundled(base: ManifestEntry): seq<ManifestEntry> {
    if !Contains(base.cargo, "/") then [base]
    else
      var cargoParts := StripAll(Split(base.cargo, "/"));
      var qtyParts := StripAll(Split(base.quantity, "/"));
      seq(|cargoParts|, i requires 0 <= i < |cargoParts| =>
        base.(cargo := cargoParts[i], quantity := QuantityFor(qtyParts, base.quantity, i)))
  }

  /** `split_bundled_row` as written: a loop appending one copy of the
      record per cargo part. */
  method SplitBundledRow(base: ManifestEntry) returns (entries: seq<ManifestEntry>)
    ensures entries == SplitBundled(base)
  {
    if !Contains(base.cargo, "/") {
      return [base];
    }
    var cargoParts := StripAll(Split(base.cargo, "/"));
    var qtyParts := StripAll(Split(base.quantity, "/"));
    ghost var spec := SplitBundled(base);
    assert |spec| == |cargoParts|;
    entries := [];
    var i := 0;
    while i < |cargoParts|
      invariant 0 <= i <= |cargoParts|
      invariant entries == spec[..i]
    {
      var quantity := QuantityFor(qtyParts, base.quantity, i);
      entries := entries + [base.(cargo := cargoParts[i], quantity := quantity)];
      assert spec[i] == base.(cargo := cargoParts[i], quantity := quantity);
      assert spec[..i + 1] == spec[..i] + [spec[i]];
      i := i + 1;
    }
    assert spec[..i] == spec;
  }

  /** A record without "/" in its cargo stays one record; a bundle becomes
      one record per "/"-separated cargo, so at least two. */
  lemma SplitCardinality(base: ManifestEntry)
    ensures !Contains(base.cargo, "/") ==> SplitBundled(base) == [base]
    ensures Contains(base.cargo, "/") ==>
      |SplitBundled(base)| == |Split(base.cargo, "/")| >= 2
  {
  }

  /** Splitting touches only Cargo and Quantity: every other field is the
      bundle's. */
  lemma SplitCopiesFields(base: ManifestEntry)
    ensures forall r :: r in SplitBundled(base) ==>
      r.(cargo := base.cargo, quantity := base.quantity) == base
  {
  }

  /** Record `i` of a bundle carries the `i`-th trimmed cargo and the `i`-th
      trimmed quantity, or the last trimmed quantity when there are fewer:
      the fall-back to the whole quantity text never applies, as splitting
      always yields a part. */
  lemma SplitPairsParts(base: ManifestEntry, i: nat)
    requires Contains(base.cargo, "/") && i < |SplitBundled(base)|
    ensures var qs := Split(base.quantity, "/");
      SplitBundled(base)[i].cargo == Strip(Split(base.cargo, "/")[i]) &&
      SplitBundled(base)[i].quantity ==
        (if i < |qs| then Strip(qs[i]) else Strip(qs[|qs| - 1]))
  {
  }

  /** No record of a split bundle has a "/" left in its cargo. */
  lemma SplitCargoUnbundled(base: ManifestEntry)
    requires Contains(base.cargo, "/")
    ensures forall r :: r in SplitBundled(base) ==> !Contains(r.cargo, "/")
  {
    var parts := Split(base.cargo, "/");
    forall r | r in SplitBundled(base)
      ensures !Contains(r.cargo, "/")
    {
      var i :| 0 <= i < |SplitBundled(base)| && SplitBundled(base)[i] == r;
      var a, b := StripIsSlice(parts[i]);
      if Contains(Strip(parts[i]), "/") {
        ContainsSlice(parts[i], "/", a, b);
      }
    }
  }
}
