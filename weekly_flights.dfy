/**
 * scrapers/weekly_flight_processor.py: one summary line per uploaded flight
 * file, with the date of the file and its counts of international flights,
 * domestic flights and international departures from Nigeria.
 */
module WeeklyFlights {
  import opened Wrappers
  import opened Strings
  import opened Search
  import opened Travel
  import Flights

  // ---------------------------------------------------------------- travel type

  /** The placeholders this processor reads as a missing country: unlike the
      monthly processor, "NAM" is not one of them. */
  const WeeklyPlaceholders: set<string> := {"NAN", "", "NONE", "NULL"}

  /** `get_travel_type`. */
  function WeeklyTravelType(origin: string, destination: string): (t: TravelKind)
    ensures t == International <==> Known(WeeklyPlaceholders, origin) && Known(WeeklyPlaceholders, destination)
                                    && Upper(Strip(origin)) != Upper(Strip(destination))
  {
    InternationalIff(WeeklyPlaceholders, origin, destination);
    TravelType(WeeklyPlaceholders, origin, destination)
  }

  /** The weekly result does not depend on the direction of the flight. */
  lemma WeeklyTravelTypeSymmetric(origin: string, destination: string)
    ensures WeeklyTravelType(origin, destination) == WeeklyTravelType(destination, origin)
  {
    TravelTypeSymmetric(WeeklyPlaceholders, origin, destination);
  }

  /** The two processors agree on every flight with no country reading
      "NAM"; otherwise the monthly one may say domestic where the weekly one
      says international, never the other way round. */
  lemma WeeklyAgreesWithMonthly(origin: string, destination: string)
    ensures Flights.MonthlyTravelType(origin, destination) == International
        ==> WeeklyTravelType(origin, destination) == International
    ensures Upper(Strip(origin)) != "NAM" && Upper(Strip(destination)) != "NAM"
        ==> WeeklyTravelType(origin, destination) == Flights.MonthlyTravelType(origin, destination)
  {
    assert Flights.MonthlyPlaceholders - WeeklyPlaceholders == {"NAM"};
    MorePlaceholders(WeeklyPlaceholders, Flights.MonthlyPlaceholders, origin, destination);
  }

  /** A flight from a country written "NAM" to Nigeria: domestic for the
      monthly report, international for the weekly one. */
  lemma NamSplitsTheProcessors(origin: string, destination: string)
    requires origin == "NAM" && destination == "NIGERIA"
    ensures Flights.MonthlyTravelType(origin, destination) == Domestic
    ensures WeeklyTravelType(origin, destination) == International
  {
    StrippedIsFixpoint(origin);
    StrippedIsFixpoint(destination);
    assert Upper(origin) == "NAM";
    assert Upper(destination) == "NIGERIA";
  }

  // ---------------------------------------------------------------- one file

  /** One flight of a file. A cell is `None` where the file has no value
      (an empty cell, or no such column). */
  datatype FlightRecord = FlightRecord(origin: Option<string>, destination: Option<string>, date: Option<string>)

  /** What the file gives: its rows, and whether it has an `origin_country`
      column at all. */
  datatype FlightFile = FlightFile(hasOriginColumn: bool, rows: seq<FlightRecord>)

  function RecordTravelType(r: FlightRecord): TravelKind {
    WeeklyTravelType(Flights.Rendered(r.origin), Flights.Rendered(r.destination))
  }

  /** The extra test of line 61: the origin, upper-cased, mentions Nigeria
      (a missing origin does not). */
  predicate FromNigeria(r: FlightRecord) {
    r.origin.Some? && Contains(Upper(r.origin.value), "NIGERIA")
  }

  /** The number of rows with the given travel type. */
  function CountKind(rows: seq<FlightRecord>, kind: TravelKind): (n: nat)
    ensures n <= |rows|
  {
    if rows == [] then 0
    else CountKind(rows[..|rows| - 1], kind) + (if RecordTravelType(rows[|rows| - 1]) == kind then 1 else 0)
  }

  /** The number of international rows from Nigeria. */
  function CountFromNigeria(rows: seq<FlightRecord>): nat {
    if rows == [] then 0
    else
      var last := rows[|rows| - 1];
      CountFromNigeria(rows[..|rows| - 1]) + (if RecordTravelType(last) == International && FromNigeria(last) then 1 else 0)
  }

  /** Every row is counted once: as international or as domestic. */
  lemma {:induction false} KindsAddUp(rows: seq<FlightRecord>)
    ensures CountKind(rows, International) + CountKind(rows, Domestic) == |rows|
  {
    if rows != [] {
      KindsAddUp(rows[..|rows| - 1]);
    }
  }

  /** The departures from Nigeria are some of the international flights. */
  lemma {:induction false} FromNigeriaAtMostInternational(rows: seq<FlightRecord>)
    ensures CountFromNigeria(rows) <= CountKind(rows, International)
  {
    if rows != [] {
      FromNigeriaAtMostInternational(rows[..|rows| - 1]);
    }
  }

  /** The file's date: the first value of `date_takeoff` there is, as it is
      written, or "Unknown Date" when there is none. */
  function FileDate(rows: seq<FlightRecord>): string {
    match FirstWhere(rows, (r: FlightRecord) => r.date.Some?)
    case Some(k) => rows[k].date.value
    case None => "Unknown Date"
  }

  /** The first row with a date gives the date. */
  lemma FileDateFirst(rows: seq<FlightRecord>, k: nat)
    requires k < |rows| && rows[k].date.Some?
    requires forall j :: 0 <= j < k ==> rows[j].date.None?
    ensures FileDate(rows) == rows[k].date.value
  {
    FirstWhereAt(rows, (r: FlightRecord) => r.date.Some?, k);
  }

  /** Without any date the file is "Unknown Date". */
  lemma FileDateUnknown(rows: seq<FlightRecord>)
    requires forall j :: 0 <= j < |rows| ==> rows[j].date.None?
    ensures FileDate(rows) == "Unknown Date"
  {
  }

  /** One line of the summary. */
  datatype FileSummary = FileSummary(date: string, international: nat, domestic: nat, fromNigeria: nat)

  /** The summary of one file, or `None` where the loop moves on to the
      next one: an empty file, or a file whose origin column is missing or
      empty throughout, on which the test of line 61 raises. */
  function SummarizeFile(f: FlightFile): (s: Option<FileSummary>)
    ensures s.Some? <==> f.rows != [] && f.hasOriginColumn && exists k :: 0 <= k < |f.rows| && f.rows[k].origin.Some?
  {
    if f.rows == [] || !f.hasOriginColumn || forall k :: 0 <= k < |f.rows| ==> f.rows[k].origin.None? then None
    else Some(FileSummary(FileDate(f.rows), CountKind(f.rows, International), CountKind(f.rows, Domestic),
                          CountFromNigeria(f.rows)))
  }

  /** The counts of a summary line agree with each other and with its file. */
  lemma FileSummaryCounts(f: FlightFile)
    requires SummarizeFile(f).Some?
    ensures SummarizeFile(f).value.international + SummarizeFile(f).value.domestic == |f.rows|
    ensures SummarizeFile(f).value.fromNigeria <= SummarizeFile(f).value.international
    ensures SummarizeFile(f).value.international + SummarizeFile(f).value.domestic > 0
  {
    KindsAddUp(f.rows);
    FromNigeriaAtMostInternational(f.rows);
  }

  // ---------------------------------------------------------------- all files

  /** `summary_data` after the loop has seen `files`. */
  function Summaries(files: seq<FlightFile>): (s: seq<FileSummary>)
    ensures |s| <= |files|
  {
    if files == [] then []
    else
      var line := match SummarizeFile(files[|files| - 1]) case Some(l) => [l] case None => [];
      Summaries(files[..|files| - 1]) + line
  }

  /** What `process_weekly_flights` summarizes: `None` when no file gave a
      line, else the lines in file order (before the sort by date). */
  function WeeklySummary(files: seq<FlightFile>): Option<seq<FileSummary>> {
    if Summaries(files) == [] then None else Some(Summaries(files))
  }

  /** The loop over the uploaded files. */
  method SummarizeFiles(files: seq<FlightFile>) returns (r: Option<seq<FileSummary>>)
    ensures r == WeeklySummary(files)
  {
    var summaryData: seq<FileSummary> := [];
    var i := 0;
    while i < |files|
      invariant 0 <= i <= |files|
      invariant summaryData == Summaries(files[..i])
    {
      var line := SummarizeFile(files[i]);
      if line.Some? {
        summaryData := summaryData + [line.value];
      }
      assert files[..i + 1][..i] == files[..i];
      i := i + 1;
    }
    assert files[..i] == files;
    if summaryData == [] {
      r := None;
    } else {
      r := Some(summaryData);
    }
  }

  /** A file's line does not depend on the other files: the summary of two
      batches is the two summaries, one after the other. */
  lemma {:induction false} SummariesAppend(files: seq<FlightFile>, more: seq<FlightFile>)
    ensures Summaries(files + more) == Summaries(files) + Summaries(more)
    decreases |more|
  {
    if more == [] {
      assert files + more == files;
    } else {
      var last := more[|more| - 1];
      assert (files + more)[..|files + more| - 1] == files + more[..|more| - 1];
      SummariesAppend(files, more[..|more| - 1]);
    }
  }

  /** Every line of the summary has counts that add up and an international
      count at least its count from Nigeria. */
  lemma {:induction false} SummaryLinesConsistent(files: seq<FlightFile>, i: nat)
    requires i < |Summaries(files)|
    ensures Summaries(files)[i].fromNigeria <= Summaries(files)[i].international
    ensures Summaries(files)[i].international + Summaries(files)[i].domestic > 0
  {
    var init := files[..|files| - 1];
    var last := files[|files| - 1];
    if i < |Summaries(init)| {
      SummaryLinesConsistent(init, i);
    } else {
      FileSummaryCounts(last);
    }
  }
}
