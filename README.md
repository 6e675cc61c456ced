# Nigerian port, grid and flight report processors, in Dafny

This project models the data-cleaning core of a set of report processors for Nigerian shipping, power and aviation data, and proves properties of that model.

- **Cargo manifests** (`scrapers/cargo_processor.py`). A PDF manifest is walked page by page, table row by table row. Every row is classified as a jetty header, a column-header ("field") row, an entry row or a blank row. Two context values are threaded through the walk: the document date, read once from page 0, and the current jetty. Each entry row under a set (non-empty), domestic jetty is normalised to nine cells and turned into a record carrying that context. A cargo cell that bundles several cargoes with `/` becomes one record per cargo. The extracted pages are an input value. `datetime.strptime` is a parameter (`CargoDates.Parser`).
- **Grid generation** (`scrapers/niggrid_scraper.py`, `scrapers/scraper.py`). Each scraper matches a station name against its ordered master list. One scraper matches in one direction, the other in both. Each builds an inclusive list of days. One scraper also fixes the report's station order: the master list, then the newly seen stations sorted in place.
- **Monthly flights** (`scrapers/flight_processor.py`). The model covers:
  - standardising an airport name through the first `if`/`elif` branch that matches;
  - mapping service types to flight categories;
  - labelling a flight domestic or international;
  - looking a city up in the city-to-state table;
  - splitting every flight into a departure and an arrival;
  - keeping the movements at Nigerian airports.
- **Weekly flights** (`scrapers/weekly_flight_processor.py`). One summary line per uploaded file, holding the file's date, its international and domestic flight counts, and its international departures from Nigeria.

Strings are `seq<char>`. `upper`, `lower`, `strip` and `title` are modelled on ASCII (module `Strings`). First-match searches over ordered tables go through the generic `Search.FirstWhere`.

`clean_jetty_name` (`scrapers/cargo_processor.py:30-35`) does not change case, so the records under a `["APAPA"]` header carry the jetty "APAPA" as written, not a title-cased "Apapa". `CargoProperties.ApapaScenario` proves it.

## Model

| member | source | states |
|---|---|---|
| CargoLookup.CleanJettyName | scrapers/cargo_processor.py:30-35 | definition of `clean_jetty_name`: "" for empty text, else the text cut before its first case-insensitive " lat", stripped |
| CargoLookup.IsForeignEntry | scrapers/cargo_processor.py:37-42 | definition of `is_foreign_entry`: non-empty text whose upper case holds one of FOREIGN_KEYWORDS |
| CargoLookup.CleanHasNoLat | scrapers/cargo_processor.py:30-35 | the cleaned jetty name, lower-cased, never contains " lat" |
| CargoLookup.CleanIdempotent | scrapers/cargo_processor.py:30-35 | cleaning a cleaned jetty name gives it back unchanged |
| CargoLookup.ForeignIff | scrapers/cargo_processor.py:37-42 | a jetty is foreign exactly when some FOREIGN_KEYWORDS entry occurs in its upper-cased text |
| CargoLookup.GetStateFromJetty | scrapers/cargo_processor.py:44-49 | the state is "" exactly when no mapping key occurs in the upper-cased jetty text |
| CargoLookup.StateIsFirstMatch | scrapers/cargo_processor.py:44-49 | the first key in mapping order that occurs in the upper-cased text gives the state |
| CargoLookup.MappingNonEmpty | scrapers/cargo_processor.py:13-25 | every jetty key and every state of JETTY_STATE_MAPPING is non-empty |
| CargoLookup.ApapaIsLagos | scrapers/cargo_processor.py:14 | the jetty "APAPA" lies in Lagos |
| CargoLookup.GhanaIsForeign | scrapers/cargo_processor.py:37-42 | a jetty whose upper-cased text mentions GHANA is foreign, whatever else it holds |
| CargoDates.NormalizeDateText | scrapers/cargo_processor.py:53-55 | definition of the text `parse_date` tries: stripped and upper-cased, cut after the first "DATE:" and stripped again when there is one, SEPT rewritten as SEP |
| CargoDates.ParseDate | scrapers/cargo_processor.py:51-61 | no date exactly for a blank value (`-`, empty or `None` once stripped); otherwise the first accepting format's date, or the original text when no format accepts |
| CargoDates.FirstFormatWins | scrapers/cargo_processor.py:57-60 | when format k accepts and every earlier format rejects, the result is format k's date |
| CargoDates.NormalizePlain | scrapers/cargo_processor.py:53-55 | text without a "DATE:" label is only rewritten from SEPT to SEP |
| CargoDates.NormalizeLabelled | scrapers/cargo_processor.py:53-55 | for a stripped value whose upper case starts with "DATE:" and holds no second "DATE:", only the stripped text after the label is parsed, with SEPT rewritten |
| CargoDates.SameNormalForm | scrapers/cargo_processor.py:53-60 | two values with the same normal form parse to the same date |
| CargoDates.SeptReadAsSep | scrapers/cargo_processor.py:55 | "15-SEPT-23" is read as "15-SEP-23" and parses exactly as that does |
| CargoDates.DateLabelDropped | scrapers/cargo_processor.py:54 | "DATE: 10-Jan-24" is parsed as "10-JAN-24" |
| CargoRows.IsJettyRow | scrapers/cargo_processor.py:78-80 | definition of `is_jetty_row`: exactly one non-blank cell |
| CargoRows.IsFieldRow | scrapers/cargo_processor.py:82-88 | definition of `is_field_row`: at least four non-blank cells and at least three keyword hits among their upper-cased texts |
| CargoRows.IsEntryRow | scrapers/cargo_processor.py:90-92 | definition of `is_entry_row`: some non-blank cell, and neither a jetty row nor a field row |
| CargoRows.NoFilledIff | scrapers/cargo_processor.py:79 | a row has no non-blank cell exactly when every cell is None or blank after strip |
| CargoRows.SoleFilled | scrapers/cargo_processor.py:129-130 | with exactly one non-blank cell, the non-blank texts are that cell, stripped |
| CargoRows.SoleFilledIndex | scrapers/cargo_processor.py:78-80 | a count of one non-blank cell names the index of that cell |
| CargoRows.JettyRowIff | scrapers/cargo_processor.py:78-80 | a row is a jetty row exactly when one cell is non-blank and all others are blank |
| CargoRows.KeywordHitsCountsEach | scrapers/cargo_processor.py:86 | one cell holding two different keywords counts twice |
| CargoRows.KeywordHitsAtLeastOne | scrapers/cargo_processor.py:86 | a cell holding a keyword counts at least once |
| CargoRows.MatchCountCoversTwo | scrapers/cargo_processor.py:86 | the row's pair count is at least the sum of any two cells' counts |
| CargoRows.FieldRowByPairs | scrapers/cargo_processor.py:82-88 | four non-blank cells, one of them holding two keywords and another holding one, make a field row |
| CargoRows.Classify | scrapers/cargo_processor.py:78-92 | every row has exactly one class (jetty, field, entry or blank), each the source's predicate |
| CargoEntry.NormalizeRow | scrapers/cargo_processor.py:134-153 | an entry row normalised as lines 134-153 do it, or nothing where the loop moves on; a result has nine cells |
| CargoEntry.BuildEntry | scrapers/cargo_processor.py:155-163 | definition of the record `base`: the walk's date, the jetty's state, the jetty, and the nine cells with the three date columns parsed unless they read '-' |
| CargoEntry.SplitBundled | scrapers/cargo_processor.py:63-75 | definition of `split_bundled_row`: the record alone when its cargo has no '/', else one record per cargo part |
| CargoEntry.ProcessCell | scrapers/cargo_processor.py:134 | a cell becomes its stripped text, and None exactly when it is missing or empty |
| CargoEntry.LastPresent | scrapers/cargo_processor.py:136-140 | the index of the last present cell, or none when every cell is None |
| CargoEntry.FindLastPresent | scrapers/cargo_processor.py:136-141 | the backward scan returns -1 exactly when no cell is present, else the last present index |
| CargoEntry.KeepLast | scrapers/cargo_processor.py:144 | at most nine cells are kept, and a row of nine or fewer is kept whole |
| CargoEntry.PadToWidth | scrapers/cargo_processor.py:146 | exactly nine cells: a prefix equal to the input, then `-` sentinels |
| CargoEntry.PadEntry | scrapers/cargo_processor.py:146 | the `while`/`append` loop pads exactly as PadToWidth |
| CargoEntry.NormalizeEntry | scrapers/cargo_processor.py:134-153 | the normalisation as written yields NormalizeRow's result |
| CargoEntry.PaddedFrom | scrapers/cargo_processor.py:143-146 | the cut, tail-keep, sentinel fill and padding steps, composed, give the padded row |
| CargoEntry.PaddedCells | scrapers/cargo_processor.py:143-146 | cell k of the padded row is the filled cell at offset k of the kept window, or `-` past its end |
| CargoEntry.NormalizeRejects | scrapers/cargo_processor.py:141-148 | a row yields nothing exactly when no cell is present, or its padded position is the sentinel `-` or uppercases to VACANT |
| CargoEntry.NormalizeRowShape | scrapers/cargo_processor.py:145-153 | a normalised entry has nine non-empty cells and is not VACANT |
| CargoEntry.SwapLaw | scrapers/cargo_processor.py:150-153 | Cargo takes Quantity's value and Quantity becomes `-` exactly when Cargo is `-` and Quantity is not; no other cell changes |
| CargoEntry.SwapIdempotent | scrapers/cargo_processor.py:150-153 | swapping twice is swapping once |
| CargoEntry.NormalizeIdempotent | scrapers/cargo_processor.py:134-153 | a normalised entry, fed back as a row, normalises to itself |
| CargoEntry.DateColumnDash | scrapers/cargo_processor.py:159-161 | an ETA/ETB/Sailed value is the text `-` exactly when the cell is `-` |
| CargoEntry.SplitBundledRow | scrapers/cargo_processor.py:63-75 | the append loop builds SplitBundled's list |
| CargoEntry.SplitCardinality | scrapers/cargo_processor.py:65-70 | no `/` gives exactly the record; otherwise one record per `/`-separated part |
| CargoEntry.SplitCopiesFields | scrapers/cargo_processor.py:71-73 | each split record equals the original except for cargo and quantity |
| CargoEntry.SplitPairsParts | scrapers/cargo_processor.py:67-73 | record i holds cargo part i stripped, with quantity part i, or the last part when there are fewer |
| CargoEntry.SplitCargoUnbundled | scrapers/cargo_processor.py:67-72 | no split record's cargo contains `/` |
| CargoWalk.PageDate | scrapers/cargo_processor.py:104-108 | definition of the date step of page 0: row 2, cell 9 of the first table, when present and non-empty, parsed; otherwise the date is kept |
| CargoWalk.HeaderJettyOf | scrapers/cargo_processor.py:114-119 | definition of the header scan: the first non-blank line without "page", stripped and cleaned, or the jetty as it was |
| CargoWalk.PageJetty | scrapers/cargo_processor.py:111-119 | definition of the jetty step of a later page: the header scan runs only when the first table starts with a field row |
| CargoWalk.RowStep | scrapers/cargo_processor.py:126-164 | definition of one row of the walk: empty rows skipped, a jetty row sets the cleaned jetty, an entry row under a domestic jetty appends its split records |
| CargoWalk.WalkRows | scrapers/cargo_processor.py:126-164 | definition of the row loop as a left fold of RowStep |
| CargoWalk.RowsToProcess | scrapers/cargo_processor.py:122-125 | definition of the rows walked: the first table, without its last row on the last page, nothing without a table |
| CargoWalk.PageStep | scrapers/cargo_processor.py:102-164 | definition of one page of the walk: the date on page 0, the header jetty on later pages, then the rows |
| CargoWalk.WalkPages | scrapers/cargo_processor.py:102-164 | definition of the page loop as a left fold of PageStep over the first n pages |
| CargoWalk.HeaderLineFirst | scrapers/cargo_processor.py:115-119 | the first non-blank line without "page" sets the jetty, cleaned |
| CargoWalk.NoHeaderLine | scrapers/cargo_processor.py:115-119 | with no such line, the jetty is unchanged |
| CargoWalk.HeaderJetty | scrapers/cargo_processor.py:114-119 | the line loop with `break` computes HeaderJettyOf |
| CargoWalk.ParsePdfSpec | scrapers/cargo_processor.py:166-172 | a result, when there is one, is never empty |
| CargoWalk.ProcessRow | scrapers/cargo_processor.py:127-164 | one iteration of the row loop is one RowStep of the walk |
| CargoWalk.ProcessRows | scrapers/cargo_processor.py:126-164 | the row loop walks the rows in order (WalkRows) |
| CargoWalk.PageContext | scrapers/cargo_processor.py:103-119 | the date is read on page 0 only, the jetty header on later pages only |
| CargoWalk.ProcessPage | scrapers/cargo_processor.py:102-164 | one iteration of the page loop advances the walk by exactly one page (WalkPages) |
| CargoWalk.ParsePdf | scrapers/cargo_processor.py:94-172 | the page loop as written yields ParsePdfSpec of the pages |
| CargoProperties.RowStepKeeps | scrapers/cargo_processor.py:126-164 | one row keeps the invariant (document date, cleaned jetty, every record well formed) and only appends records |
| CargoProperties.WalkRowsKeeps | scrapers/cargo_processor.py:126-164 | the same for a whole table |
| CargoProperties.PageJettyNoLat | scrapers/cargo_processor.py:111-119 | a header-line jetty is a cleaned name |
| CargoProperties.FirstPageKeeps | scrapers/cargo_processor.py:104-108 | after page 0 the invariant holds with the document date |
| CargoProperties.LaterPageKeeps | scrapers/cargo_processor.py:110-125 | every later page keeps the invariant |
| CargoProperties.WalkPagesKeeps | scrapers/cargo_processor.py:102-164 | after any number of pages the invariant holds |
| CargoProperties.RecordsCarryContext | scrapers/cargo_processor.py:155-164 | every emitted record has the document date, a non-empty domestic cleaned jetty and that jetty's state |
| CargoProperties.NonDataRowsIgnored | scrapers/cargo_processor.py:127-131 | field rows and blank rows change nothing |
| CargoProperties.JettyRowSetsJetty | scrapers/cargo_processor.py:128-130 | a jetty row sets the jetty to its sole cell, stripped and cleaned, and changes nothing else |
| CargoProperties.RowsDroppedWithoutJetty | scrapers/cargo_processor.py:131-132 | with no jetty or a foreign one, every non-jetty row changes nothing |
| CargoProperties.GhanaRowsDropped | scrapers/cargo_processor.py:131-132 | under a jetty mentioning GHANA no record is emitted |
| CargoProperties.EntryRowEmits | scrapers/cargo_processor.py:131-164 | an entry row under a domestic jetty appends its split records at the end, at least one |
| CargoProperties.UnbundledEntryStep | scrapers/cargo_processor.py:155-164 | an unbundled entry appends exactly its own record |
| CargoProperties.TwoEntries | scrapers/cargo_processor.py:126-164 | two unbundled entries append their records in row order |
| CargoProperties.WalkRowsAppend | scrapers/cargo_processor.py:126 | walking a + b is walking a, then b |
| CargoProperties.FirstTableOnly | scrapers/cargo_processor.py:122-125 | documents that agree on page texts and first tables give the same result |
| CargoProperties.SameFirstTable | scrapers/cargo_processor.py:122-125 | one page step reads only the page's text and first table |
| CargoProperties.WalkPagesPrefix | scrapers/cargo_processor.py:102 | the walk up to page n reads only the first n pages |
| CargoProperties.LastRowIgnored | scrapers/cargo_processor.py:125 | replacing the final row of the last page's first table, when that table has more than three rows, leaves the result unchanged |
| CargoProperties.LastPageWalk | scrapers/cargo_processor.py:125 | two documents that differ only in the final row of the last page's first table, when that table has more than three rows, are walked to the same state |
| CargoProperties.LastPageSame | scrapers/cargo_processor.py:125 | the last page, with the final row of its first table replaced, is walked as before when that table has more than three rows |
| CargoProperties.DatedDocument | scrapers/cargo_processor.py:104-108 | a date cell "DATE: 10-Jan-24" dates every record on every page with the first format's reading |
| CargoProperties.ApapaRecords | scrapers/cargo_processor.py:128-164 | a jetty row "APAPA" and two unbundled entry rows append two records under "APAPA" |
| CargoProperties.ApapaScenario | scrapers/cargo_processor.py:128-164 | those two records carry jetty "APAPA" as written and state Lagos, in row order |
| NigGrid.StandardizeName | scrapers/niggrid_scraper.py:30-42 | a non-text value is returned as rendered; text gives a title-cased master entry or its own title case |
| NigGrid.StandardizeFirstMatch | scrapers/niggrid_scraper.py:36-39 | the first master entry whose key occurs in the cleaned name decides |
| NigGrid.StandardizeNoMatch | scrapers/niggrid_scraper.py:42 | with no entry matching, the original text is title-cased |
| NigGrid.StandardizeIsTitled | scrapers/niggrid_scraper.py:36-42 | every name given for text is already title-cased |
| NigGrid.NippPairKeys | scrapers/niggrid_scraper.py:14-25 | each NIPP entry comes before its plain entry, and the plain key occurs in the NIPP key |
| NigGrid.SpecificBeforeGeneric | scrapers/niggrid_scraper.py:36-39 | a name holding a NIPP key also matches the plain entry, yet the chosen entry is the NIPP one or an earlier one |
| NigGrid.GereguNippIsNipp | scrapers/niggrid_scraper.py:14-15 | "geregu nipp" standardises to "Geregu Nipp (Gas)" |
| GridCommon.MatchKeyIs | scrapers/niggrid_scraper.py:37 | the match key is the lower-cased text before the first `(`, stripped |
| GridCommon.GetDateRange | scrapers/niggrid_scraper.py:44-47 | with both ends parsed, the day list from start to end; with either unparsed, no list |
| GridCommon.DayRange | scrapers/scraper.py:28-32 | end - start + 1 consecutive days from start (none when end < start) |
| GridCommon.DayRangeBounds | scrapers/scraper.py:28-32 | every listed day lies between start and end |
| GridCommon.DayRangeSplit | scrapers/scraper.py:28-32 | the range from start to end is the range to mid followed by the range after mid |
| GridScraper.StandardizeName | scrapers/scraper.py:19-26 | a non-text value is returned as rendered; text gives a title-cased master entry or its own title case |
| GridScraper.StandardizeFirstMatch | scrapers/scraper.py:22-25 | the first entry matching in either direction decides |
| GridScraper.StandardizeNoMatch | scrapers/scraper.py:26 | with no entry matching, the original text is title-cased |
| GridScraper.StandardizeIsTitled | scrapers/scraper.py:19-26 | every name given for text is already title-cased |
| GridScraper.BlankIsFirstEntry | scrapers/scraper.py:21-25 | an empty or white-space name matches the first entry, "Afam Iii Fast Power" |
| GridScraper.PlainPairKeys | scrapers/scraper.py:8-17 | each plain entry comes before its NIPP entry, and its key occurs in the NIPP key |
| GridScraper.GenericBeforeNipp | scrapers/scraper.py:22-25 | a name holding a NIPP key matches the plain entry, which is chosen or an earlier one |
| GridScraper.GereguNippIsPlain | scrapers/scraper.py:10-11 | "geregu nipp" standardises to "Geregu (Gas)" |
| StationOrder.KnownStations | scrapers/niggrid_scraper.py:127 | entry i is the title case of master entry i |
| StationOrder.NewStations | scrapers/niggrid_scraper.py:131-132 | a station is new exactly when it was captured and is not known |
| StationOrder.NewStationsCount | scrapers/niggrid_scraper.py:132 | a new station is kept as often as it was captured; a known one never |
| StationOrder.SortInPlace | scrapers/niggrid_scraper.py:135 | the array ends ascending and holds the same stations |
| StationOrder.Insert | scrapers/niggrid_scraper.py:135 | one insertion pass extends the ascending prefix by one and keeps the stations |
| StationOrder.OrderedIsSorted | scrapers/niggrid_scraper.py:135 | ascending neighbours make every pair ascending |
| StationOrder.SortedUnique | scrapers/niggrid_scraper.py:135 | two sorted arrangements of the same stations are equal |
| StationOrder.FinalOrder | scrapers/niggrid_scraper.py:127-138 | the known stations in master order, then exactly the new stations, sorted |
| StationOrder.FinalOrderDetermined | scrapers/niggrid_scraper.py:134-138 | the final order is uniquely determined by the known and captured stations |
| StationOrder.EachStationOnce | scrapers/niggrid_scraper.py:127-138 | with distinct known and captured names, every captured station appears once |
| Travel.Normalize | scrapers/flight_processor.py:102-105 | the stripped, upper-cased country, or UNKNOWN for a placeholder |
| Travel.InternationalIff | scrapers/flight_processor.py:106 | international exactly when both countries are known and differ |
| Travel.TravelTypeSymmetric | scrapers/flight_processor.py:106 | the label does not depend on the direction |
| Travel.SameCountryDomestic | scrapers/flight_processor.py:106 | a flight within one country is domestic |
| Travel.MorePlaceholders | scrapers/flight_processor.py:104-105 | more placeholders only turn international flights domestic, and only through the extra ones |
| Flights.StandardizeAirportName | scrapers/flight_processor.py:18-33 | the result is a branch's canonical name or the stripped name |
| Flights.StandardizeFirstHit | scrapers/flight_processor.py:19-32 | the first branch with a pattern in the stripped, lower-cased name decides |
| Flights.StandardizeNoHit | scrapers/flight_processor.py:33 | with no branch hit, the stripped name comes back |
| Flights.CanonicalFixed | scrapers/flight_processor.py:20-32 | every canonical name standardises to itself |
| Flights.StandardizeIdempotent | scrapers/flight_processor.py:18-33 | standardising twice is standardising once |
| Flights.EnuguIsAkanuIbiam | scrapers/flight_processor.py:23 | "Enugu" gives the Akanu Ibiam airport |
| Flights.BeninCityIsBenin | scrapers/flight_processor.py:32 | "Benin City" misses the twelve earlier branches and gives "Benin Airport" |
| Flights.MapCategory | scrapers/flight_processor.py:111-116 | the result is one of the three categories or the stripped service type |
| Flights.GeneralAviationIff | scrapers/flight_processor.py:113 | General Aviation exactly for the four general-aviation service types |
| Flights.CommercialIff | scrapers/flight_processor.py:114 | Commercial exactly for "passenger" in any case, or for "Commercial" itself |
| Flights.PrivateIff | scrapers/flight_processor.py:113-115 | Private exactly for a cleaned type that is neither general aviation nor "passenger" and mentions "business", or for "Private" itself |
| Flights.MapCategoryIdempotent | scrapers/flight_processor.py:111-116 | mapping a mapped category changes nothing |
| Flights.CategoryOf | scrapers/flight_processor.py:118-121 | a column's service type goes through map_category; the category is "Unknown" exactly when there is no service type column or the stripped type itself reads "Unknown", so the two cannot be told apart |
| Flights.UnknownKept | scrapers/flight_processor.py:111-116 | a service type that strips to "Unknown" falls through every branch and comes back as "Unknown" |
| Flights.MonthlyTravelType | scrapers/flight_processor.py:101-106 | international exactly when both countries are known (NAM is a placeholder) and differ |
| Flights.MapState | scrapers/flight_processor.py:139-140 | a listed city gives its state; any other value is kept as it was |
| Flights.LookupGivesStateName | scrapers/flight_processor.py:8-16 | every value of CITY_TO_STATE_DB is one of the 21 state names |
| Flights.StateNameFixed | scrapers/flight_processor.py:8-16 | a state name looked up again is itself |
| Flights.MapStateIdempotent | scrapers/flight_processor.py:139-140 | mapping a mapped state changes nothing |
| Flights.Rendered | scrapers/flight_processor.py:102-103 | definition of `str` of a country cell as `get_travel_type` reads it, here and in scrapers/weekly_flight_processor.py:7-8: a missing value is "nan" |
| Flights.Consistent | scrapers/flight_processor.py:108-121 | definition of a row whose "Travel Type" and "Category of Flight" columns are the ones the processor computes |
| Flights.MissingOriginDomestic | scrapers/flight_processor.py:101-106 | a row whose computed columns are the processor's and whose origin country is missing is domestic |
| Flights.DepartureOf | scrapers/flight_processor.py:123-128 | definition of a row of `df_dep`: the origin columns, the date, the travel type and the category, as a departure |
| Flights.ArrivalOf | scrapers/flight_processor.py:124-131 | definition of a row of `df_arr`: the destination columns, the date, the travel type and the category, as an arrival |
| Flights.Unpivot | scrapers/flight_processor.py:124-134 | two movements per flight, all departures before all arrivals |
| Flights.Repivot | scrapers/flight_processor.py:124-134 | pairing a departure with its arrival gives half as many flights |
| Flights.UnpivotRoundTrip | scrapers/flight_processor.py:124-134 | the flights can be read back from the movements |
| Flights.MentionsNigeria | scrapers/flight_processor.py:137 | definition of the country filter: text whose upper case holds NIGERIA; a missing country is dropped |
| Flights.InNigeria | scrapers/flight_processor.py:137 | the filter applied to a movement's country |
| Flights.Localize | scrapers/flight_processor.py:139-142 | definition of the mapping of a kept movement: its state through the city table, its airport name standardised |
| Flights.NigerianMovements | scrapers/flight_processor.py:137-142 | the filter keeps at most as many movements as it is given |
| Flights.NigerianMovementsKept | scrapers/flight_processor.py:137-142 | every movement at a Nigerian airport is kept, with its state and name mapped |
| Flights.NigerianMovementsFrom | scrapers/flight_processor.py:137-142 | every kept movement is a Nigerian one, mapped |
| Flights.NigerianFlightCountedTwice | scrapers/flight_processor.py:124-137 | a flight between two Nigerian airports is kept as a departure and as an arrival |
| Flights.MonthlyMovements | scrapers/flight_processor.py:124-137 | nothing when an unpivot column is missing or no country cell holds text in a non-empty table, else the Nigerian movements of the unpivoted rows |
| Flights.NoCountryRows | scrapers/flight_processor.py:127-137 | the unpivoted country column is empty exactly when both country columns of the rows are |
| Flights.MissingCountryColumnRaises | scrapers/flight_processor.py:127 | a table without an origin_country column gives no report |
| Flights.MonthlyFlightCountedTwice | scrapers/flight_processor.py:124-137 | in a complete table, a flight between two Nigerian airports gives a departure and an arrival among the Nigerian movements before the `groupby` |
| WeeklyFlights.WeeklyTravelType | scrapers/weekly_flight_processor.py:6-18 | international exactly when both countries are known (NAM is not a placeholder) and differ |
| WeeklyFlights.WeeklyTravelTypeSymmetric | scrapers/weekly_flight_processor.py:15-18 | the label does not depend on the direction |
| WeeklyFlights.WeeklyAgreesWithMonthly | scrapers/weekly_flight_processor.py:11-12 | monthly international implies weekly international; without NAM the two agree |
| WeeklyFlights.NamSplitsTheProcessors | scrapers/weekly_flight_processor.py:11-12 | a flight from "NAM" to "NIGERIA" is domestic monthly and international weekly |
| WeeklyFlights.RecordTravelType | scrapers/weekly_flight_processor.py:52 | definition of a row's travel type, `get_travel_type` of its two rendered countries |
| WeeklyFlights.FromNigeria | scrapers/weekly_flight_processor.py:61 | definition of the origin filter: an origin whose upper case holds NIGERIA; a missing origin is dropped |
| WeeklyFlights.CountFromNigeria | scrapers/weekly_flight_processor.py:59-62 | definition of the count of international rows from Nigeria |
| WeeklyFlights.CountKind | scrapers/weekly_flight_processor.py:55-56 | a count of flights of one kind is at most the number of rows |
| WeeklyFlights.KindsAddUp | scrapers/weekly_flight_processor.py:52-56 | international and domestic counts add up to the row count |
| WeeklyFlights.FromNigeriaAtMostInternational | scrapers/weekly_flight_processor.py:59-62 | departures from Nigeria are at most the international flights |
| WeeklyFlights.FileDate | scrapers/weekly_flight_processor.py:45-49 | definition of the file's date: the first non-missing date_takeoff as written, else "Unknown Date" |
| WeeklyFlights.FileDateFirst | scrapers/weekly_flight_processor.py:45-49 | the date is the first non-null `date_takeoff`, as written |
| WeeklyFlights.FileDateUnknown | scrapers/weekly_flight_processor.py:45-46 | with no date, the date is "Unknown Date" |
| WeeklyFlights.SummarizeFile | scrapers/weekly_flight_processor.py:42-70 | a file gives a line exactly when it has rows and an origin column with some value |
| WeeklyFlights.FileSummaryCounts | scrapers/weekly_flight_processor.py:55-62 | a line's counts add up to its file's rows, are positive, and bound the Nigerian departures |
| WeeklyFlights.Summaries | scrapers/weekly_flight_processor.py:26-70 | there are at most as many lines as files |
| WeeklyFlights.WeeklySummary | scrapers/weekly_flight_processor.py:24-77 | definition of the loop's outcome: nothing when no file gave a line, else the lines in file order |
| WeeklyFlights.SummarizeFiles | scrapers/weekly_flight_processor.py:24-77 | the file loop gives no summary when no line was made, else the lines in file order |
| WeeklyFlights.SummariesAppend | scrapers/weekly_flight_processor.py:26-74 | the lines of two batches of files are the two batches' lines in turn |
| WeeklyFlights.SummaryLinesConsistent | scrapers/weekly_flight_processor.py:55-70 | every line of the summary has a positive total and Nigerian departures at most its international count |

## Left out

- PDF extraction (`pdfplumber`). Pages come in as values, each with its tables and its text. A page with no text has the text "". Repeated `extract_tables` calls give the same tables.
- `datetime.strptime` and `timedelta`. Each date format is an opaque partial parser (`CargoDates.Parser`). Calendar validity is not modelled. In `GridCommon.GetDateRange` the ISO parser is a parameter and days are integer ordinals.
- Cells and values that are not text. A cargo cell is text or None, and `str(c)` of other values is not modelled. In the monthly flight table a country cell is text or missing, while a city, airport name or date cell is text (a missing one is read as its rendering, not as NaN).
- Unicode. `upper`, `lower`, `strip` and `title` are modelled on ASCII only.
- Spreadsheet and file plumbing: `format_excel_file`, `to_excel`, `reindex(columns=…, fill_value='')`, `process_cargo_files` (temporary files, zip bundling, exception logging), CSV delimiter sniffing, and `ExcelWriter` layout. All of it is I/O.
- Both `run_scraper` functions: browser automation, HTML table reading, and float totals and pivots. The model keeps only the station order. The `reindex(fill_value=0)` that adds zero rows for absent stations is pandas and is not modelled.
- The monthly flight file reading and date logic in `scrapers/flight_processor.py:44-95` (serial and text dates forced into the target month), the `pd.to_datetime` columns, and the `groupby` count of the report (`scrapers/flight_processor.py:151`). The model stops at the Nigerian movements before the `groupby`. That `groupby` also drops every movement with a missing group key: one whose forced date (line 82, such as "31/4/2024") does not coerce to a date at line 145, and one whose city is missing, since `fillna` at line 140 puts the missing value back. The model keeps both kinds.
- The weekly date sort and output file, `scrapers/weekly_flight_processor.py:79-92`.
- `app.py`: web routing and downloads.
- WeeklyFlights.SummarizeFiles: returns the summary lines in file order; the sort by coerced dates and the returned Excel filename are not modelled.
- WeeklyFlights.SummarizeFile: models two raising cases. A file with no origin column raises a KeyError. A file whose origin column is empty throughout is read as numbers, and `.str` then raises. Other exceptions (unreadable files, numeric country columns) are not modelled.
- StationOrder.EachStationOnce: takes as hypotheses that the title-cased master names are distinct and that the captured stations are distinct, since they are a pivot table's index. The first hypothesis is true of the list as written but is not proved.
- StationOrder.SortInPlace: Python's `list.sort` is modelled by an insertion sort with the same result; sort stability is not stated, since equal strings cannot be told apart.
- Flights.NigerianMovements: the report's grouping and counting of the kept movements is not modelled.
- Flights.MonthlyMovements: models two raising cases of the monthly processor. A selection naming a column the merged table lacks raises a KeyError. A country column with no text raises at `.str`. A country column of numbers, which `.str` also refuses, is not modelled, since cells are text.
