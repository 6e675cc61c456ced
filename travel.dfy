/**
 * `get_travel_type`, which both flight processors define
 * (scrapers/flight_processor.py and scrapers/weekly_flight_processor.py):
 * a country is stripped and upper-cased, a placeholder for a missing value
 * becomes "UNKNOWN", and a flight is domestic when the two countries agree
 * or either is unknown. The two processors differ only in the set of
 * placeholders, which is a parameter here.
 */
module Travel {
  import opened Strings

  datatype TravelKind = Domestic | International

  /** The country as compared: stripped, upper-cased, placeholders replaced. */
  function Normalize(placeholders: set<string>, country: string): (c: string)
    ensures c == "UNKNOWN" || c == Upper(Strip(country))
    ensures Upper(Strip(country)) in placeholders ==> c == "UNKNOWN"
  {
    var u := Upper(Strip(country));
    if u in placeholders then "UNKNOWN" else u
  }

  /** A country that the comparison treats as known: neither a placeholder
      nor, after normalising, the word "UNKNOWN" itself. */
  predicate Known(placeholders: set<string>, country: string) {
    Upper(Strip(country)) !in placeholders && Upper(Strip(country)) != "UNKNOWN"
  }

  /** `get_travel_type` of a row with countries `origin` and `destination`,
      each as `str(...)` renders it (a missing cell renders as "nan"). */
  function TravelType(placeholders: set<string>, origin: string, destination: string): TravelKind {
    var o, d := Normalize(placeholders, origin), Normalize(placeholders, destination);
    if o == d || o == "UNKNOWN" || d == "UNKNOWN" then Domestic else International
  }

  /** A flight is international exactly when both countries are known and
      they differ once stripped and upper-cased. */
  lemma InternationalIff(placeholders: set<string>, origin: string, destination: string)
    ensures TravelType(placeholders, origin, destination) == International
        <==> Known(placeholders, origin) && Known(placeholders, destination)
             && Upper(Strip(origin)) != Upper(Strip(destination))
  {
  }

  /** The direction of the flight does not matter. */
  lemma TravelTypeSymmetric(placeholders: set<string>, origin: string, destination: string)
    ensures TravelType(placeholders, origin, destination) == TravelType(placeholders, destination, origin)
  {
  }

  /** A flight within one country is domestic. */
  lemma SameCountryDomestic(placeholders: set<string>, origin: string, destination: string)
    requires Upper(Strip(origin)) == Upper(Strip(destination))
    ensures TravelType(placeholders, origin, destination) == Domestic
  {
  }

  /** Adding a placeholder can only turn international flights domestic:
      the two sets agree on every flight whose countries, normalised, are
      outside the extra placeholders. */
  lemma MorePlaceholders(fewer: set<string>, more: set<string>, origin: string, destination: string)
    requires fewer <= more
    ensures TravelType(more, origin, destination) == International
        ==> TravelType(fewer, origin, destination) == International
    ensures Upper(Strip(origin)) !in more - fewer && Upper(Strip(destination)) !in more - fewer
        ==> TravelType(more, origin, destination) == TravelType(fewer, origin, destination)
  {
  }
}
