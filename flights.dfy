/**
 * The row logic of scrapers/flight_processor.py, the monthly flight report:
 * airport names and flight categories are standardized, cities are mapped
 * to states, and every flight is split into a departure and an arrival
 * before the movements at Nigerian airports are kept.
 */
module Flights {
  import opened Wrappers
  import opened Strings
  import opened Search
  import opened Travel

  // ------------------------------------------------------------- airport names

  /** One `if`/`elif` branch of `standardize_airport_name`: the texts it
      looks for and the name it gives. */
  datatype Rule = Rule(patterns: seq<string>, canonical: string)

  /** The branches, in the order they are tried. */
  const AirportRules: seq<Rule> := [
    Rule(["murtala", "muritala"], "Murtala Muhammed International Airport"),
    Rule(["nnamdi", "azikiwe"], "Nnamdi Azikiwe International Airport"),
    Rule(["aminu kano"], "Mallam Aminu Kano International Airport"),
    Rule(["akanu ibiam", "enugu"], "Akanu Ibiam International Airport"),
    Rule(["sam mbakwe", "owerri"], "Sam Mbakwe International Cargo Airport"),
    Rule(["margaret ekpo", "calabar"], "Margaret Ekpo International Airport"),
    Rule(["port harcourt"], "Port Harcourt International Airport"),
    Rule(["yakubu gowon", "jos"], "Yakubu Gowon Airport"),
    Rule(["sadiq abubakar", "sultan saddik"], "Sadiq Abubakar III International Airport"),
    Rule(["tunde idiagbon", "ilorin"], "Ilorin Airport"),
    Rule(["kaduna"], "Kaduna International Airport"),
    Rule(["zaria"], "Zaria Airport"),
    Rule(["benin"], "Benin Airport")
  ]

  /** A branch is taken when one of its texts occurs in the cleaned name. */
  predicate Hits(n: string, r: Rule) {
    exists p :: p in r.patterns && Contains(n, p)
  }

  /** The first branch taken for the cleaned name `n`. */
  function RuleIndex(n: string): Option<nat> {
    FirstWhere(AirportRules, r => Hits(n, r))
  }

  /** `standardize_airport_name`, on the name as `str(name)` renders it. */
  function StandardizeAirportName(name: string): (r: string)
    ensures r == Strip(name) || exists k :: 0 <= k < |AirportRules| && r == AirportRules[k].canonical
  {
    match RuleIndex(Lower(Strip(name)))
    case Some(k) => AirportRules[k].canonical
    case None => Strip(name)
  }

  /** The first branch whose text occurs in the stripped, lower-cased name
      decides. */
  lemma StandardizeFirstHit(name: string, k: nat)
    requires k < |AirportRules| && Hits(Lower(Strip(name)), AirportRules[k])
    requires forall j :: 0 <= j < k ==> !Hits(Lower(Strip(name)), AirportRules[j])
    ensures StandardizeAirportName(name) == AirportRules[k].canonical
  {
    FirstWhereAt(AirportRules, r => Hits(Lower(Strip(name)), r), k);
  }

  /** With no branch taken, the name comes back stripped. */
  lemma StandardizeNoHit(name: string)
    requires forall j :: 0 <= j < |AirportRules| ==> !Hits(Lower(Strip(name)), AirportRules[j])
    ensures StandardizeAirportName(name) == Strip(name)
  {
  }

  /** Standardizing a standardized name changes nothing: each canonical
      name takes its own branch first, and a name no branch takes stays
      the same once stripped. */
  lemma StandardizeIdempotent(name: string)
    ensures StandardizeAirportName(StandardizeAirportName(name)) == StandardizeAirportName(name)
  {
    match RuleIndex(Lower(Strip(name)))
    case Some(k) =>
      CanonicalFixed(k);
    case None =>
      StripIdempotent(name);
  }

  /** A name mentioning Enugu, and nothing an earlier branch looks for, is
      the Akanu Ibiam airport. */
  lemma EnuguIsAkanuIbiam()
    ensures StandardizeAirportName("Enugu") == "Akanu Ibiam International Airport"
  {
    EnuguFacts("Enugu");
    StrippedIsFixpoint("Enugu");
    EnuguHits(Lower(Strip("Enugu")));
    StandardizeFirstHit("Enugu", 3);
    RuleAkanuIbiam();
  }

  /** "benin" is looked for last: "Benin City" reaches that branch only
      after missing every other. */
  lemma BeninCityIsBenin()
    ensures StandardizeAirportName("Benin City") == "Benin Airport"
  {
    BeninCityFacts("Benin City");
    StrippedIsFixpoint("Benin City");
    BeninCityHits(Lower(Strip("Benin City")));
    StandardizeFirstHit("Benin City", 12);
    RuleBenin();
  }

  lemma RuleMurtala()
    ensures AirportRules[0] == Rule(["murtala", "muritala"], "Murtala Muhammed International Airport")
  {
  }

  lemma NotMurtala(n: string)
    requires !Contains(n, "murtala") && !Contains(n, "muritala")
    ensures !Hits(n, AirportRules[0])
  {
    RuleMurtala();
  }

  lemma RuleNnamdi()
    ensures AirportRules[1] == Rule(["nnamdi", "azikiwe"], "Nnamdi Azikiwe International Airport")
  {
  }

  lemma NotNnamdi(n: string)
    requires !Contains(n, "nnamdi") && !Contains(n, "azikiwe")
    ensures !Hits(n, AirportRules[1])
  {
    RuleNnamdi();
  }

  lemma RuleAminuKano()
    ensures AirportRules[2] == Rule(["aminu kano"], "Mallam Aminu Kano International Airport")
  {
  }

  lemma NotAminuKano(n: string)
    requires !Contains(n, "aminu kano")
    ensures !Hits(n, AirportRules[2])
  {
    RuleAminuKano();
  }

  lemma RuleAkanuIbiam()
    ensures AirportRules[3] == Rule(["akanu ibiam", "enugu"], "Akanu Ibiam International Airport")
  {
  }

  lemma NotAkanuIbiam(n: string)
    requires !Contains(n, "akanu ibiam") && !Contains(n, "enugu")
    ensures !Hits(n, AirportRules[3])
  {
    RuleAkanuIbiam();
  }

  lemma RuleSamMbakwe()
    ensures AirportRules[4] == Rule(["sam mbakwe", "owerri"], "Sam Mbakwe International Cargo Airport")
  {
  }

  lemma NotSamMbakwe(n: string)
    requires !Contains(n, "sam mbakwe") && !Contains(n, "owerri")
    ensures !Hits(n, AirportRules[4])
  {
    RuleSamMbakwe();
  }

  lemma RuleMargaretEkpo()
    ensures AirportRules[5] == Rule(["margaret ekpo", "calabar"], "Margaret Ekpo International Airport")
  {
  }

  lemma NotMargaretEkpo(n: string)
    requires !Contains(n, "margaret ekpo") && !Contains(n, "calabar")
    ensures !Hits(n, AirportRules[5])
  {
    RuleMargaretEkpo();
  }

  lemma RulePortHarcourt()
    ensures AirportRules[6] == Rule(["port harcourt"], "Port Harcourt International Airport")
  {
  }

  lemma NotPortHarcourt(n: string)
    requires !Contains(n, "port harcourt")
    ensures !Hits(n, AirportRules[6])
  {
    RulePortHarcourt();
  }

  lemma RuleYakubuGowon()
    ensures AirportRules[7] == Rule(["yakubu gowon", "jos"], "Yakubu Gowon Airport")
  {
  }

  lemma NotYakubuGowon(n: string)
    requires !Contains(n, "yakubu gowon") && !Contains(n, "jos")
    ensures !Hits(n, AirportRules[7])
  {
    RuleYakubuGowon();
  }

  lemma RuleSadiqAbubakar()
    ensures AirportRules[8] == Rule(["sadiq abubakar", "sultan saddik"], "Sadiq Abubakar III International Airport")
  {
  }

  lemma NotSadiqAbubakar(n: string)
    requires !Contains(n, "sadiq abubakar") && !Contains(n, "sultan saddik")
    ensures !Hits(n, AirportRules[8])
  {
    RuleSadiqAbubakar();
  }

  lemma RuleIlorin()
    ensures AirportRules[9] == Rule(["tunde idiagbon", "ilorin"], "Ilorin Airport")
  {
  }

  lemma NotIlorin(n: string)
    requires !Contains(n, "tunde idiagbon") && !Contains(n, "ilorin")
    ensures !Hits(n, AirportRules[9])
  {
    RuleIlorin();
  }

  lemma RuleKaduna()
    ensures AirportRules[10] == Rule(["kaduna"], "Kaduna International Airport")
  {
  }

  lemma NotKaduna(n: string)
    requires !Contains(n, "kaduna")
    ensures !Hits(n, AirportRules[10])
  {
    RuleKaduna();
  }

  lemma RuleZaria()
    ensures AirportRules[11] == Rule(["zaria"], "Zaria Airport")
  {
  }

  lemma NotZaria(n: string)
    requires !Contains(n, "zaria")
    ensures !Hits(n, AirportRules[11])
  {
    RuleZaria();
  }

  lemma RuleBenin()
    ensures AirportRules[12] == Rule(["benin"], "Benin Airport")
  {
  }

  lemma NotBenin(n: string)
    requires !Contains(n, "benin")
    ensures !Hits(n, AirportRules[12])
  {
    RuleBenin();
  }

  /** A name containing none of the texts of the first 1 rules takes none of them. */
  lemma NoRuleBefore1(n: string)
    requires !Contains(n, "murtala") && !Contains(n, "muritala")
    ensures forall j :: 0 <= j < 1 ==> !Hits(n, AirportRules[j])
  {
    forall j | 0 <= j < 1
      ensures !Hits(n, AirportRules[j])
    {
      NotMurtala(n);
    }
  }

  /** A name containing none of the texts of the first 2 rules takes none of them. */
  lemma NoRuleBefore2(n: string)
    requires !Contains(n, "murtala") && !Contains(n, "muritala")
    requires !Contains(n, "nnamdi") && !Contains(n, "azikiwe")
    ensures forall j :: 0 <= j < 2 ==> !Hits(n, AirportRules[j])
  {
    forall j | 0 <= j < 2
      ensures !Hits(n, AirportRules[j])
    {
      if j == 0 {
        NotMurtala(n);
      } else {
        NotNnamdi(n);
      }
    }
  }

  /** A name containing none of the texts of the first 3 rules takes none of them. */
  lemma NoRuleBefore3(n: string)
    requires !Contains(n, "murtala") && !Contains(n, "muritala")
    requires !Contains(n, "nnamdi") && !Contains(n, "azikiwe")
    requires !Contains(n, "aminu kano")
    ensures forall j :: 0 <= j < 3 ==> !Hits(n, AirportRules[j])
  {
    forall j | 0 <= j < 3
      ensures !Hits(n, AirportRules[j])
    {
      if j == 0 {
        NotMurtala(n);
      } else if j == 1 {
        NotNnamdi(n);
      } else {
        NotAminuKano(n);
      }
    }
  }

  /** A name containing none of the texts of the first 4 rules takes none of them. */
  lemma NoRuleBefore4(n: string)
    requires !Contains(n, "murtala") && !Contains(n, "muritala")
    requires !Contains(n, "nnamdi") && !Contains(n, "azikiwe")
    requires !Contains(n, "aminu kano")
    requires !Contains(n, "akanu ibiam") && !Contains(n, "enugu")
    ensures forall j :: 0 <= j < 4 ==> !Hits(n, AirportRules[j])
  {
    forall j | 0 <= j < 4
      ensures !Hits(n, AirportRules[j])
    {
      if j == 0 {
        NotMurtala(n);
      } else if j == 1 {
        NotNnamdi(n);
      } else if j == 2 {
        NotAminuKano(n);
      } else {
        NotAkanuIbiam(n);
      }
    }
  }

  /** A name containing none of the texts of the first 5 rules takes none of them. */
  lemma NoRuleBefore5(n: string)
    requires !Contains(n, "murtala") && !Contains(n, "muritala")
    requires !Contains(n, "nnamdi") && !Contains(n, "azikiwe")
    requires !Contains(n, "aminu kano")
    requires !Contains(n, "akanu ibiam") && !Contains(n, "enugu")
    requires !Contains(n, "sam mbakwe") && !Contains(n, "owerri")
    ensures forall j :: 0 <= j < 5 ==> !Hits(n, AirportRules[j])
  {
    forall j | 0 <= j < 5
      ensures !Hits(n, AirportRules[j])
    {
      if j == 0 {
        NotMurtala(n);
      } else if j == 1 {
        NotNnamdi(n);
      } else if j == 2 {
        NotAminuKano(n);
      } else if j == 3 {
        NotAkanuIbiam(n);
      } else {
        NotSamMbakwe(n);
      }
    }
  }

  /** A name containing none of the texts of the first 6 rules takes none of them. */
  lemma NoRuleBefore6(n: string)
    requires !Contains(n, "murtala") && !Contains(n, "muritala")
    requires !Contains(n, "nnamdi") && !Contains(n, "azikiwe")
    requires !Contains(n, "aminu kano")
    requires !Contains(n, "akanu ibiam") && !Contains(n, "enugu")
    requires !Contains(n, "sam mbakwe") && !Contains(n, "owerri")
    requires !Contains(n, "margaret ekpo") && !Contains(n, "calabar")
    ensures forall j :: 0 <= j < 6 ==> !Hits(n, AirportRules[j])
  {
    forall j | 0 <= j < 6
      ensures !Hits(n, AirportRules[j])
    {
      if j == 0 {
        NotMurtala(n);
      } else if j == 1 {
        NotNnamdi(n);
      } else if j == 2 {
        NotAminuKano(n);
      } else if j == 3 {
        NotAkanuIbiam(n);
      } else if j == 4 {
        NotSamMbakwe(n);
      } else {
        NotMargaretEkpo(n);
      }
    }
  }

  /** A name containing none of the texts of the first 7 rules takes none of them. */
  lemma NoRuleBefore7(n: string)
    requires !Contains(n, "murtala") && !Contains(n, "muritala")
    requires !Contains(n, "nnamdi") && !Contains(n, "azikiwe")
    requires !Contains(n, "aminu kano")
    requires !Contains(n, "akanu ibiam") && !Contains(n, "enugu")
    requires !Contains(n, "sam mbakwe") && !Contains(n, "owerri")
    requires !Contains(n, "margaret ekpo") && !Contains(n, "calabar")
    requires !Contains(n, "port harcourt")
    ensures forall j :: 0 <= j < 7 ==> !Hits(n, AirportRules[j])
  {
    forall j | 0 <= j < 7
      ensures !Hits(n, AirportRules[j])
    {
      if j == 0 {
        NotMurtala(n);
      } else if j == 1 {
        NotNnamdi(n);
      } else if j == 2 {
        NotAminuKano(n);
      } else if j == 3 {
        NotAkanuIbiam(n);
      } else if j == 4 {
        NotSamMbakwe(n);
      } else if j == 5 {
        NotMargaretEkpo(n);
      } else {
        NotPortHarcourt(n);
      }
    }
  }

  /** A name containing none of the texts of the first 8 rules takes none of them. */
  lemma NoRuleBefore8(n: string)
    requires !Contains(n, "murtala") && !Contains(n, "muritala")
    requires !Contains(n, "nnamdi") && !Contains(n, "azikiwe")
    requires !Contains(n, "aminu kano")
    requires !Contains(n, "akanu ibiam") && !Contains(n, "enugu")
    requires !Contains(n, "sam mbakwe") && !Contains(n, "owerri")
    requires !Contains(n, "margaret ekpo") && !Contains(n, "calabar")
    requires !Contains(n, "port harcourt")
    requires !Contains(n, "yakubu gowon") && !Contains(n, "jos")
    ensures forall j :: 0 <= j < 8 ==> !Hits(n, AirportRules[j])
  {
    forall j | 0 <= j < 8
      ensures !Hits(n, AirportRules[j])
    {
      if j == 0 {
        NotMurtala(n);
      } else if j == 1 {
        NotNnamdi(n);
      } else if j == 2 {
        NotAminuKano(n);
      } else if j == 3 {
        NotAkanuIbiam(n);
      } else if j == 4 {
        NotSamMbakwe(n);
      } else if j == 5 {
        NotMargaretEkpo(n);
      } else if j == 6 {
        NotPortHarcourt(n);
      } else {
        NotYakubuGowon(n);
      }
    }
  }

  /** A name containing none of the texts of the first 9 rules takes none of them. */
  lemma NoRuleBefore9(n: string)
    requires !Contains(n, "murtala") && !Contains(n, "muritala")
    requires !Contains(n, "nnamdi") && !Contains(n, "azikiwe")
    requires !Contains(n, "aminu kano")
    requires !Contains(n, "akanu ibiam") && !Contains(n, "enugu")
    requires !Contains(n, "sam mbakwe") && !Contains(n, "owerri")
    requires !Contains(n, "margaret ekpo") && !Contains(n, "calabar")
    requires !Contains(n, "port harcourt")
    requires !Contains(n, "yakubu gowon") && !Contains(n, "jos")
    requires !Contains(n, "sadiq abubakar") && !Contains(n, "sultan saddik")
    ensures forall j :: 0 <= j < 9 ==> !Hits(n, AirportRules[j])
  {
    forall j | 0 <= j < 9
      ensures !Hits(n, AirportRules[j])
    {
      if j == 0 {
        NotMurtala(n);
      } else if j == 1 {
        NotNnamdi(n);
      } else if j == 2 {
        NotAminuKano(n);
      } else if j == 3 {
        NotAkanuIbiam(n);
      } else if j == 4 {
        NotSamMbakwe(n);
      } else if j == 5 {
        NotMargaretEkpo(n);
      } else if j == 6 {
        NotPortHarcourt(n);
      } else if j == 7 {
        NotYakubuGowon(n);
      } else {
        NotSadiqAbubakar(n);
      }
    }
  }

  /** A name containing none of the texts of the first 10 rules takes none of them. */
  lemma NoRuleBefore10(n: string)
    requires !Contains(n, "murtala") && !Contains(n, "muritala")
    requires !Contains(n, "nnamdi") && !Contains(n, "azikiwe")
    requires !Contains(n, "aminu kano")
    requires !Contains(n, "akanu ibiam") && !Contains(n, "enugu")
    requires !Contains(n, "sam mbakwe") && !Contains(n, "owerri")
    requires !Contains(n, "margaret ekpo") && !Contains(n, "calabar")
    requires !Contains(n, "port harcourt")
    requires !Contains(n, "yakubu gowon") && !Contains(n, "jos")
    requires !Contains(n, "sadiq abubakar") && !Contains(n, "sultan saddik")
    requires !Contains(n, "tunde idiagbon") && !Contains(n, "ilorin")
    ensures forall j :: 0 <= j < 10 ==> !Hits(n, AirportRules[j])
  {
    forall j | 0 <= j < 10
      ensures !Hits(n, AirportRules[j])
    {
      if j == 0 {
        NotMurtala(n);
      } else if j == 1 {
        NotNnamdi(n);
      } else if j == 2 {
        NotAminuKano(n);
      } else if j == 3 {
        NotAkanuIbiam(n);
      } else if j == 4 {
        NotSamMbakwe(n);
      } else if j == 5 {
        NotMargaretEkpo(n);
      } else if j == 6 {
        NotPortHarcourt(n);
      } else if j == 7 {
        NotYakubuGowon(n);
      } else if j == 8 {
        NotSadiqAbubakar(n);
      } else {
        NotIlorin(n);
      }
    }
  }

  /** A name containing none of the texts of the first 11 rules takes none of them. */
  lemma NoRuleBefore11(n: string)
    requires !Contains(n, "murtala") && !Contains(n, "muritala")
    requires !Contains(n, "nnamdi") && !Contains(n, "azikiwe")
    requires !Contains(n, "aminu kano")
    requires !Contains(n, "akanu ibiam") && !Contains(n, "enugu")
    requires !Contains(n, "sam mbakwe") && !Contains(n, "owerri")
    requires !Contains(n, "margaret ekpo") && !Contains(n, "calabar")
    requires !Contains(n, "port harcourt")
    requires !Contains(n, "yakubu gowon") && !Contains(n, "jos")
    requires !Contains(n, "sadiq abubakar") && !Contains(n, "sultan saddik")
    requires !Contains(n, "tunde idiagbon") && !Contains(n, "ilorin")
    requires !Contains(n, "kaduna")
    ensures forall j :: 0 <= j < 11 ==> !Hits(n, AirportRules[j])
  {
    forall j | 0 <= j < 11
      ensures !Hits(n, AirportRules[j])
    {
      if j == 0 {
        NotMurtala(n);
      } else if j == 1 {
        NotNnamdi(n);
      } else if j == 2 {
        NotAminuKano(n);
      } else if j == 3 {
        NotAkanuIbiam(n);
      } else if j == 4 {
        NotSamMbakwe(n);
      } else if j == 5 {
        NotMargaretEkpo(n);
      } else if j == 6 {
        NotPortHarcourt(n);
      } else if j == 7 {
        NotYakubuGowon(n);
      } else if j == 8 {
        NotSadiqAbubakar(n);
      } else if j == 9 {
        NotIlorin(n);
      } else {
        NotKaduna(n);
      }
    }
  }

  /** A name containing none of the texts of the first 12 rules takes none of them. */
  lemma NoRuleBefore12(n: string)
    requires !Contains(n, "murtala") && !Contains(n, "muritala")
    requires !Contains(n, "nnamdi") && !Contains(n, "azikiwe")
    requires !Contains(n, "aminu kano")
    requires !Contains(n, "akanu ibiam") && !Contains(n, "enugu")
    requires !Contains(n, "sam mbakwe") && !Contains(n, "owerri")
    requires !Contains(n, "margaret ekpo") && !Contains(n, "calabar")
    requires !Contains(n, "port harcourt")
    requires !Contains(n, "yakubu gowon") && !Contains(n, "jos")
    requires !Contains(n, "sadiq abubakar") && !Contains(n, "sultan saddik")
    requires !Contains(n, "tunde idiagbon") && !Contains(n, "ilorin")
    requires !Contains(n, "kaduna")
    requires !Contains(n, "zaria")
    ensures forall j :: 0 <= j < 12 ==> !Hits(n, AirportRules[j])
  {
    forall j | 0 <= j < 12
      ensures !Hits(n, AirportRules[j])
    {
      if j == 0 {
        NotMurtala(n);
      } else if j == 1 {
        NotNnamdi(n);
      } else if j == 2 {
        NotAminuKano(n);
      } else if j == 3 {
        NotAkanuIbiam(n);
      } else if j == 4 {
        NotSamMbakwe(n);
      } else if j == 5 {
        NotMargaretEkpo(n);
      } else if j == 6 {
        NotPortHarcourt(n);
      } else if j == 7 {
        NotYakubuGowon(n);
      } else if j == 8 {
        NotSadiqAbubakar(n);
      } else if j == 9 {
        NotIlorin(n);
      } else if j == 10 {
        NotKaduna(n);
      } else {
        NotZaria(n);
      }
    }
  }

  lemma MurtalaChars(c: string)
    requires c == "Murtala Muhammed International Airport"
    ensures Stripped(c) && |Lower(c)| == 38 && CharsIn(Lower(c), {' ', 'a', 'd', 'e', 'h', 'i', 'l', 'm', 'n', 'o', 'p', 'r', 't', 'u'})
  {
  }

  lemma MurtalaOccurs(c: string)
    requires c == "Murtala Muhammed International Airport"
    ensures OccursAt(Lower(c), "murtala", 0)
  {
    OccursByIndex(Lower(c), "murtala", 0);
  }

  lemma MurtalaFacts(c: string)
    requires c == "Murtala Muhammed International Airport"
    ensures Stripped(c)
    ensures |Lower(c)| == 38 && CharsIn(Lower(c), {' ', 'a', 'd', 'e', 'h', 'i', 'l', 'm', 'n', 'o', 'p', 'r', 't', 'u'})
    ensures OccursAt(Lower(c), "murtala", 0)
  {
    MurtalaChars(c);
    MurtalaOccurs(c);
  }

  /** The canonical "Murtala Muhammed International Airport", lower-cased, misses every earlier rule and hits its own. */
  lemma MurtalaHits(n: string)
    requires |n| == 38 && CharsIn(n, {' ', 'a', 'd', 'e', 'h', 'i', 'l', 'm', 'n', 'o', 'p', 'r', 't', 'u'})
    requires OccursAt(n, "murtala", 0)
    ensures Hits(n, AirportRules[0])
  {
    RuleMurtala();
    ContainsAt(n, "murtala", 0);
  }

  lemma NnamdiChars(c: string)
    requires c == "Nnamdi Azikiwe International Airport"
    ensures Stripped(c) && |Lower(c)| == 36 && CharsIn(Lower(c), {' ', 'a', 'd', 'e', 'i', 'k', 'l', 'm', 'n', 'o', 'p', 'r', 't', 'w', 'z'})
  {
  }

  lemma NnamdiOccurs(c: string)
    requires c == "Nnamdi Azikiwe International Airport"
    ensures OccursAt(Lower(c), "nnamdi", 0)
  {
    OccursByIndex(Lower(c), "nnamdi", 0);
  }

  lemma NnamdiFacts(c: string)
    requires c == "Nnamdi Azikiwe International Airport"
    ensures Stripped(c)
    ensures |Lower(c)| == 36 && CharsIn(Lower(c), {' ', 'a', 'd', 'e', 'i', 'k', 'l', 'm', 'n', 'o', 'p', 'r', 't', 'w', 'z'})
    ensures OccursAt(Lower(c), "nnamdi", 0)
  {
    NnamdiChars(c);
    NnamdiOccurs(c);
  }

  lemma NnamdiMisses(n: string)
    requires |n| == 36 && CharsIn(n, {' ', 'a', 'd', 'e', 'i', 'k', 'l', 'm', 'n', 'o', 'p', 'r', 't', 'w', 'z'})
    ensures !Contains(n, "murtala") && !Contains(n, "muritala")
  {
    AbsentChar(n, {' ', 'a', 'd', 'e', 'i', 'k', 'l', 'm', 'n', 'o', 'p', 'r', 't', 'w', 'z'}, "murtala", 'u');
    AbsentChar(n, {' ', 'a', 'd', 'e', 'i', 'k', 'l', 'm', 'n', 'o', 'p', 'r', 't', 'w', 'z'}, "muritala", 'u');
  }

  /** The canonical "Nnamdi Azikiwe International Airport", lower-cased, misses every earlier rule and hits its own. */
  lemma NnamdiHits(n: string)
    requires |n| == 36 && CharsIn(n, {' ', 'a', 'd', 'e', 'i', 'k', 'l', 'm', 'n', 'o', 'p', 'r', 't', 'w', 'z'})
    requires OccursAt(n, "nnamdi", 0)
    ensures forall j :: 0 <= j < 1 ==> !Hits(n, AirportRules[j])
    ensures Hits(n, AirportRules[1])
  {
    NnamdiMisses(n);
    NoRuleBefore1(n);
    RuleNnamdi();
    ContainsAt(n, "nnamdi", 0);
  }

  lemma AminuKanoChars(c: string)
    requires c == "Mallam Aminu Kano International Airport"
    ensures Stripped(c) && |Lower(c)| == 39 && CharsIn(Lower(c), {' ', 'a', 'e', 'i', 'k', 'l', 'm', 'n', 'o', 'p', 'r', 't', 'u'})
  {
  }

  lemma AminuKanoSplit12(c: string)
    requires c == "Mallam Aminu Kano International Airport"
    ensures Lower(c)[12] == ' ' && CharsInRange(Lower(c), 0, 12, {' ', 'a', 'i', 'l', 'm', 'n', 'u'}) && CharsInRange(Lower(c), 13, 39, {' ', 'a', 'e', 'i', 'k', 'l', 'n', 'o', 'p', 'r', 't'})
  {
  }

  lemma AminuKanoOccurs(c: string)
    requires c == "Mallam Aminu Kano International Airport"
    ensures OccursAt(Lower(c), "aminu kano", 7)
  {
    OccursByIndex(Lower(c), "aminu kano", 7);
  }

  lemma AminuKanoFacts(c: string)
    requires c == "Mallam Aminu Kano International Airport"
    ensures Stripped(c)
    ensures |Lower(c)| == 39 && CharsIn(Lower(c), {' ', 'a', 'e', 'i', 'k', 'l', 'm', 'n', 'o', 'p', 'r', 't', 'u'})
    ensures Lower(c)[12] == ' ' && CharsInRange(Lower(c), 0, 12, {' ', 'a', 'i', 'l', 'm', 'n', 'u'}) && CharsInRange(Lower(c), 13, 39, {' ', 'a', 'e', 'i', 'k', 'l', 'n', 'o', 'p', 'r', 't'})
    ensures OccursAt(Lower(c), "aminu kano", 7)
  {
    AminuKanoChars(c);
    AminuKanoSplit12(c);
    AminuKanoOccurs(c);
  }

  lemma AminuKanoMisses(n: string)
    requires |n| == 39 && CharsIn(n, {' ', 'a', 'e', 'i', 'k', 'l', 'm', 'n', 'o', 'p', 'r', 't', 'u'})
    ensures !Contains(n, "nnamdi") && !Contains(n, "azikiwe")
  {
    AbsentChar(n, {' ', 'a', 'e', 'i', 'k', 'l', 'm', 'n', 'o', 'p', 'r', 't', 'u'}, "nnamdi", 'd');
    AbsentChar(n, {' ', 'a', 'e', 'i', 'k', 'l', 'm', 'n', 'o', 'p', 'r', 't', 'u'}, "azikiwe", 'z');
  }

  lemma AminuKanoAvoidsMurtala(n: string)
    requires |n| == 39 && n[12] == ' ' && CharsInRange(n, 0, 12, {' ', 'a', 'i', 'l', 'm', 'n', 'u'}) && CharsInRange(n, 13, 39, {' ', 'a', 'e', 'i', 'k', 'l', 'n', 'o', 'p', 'r', 't'})
    ensures !Contains(n, "murtala")
  {
    CharsInPrefix(n, 12, {' ', 'a', 'i', 'l', 'm', 'n', 'u'});
    CharsInSuffix(n, 13, {' ', 'a', 'e', 'i', 'k', 'l', 'n', 'o', 'p', 'r', 't'});
    AbsentChar(n[..12], {' ', 'a', 'i', 'l', 'm', 'n', 'u'}, "murtala", 'r');
    AbsentChar(n[12 + 1..], {' ', 'a', 'e', 'i', 'k', 'l', 'n', 'o', 'p', 'r', 't'}, "murtala", 'm');
    NotAcrossAt(n, 12, "murtala");
  }

  lemma AminuKanoAvoidsMuritala(n: string)
    requires |n| == 39 && n[12] == ' ' && CharsInRange(n, 0, 12, {' ', 'a', 'i', 'l', 'm', 'n', 'u'}) && CharsInRange(n, 13, 39, {' ', 'a', 'e', 'i', 'k', 'l', 'n', 'o', 'p', 'r', 't'})
    ensures !Contains(n, "muritala")
  {
    CharsInPrefix(n, 12, {' ', 'a', 'i', 'l', 'm', 'n', 'u'});
    CharsInSuffix(n, 13, {' ', 'a', 'e', 'i', 'k', 'l', 'n', 'o', 'p', 'r', 't'});
    AbsentChar(n[..12], {' ', 'a', 'i', 'l', 'm', 'n', 'u'}, "muritala", 'r');
    AbsentChar(n[12 + 1..], {' ', 'a', 'e', 'i', 'k', 'l', 'n', 'o', 'p', 'r', 't'}, "muritala", 'm');
    NotAcrossAt(n, 12, "muritala");
  }

  /** The canonical "Mallam Aminu Kano International Airport", lower-cased, misses every earlier rule and hits its own. */
  lemma AminuKanoHits(n: string)
    requires |n| == 39 && CharsIn(n, {' ', 'a', 'e', 'i', 'k', 'l', 'm', 'n', 'o', 'p', 'r', 't', 'u'})
    requires n[12] == ' ' && CharsInRange(n, 0, 12, {' ', 'a', 'i', 'l', 'm', 'n', 'u'}) && CharsInRange(n, 13, 39, {' ', 'a', 'e', 'i', 'k', 'l', 'n', 'o', 'p', 'r', 't'})
    requires OccursAt(n, "aminu kano", 7)
    ensures forall j :: 0 <= j < 2 ==> !Hits(n, AirportRules[j])
    ensures Hits(n, AirportRules[2])
  {
    AminuKanoMisses(n);
    AminuKanoAvoidsMurtala(n);
    AminuKanoAvoidsMuritala(n);
    NoRuleBefore2(n);
    RuleAminuKano();
    ContainsAt(n, "aminu kano", 7);
  }

  lemma AkanuIbiamChars(c: string)
    requires c == "Akanu Ibiam International Airport"
    ensures Stripped(c) && |Lower(c)| == 33 && CharsIn(Lower(c), {' ', 'a', 'b', 'e', 'i', 'k', 'l', 'm', 'n', 'o', 'p', 'r', 't', 'u'})
  {
  }

  lemma AkanuIbiamSplit5(c: string)
    requires c == "Akanu Ibiam International Airport"
    ensures Lower(c)[5] == ' ' && CharsInRange(Lower(c), 0, 5, {'a', 'k', 'n', 'u'}) && CharsInRange(Lower(c), 6, 33, {' ', 'a', 'b', 'e', 'i', 'l', 'm', 'n', 'o', 'p', 'r', 't'})
  {
  }

  lemma AkanuIbiamSplit7(c: string)
    requires c == "Akanu Ibiam International Airport"
    ensures Lower(c)[7] == 'b' && CharsInRange(Lower(c), 0, 7, {' ', 'a', 'i', 'k', 'n', 'u'}) && CharsInRange(Lower(c), 8, 33, {' ', 'a', 'e', 'i', 'l', 'm', 'n', 'o', 'p', 'r', 't'})
  {
  }

  lemma AkanuIbiamOccurs(c: string)
    requires c == "Akanu Ibiam International Airport"
    ensures OccursAt(Lower(c), "akanu ibiam", 0)
  {
    OccursByIndex(Lower(c), "akanu ibiam", 0);
  }

  lemma AkanuIbiamFacts(c: string)
    requires c == "Akanu Ibiam International Airport"
    ensures Stripped(c)
    ensures |Lower(c)| == 33 && CharsIn(Lower(c), {' ', 'a', 'b', 'e', 'i', 'k', 'l', 'm', 'n', 'o', 'p', 'r', 't', 'u'})
    ensures Lower(c)[5] == ' ' && CharsInRange(Lower(c), 0, 5, {'a', 'k', 'n', 'u'}) && CharsInRange(Lower(c), 6, 33, {' ', 'a', 'b', 'e', 'i', 'l', 'm', 'n', 'o', 'p', 'r', 't'})
    ensures Lower(c)[7] == 'b' && CharsInRange(Lower(c), 0, 7, {' ', 'a', 'i', 'k', 'n', 'u'}) && CharsInRange(Lower(c), 8, 33, {' ', 'a', 'e', 'i', 'l', 'm', 'n', 'o', 'p', 'r', 't'})
    ensures OccursAt(Lower(c), "akanu ibiam", 0)
  {
    AkanuIbiamChars(c);
    AkanuIbiamSplit5(c);
    AkanuIbiamSplit7(c);
    AkanuIbiamOccurs(c);
  }

  lemma AkanuIbiamMisses(n: string)
    requires |n| == 33 && CharsIn(n, {' ', 'a', 'b', 'e', 'i', 'k', 'l', 'm', 'n', 'o', 'p', 'r', 't', 'u'})
    ensures !Contains(n, "nnamdi") && !Contains(n, "azikiwe")
  {
    AbsentChar(n, {' ', 'a', 'b', 'e', 'i', 'k', 'l', 'm', 'n', 'o', 'p', 'r', 't', 'u'}, "nnamdi", 'd');
    AbsentChar(n, {' ', 'a', 'b', 'e', 'i', 'k', 'l', 'm', 'n', 'o', 'p', 'r', 't', 'u'}, "azikiwe", 'z');
  }

  lemma AkanuIbiamAvoidsMurtala(n: string)
    requires |n| == 33 && n[5] == ' ' && CharsInRange(n, 0, 5, {'a', 'k', 'n', 'u'}) && CharsInRange(n, 6, 33, {' ', 'a', 'b', 'e', 'i', 'l', 'm', 'n', 'o', 'p', 'r', 't'})
    ensures !Contains(n, "murtala")
  {
    CharsInPrefix(n, 5, {'a', 'k', 'n', 'u'});
    CharsInSuffix(n, 6, {' ', 'a', 'b', 'e', 'i', 'l', 'm', 'n', 'o', 'p', 'r', 't'});
    AbsentChar(n[..5], {'a', 'k', 'n', 'u'}, "murtala", 'm');
    AbsentChar(n[5 + 1..], {' ', 'a', 'b', 'e', 'i', 'l', 'm', 'n', 'o', 'p', 'r', 't'}, "murtala", 'u');
    NotAcrossAt(n, 5, "murtala");
  }

  lemma AkanuIbiamAvoidsMuritala(n: string)
    requires |n| == 33 && n[5] == ' ' && CharsInRange(n, 0, 5, {'a', 'k', 'n', 'u'}) && CharsInRange(n, 6, 33, {' ', 'a', 'b', 'e', 'i', 'l', 'm', 'n', 'o', 'p', 'r', 't'})
    ensures !Contains(n, "muritala")
  {
    CharsInPrefix(n, 5, {'a', 'k', 'n', 'u'});
    CharsInSuffix(n, 6, {' ', 'a', 'b', 'e', 'i', 'l', 'm', 'n', 'o', 'p', 'r', 't'});
    AbsentChar(n[..5], {'a', 'k', 'n', 'u'}, "muritala", 'm');
    AbsentChar(n[5 + 1..], {' ', 'a', 'b', 'e', 'i', 'l', 'm', 'n', 'o', 'p', 'r', 't'}, "muritala", 'u');
    NotAcrossAt(n, 5, "muritala");
  }

  lemma AkanuIbiamAvoidsAminuKano(n: string)
    requires |n| == 33 && n[7] == 'b' && CharsInRange(n, 0, 7, {' ', 'a', 'i', 'k', 'n', 'u'}) && CharsInRange(n, 8, 33, {' ', 'a', 'e', 'i', 'l', 'm', 'n', 'o', 'p', 'r', 't'})
    ensures !Contains(n, "aminu kano")
  {
    CharsInPrefix(n, 7, {' ', 'a', 'i', 'k', 'n', 'u'});
    CharsInSuffix(n, 8, {' ', 'a', 'e', 'i', 'l', 'm', 'n', 'o', 'p', 'r', 't'});
    AbsentChar(n[..7], {' ', 'a', 'i', 'k', 'n', 'u'}, "aminu kano", 'm');
    AbsentChar(n[7 + 1..], {' ', 'a', 'e', 'i', 'l', 'm', 'n', 'o', 'p', 'r', 't'}, "aminu kano", 'u');
    NotAcrossAt(n, 7, "aminu kano");
  }

  /** The canonical "Akanu Ibiam International Airport", lower-cased, misses every earlier rule and hits its own. */
  lemma AkanuIbiamHits(n: string)
    requires |n| == 33 && CharsIn(n, {' ', 'a', 'b', 'e', 'i', 'k', 'l', 'm', 'n', 'o', 'p', 'r', 't', 'u'})
    requires n[5] == ' ' && CharsInRange(n, 0, 5, {'a', 'k', 'n', 'u'}) && CharsInRange(n, 6, 33, {' ', 'a', 'b', 'e', 'i', 'l', 'm', 'n', 'o', 'p', 'r', 't'})
    requires n[7] == 'b' && CharsInRange(n, 0, 7, {' ', 'a', 'i', 'k', 'n', 'u'}) && CharsInRange(n, 8, 33, {' ', 'a', 'e', 'i', 'l', 'm', 'n', 'o', 'p', 'r', 't'})
    requires OccursAt(n, "akanu ibiam", 0)
    ensures forall j :: 0 <= j < 3 ==> !Hits(n, AirportRules[j])
    ensures Hits(n, AirportRules[3])
  {
    AkanuIbiamMisses(n);
    AkanuIbiamAvoidsMurtala(n);
    AkanuIbiamAvoidsMuritala(n);
    AkanuIbiamAvoidsAminuKano(n);
    NoRuleBefore3(n);
    RuleAkanuIbiam();
    ContainsAt(n, "akanu ibiam", 0);
  }

  lemma SamMbakweChars(c: string)
    requires c == "Sam Mbakwe International Cargo Airport"
    ensures Stripped(c) && |Lower(c)| == 38 && CharsIn(Lower(c), {' ', 'a', 'b', 'c', 'e', 'g', 'i', 'k', 'l', 'm', 'n', 'o', 'p', 'r', 's', 't', 'w'})
  {
  }

  lemma SamMbakweOccurs(c: string)
    requires c == "Sam Mbakwe International Cargo Airport"
    ensures OccursAt(Lower(c), "sam mbakwe", 0)
  {
    OccursByIndex(Lower(c), "sam mbakwe", 0);
  }

  lemma SamMbakweFacts(c: string)
    requires c == "Sam Mbakwe International Cargo Airport"
    ensures Stripped(c)
    ensures |Lower(c)| == 38 && CharsIn(Lower(c), {' ', 'a', 'b', 'c', 'e', 'g', 'i', 'k', 'l', 'm', 'n', 'o', 'p', 'r', 's', 't', 'w'})
    ensures OccursAt(Lower(c), "sam mbakwe", 0)
  {
    SamMbakweChars(c);
    SamMbakweOccurs(c);
  }

  lemma SamMbakweMisses1(n: string)
    requires |n| == 38 && CharsIn(n, {' ', 'a', 'b', 'c', 'e', 'g', 'i', 'k', 'l', 'm', 'n', 'o', 'p', 'r', 's', 't', 'w'})
    ensures !Contains(n, "murtala") && !Contains(n, "muritala") && !Contains(n, "nnamdi") && !Contains(n, "azikiwe")
  {
    AbsentChar(n, {' ', 'a', 'b', 'c', 'e', 'g', 'i', 'k', 'l', 'm', 'n', 'o', 'p', 'r', 's', 't', 'w'}, "murtala", 'u');
    AbsentChar(n, {' ', 'a', 'b', 'c', 'e', 'g', 'i', 'k', 'l', 'm', 'n', 'o', 'p', 'r', 's', 't', 'w'}, "muritala", 'u');
    AbsentChar(n, {' ', 'a', 'b', 'c', 'e', 'g', 'i', 'k', 'l', 'm', 'n', 'o', 'p', 'r', 's', 't', 'w'}, "nnamdi", 'd');
    AbsentChar(n, {' ', 'a', 'b', 'c', 'e', 'g', 'i', 'k', 'l', 'm', 'n', 'o', 'p', 'r', 's', 't', 'w'}, "azikiwe", 'z');
  }

  lemma SamMbakweMisses2(n: string)
    requires |n| == 38 && CharsIn(n, {' ', 'a', 'b', 'c', 'e', 'g', 'i', 'k', 'l', 'm', 'n', 'o', 'p', 'r', 's', 't', 'w'})
    ensures !Contains(n, "aminu kano") && !Contains(n, "akanu ibiam") && !Contains(n, "enugu")
  {
    AbsentChar(n, {' ', 'a', 'b', 'c', 'e', 'g', 'i', 'k', 'l', 'm', 'n', 'o', 'p', 'r', 's', 't', 'w'}, "aminu kano", 'u');
    AbsentChar(n, {' ', 'a', 'b', 'c', 'e', 'g', 'i', 'k', 'l', 'm', 'n', 'o', 'p', 'r', 's', 't', 'w'}, "akanu ibiam", 'u');
    AbsentChar(n, {' ', 'a', 'b', 'c', 'e', 'g', 'i', 'k', 'l', 'm', 'n', 'o', 'p', 'r', 's', 't', 'w'}, "enugu", 'u');
  }

  /** The canonical "Sam Mbakwe International Cargo Airport", lower-cased, misses every earlier rule and hits its own. */
  lemma SamMbakweHits(n: string)
    requires |n| == 38 && CharsIn(n, {' ', 'a', 'b', 'c', 'e', 'g', 'i', 'k', 'l', 'm', 'n', 'o', 'p', 'r', 's', 't', 'w'})
    requires OccursAt(n, "sam mbakwe", 0)
    ensures forall j :: 0 <= j < 4 ==> !Hits(n, AirportRules[j])
    ensures Hits(n, AirportRules[4])
  {
    SamMbakweMisses1(n);
    SamMbakweMisses2(n);
    NoRuleBefore4(n);
    RuleSamMbakwe();
    ContainsAt(n, "sam mbakwe", 0);
  }

  lemma MargaretEkpoChars(c: string)
    requires c == "Margaret Ekpo International Airport"
    ensures Stripped(c) && |Lower(c)| == 35 && CharsIn(Lower(c), {' ', 'a', 'e', 'g', 'i', 'k', 'l', 'm', 'n', 'o', 'p', 'r', 't'})
  {
  }

  lemma MargaretEkpoOccurs(c: string)
    requires c == "Margaret Ekpo International Airport"
    ensures OccursAt(Lower(c), "margaret ekpo", 0)
  {
    OccursByIndex(Lower(c), "margaret ekpo", 0);
  }

  lemma MargaretEkpoFacts(c: string)
    requires c == "Margaret Ekpo International Airport"
    ensures Stripped(c)
    ensures |Lower(c)| == 35 && CharsIn(Lower(c), {' ', 'a', 'e', 'g', 'i', 'k', 'l', 'm', 'n', 'o', 'p', 'r', 't'})
    ensures OccursAt(Lower(c), "margaret ekpo", 0)
  {
    MargaretEkpoChars(c);
    MargaretEkpoOccurs(c);
  }

  lemma MargaretEkpoMisses1(n: string)
    requires |n| == 35 && CharsIn(n, {' ', 'a', 'e', 'g', 'i', 'k', 'l', 'm', 'n', 'o', 'p', 'r', 't'})
    ensures !Contains(n, "murtala") && !Contains(n, "muritala") && !Contains(n, "nnamdi") && !Contains(n, "azikiwe")
  {
    AbsentChar(n, {' ', 'a', 'e', 'g', 'i', 'k', 'l', 'm', 'n', 'o', 'p', 'r', 't'}, "murtala", 'u');
    AbsentChar(n, {' ', 'a', 'e', 'g', 'i', 'k', 'l', 'm', 'n', 'o', 'p', 'r', 't'}, "muritala", 'u');
    AbsentChar(n, {' ', 'a', 'e', 'g', 'i', 'k', 'l', 'm', 'n', 'o', 'p', 'r', 't'}, "nnamdi", 'd');
    AbsentChar(n, {' ', 'a', 'e', 'g', 'i', 'k', 'l', 'm', 'n', 'o', 'p', 'r', 't'}, "azikiwe", 'z');
  }

  lemma MargaretEkpoMisses2(n: string)
    requires |n| == 35 && CharsIn(n, {' ', 'a', 'e', 'g', 'i', 'k', 'l', 'm', 'n', 'o', 'p', 'r', 't'})
    ensures !Contains(n, "aminu kano") && !Contains(n, "akanu ibiam") && !Contains(n, "enugu") && !Contains(n, "sam mbakwe")
  {
    AbsentChar(n, {' ', 'a', 'e', 'g', 'i', 'k', 'l', 'm', 'n', 'o', 'p', 'r', 't'}, "aminu kano", 'u');
    AbsentChar(n, {' ', 'a', 'e', 'g', 'i', 'k', 'l', 'm', 'n', 'o', 'p', 'r', 't'}, "akanu ibiam", 'u');
    AbsentChar(n, {' ', 'a', 'e', 'g', 'i', 'k', 'l', 'm', 'n', 'o', 'p', 'r', 't'}, "enugu", 'u');
    AbsentChar(n, {' ', 'a', 'e', 'g', 'i', 'k', 'l', 'm', 'n', 'o', 'p', 'r', 't'}, "sam mbakwe", 's');
  }

  lemma MargaretEkpoMisses3(n: string)
    requires |n| == 35 && CharsIn(n, {' ', 'a', 'e', 'g', 'i', 'k', 'l', 'm', 'n', 'o', 'p', 'r', 't'})
    ensures !Contains(n, "owerri")
  {
    AbsentChar(n, {' ', 'a', 'e', 'g', 'i', 'k', 'l', 'm', 'n', 'o', 'p', 'r', 't'}, "owerri", 'w');
  }

  /** The canonical "Margaret Ekpo International Airport", lower-cased, misses every earlier rule and hits its own. */
  lemma MargaretEkpoHits(n: string)
    requires |n| == 35 && CharsIn(n, {' ', 'a', 'e', 'g', 'i', 'k', 'l', 'm', 'n', 'o', 'p', 'r', 't'})
    requires OccursAt(n, "margaret ekpo", 0)
    ensures forall j :: 0 <= j < 5 ==> !Hits(n, AirportRules[j])
    ensures Hits(n, AirportRules[5])
  {
    MargaretEkpoMisses1(n);
    MargaretEkpoMisses2(n);
    MargaretEkpoMisses3(n);
    NoRuleBefore5(n);
    RuleMargaretEkpo();
    ContainsAt(n, "margaret ekpo", 0);
  }

  lemma PortHarcourtChars(c: string)
    requires c == "Port Harcourt International Airport"
    ensures Stripped(c) && |Lower(c)| == 35 && CharsIn(Lower(c), {' ', 'a', 'c', 'e', 'h', 'i', 'l', 'n', 'o', 'p', 'r', 't', 'u'})
  {
  }

  lemma PortHarcourtOccurs(c: string)
    requires c == "Port Harcourt International Airport"
    ensures OccursAt(Lower(c), "port harcourt", 0)
  {
    OccursByIndex(Lower(c), "port harcourt", 0);
  }

  lemma PortHarcourtFacts(c: string)
    requires c == "Port Harcourt International Airport"
    ensures Stripped(c)
    ensures |Lower(c)| == 35 && CharsIn(Lower(c), {' ', 'a', 'c', 'e', 'h', 'i', 'l', 'n', 'o', 'p', 'r', 't', 'u'})
    ensures OccursAt(Lower(c), "port harcourt", 0)
  {
    PortHarcourtChars(c);
    PortHarcourtOccurs(c);
  }

  lemma PortHarcourtMisses1(n: string)
    requires |n| == 35 && CharsIn(n, {' ', 'a', 'c', 'e', 'h', 'i', 'l', 'n', 'o', 'p', 'r', 't', 'u'})
    ensures !Contains(n, "murtala") && !Contains(n, "muritala") && !Contains(n, "nnamdi") && !Contains(n, "azikiwe")
  {
    AbsentChar(n, {' ', 'a', 'c', 'e', 'h', 'i', 'l', 'n', 'o', 'p', 'r', 't', 'u'}, "murtala", 'm');
    AbsentChar(n, {' ', 'a', 'c', 'e', 'h', 'i', 'l', 'n', 'o', 'p', 'r', 't', 'u'}, "muritala", 'm');
    AbsentChar(n, {' ', 'a', 'c', 'e', 'h', 'i', 'l', 'n', 'o', 'p', 'r', 't', 'u'}, "nnamdi", 'm');
    AbsentChar(n, {' ', 'a', 'c', 'e', 'h', 'i', 'l', 'n', 'o', 'p', 'r', 't', 'u'}, "azikiwe", 'z');
  }

  lemma PortHarcourtMisses2(n: string)
    requires |n| == 35 && CharsIn(n, {' ', 'a', 'c', 'e', 'h', 'i', 'l', 'n', 'o', 'p', 'r', 't', 'u'})
    ensures !Contains(n, "aminu kano") && !Contains(n, "akanu ibiam") && !Contains(n, "enugu") && !Contains(n, "sam mbakwe")
  {
    AbsentChar(n, {' ', 'a', 'c', 'e', 'h', 'i', 'l', 'n', 'o', 'p', 'r', 't', 'u'}, "aminu kano", 'm');
    AbsentChar(n, {' ', 'a', 'c', 'e', 'h', 'i', 'l', 'n', 'o', 'p', 'r', 't', 'u'}, "akanu ibiam", 'k');
    AbsentChar(n, {' ', 'a', 'c', 'e', 'h', 'i', 'l', 'n', 'o', 'p', 'r', 't', 'u'}, "enugu", 'g');
    AbsentChar(n, {' ', 'a', 'c', 'e', 'h', 'i', 'l', 'n', 'o', 'p', 'r', 't', 'u'}, "sam mbakwe", 's');
  }

  lemma PortHarcourtMisses3(n: string)
    requires |n| == 35 && CharsIn(n, {' ', 'a', 'c', 'e', 'h', 'i', 'l', 'n', 'o', 'p', 'r', 't', 'u'})
    ensures !Contains(n, "owerri") && !Contains(n, "margaret ekpo") && !Contains(n, "calabar")
  {
    AbsentChar(n, {' ', 'a', 'c', 'e', 'h', 'i', 'l', 'n', 'o', 'p', 'r', 't', 'u'}, "owerri", 'w');
    AbsentChar(n, {' ', 'a', 'c', 'e', 'h', 'i', 'l', 'n', 'o', 'p', 'r', 't', 'u'}, "margaret ekpo", 'm');
    AbsentChar(n, {' ', 'a', 'c', 'e', 'h', 'i', 'l', 'n', 'o', 'p', 'r', 't', 'u'}, "calabar", 'b');
  }

  /** The canonical "Port Harcourt International Airport", lower-cased, misses every earlier rule and hits its own. */
  lemma PortHarcourtHits(n: string)
    requires |n| == 35 && CharsIn(n, {' ', 'a', 'c', 'e', 'h', 'i', 'l', 'n', 'o', 'p', 'r', 't', 'u'})
    requires OccursAt(n, "port harcourt", 0)
    ensures forall j :: 0 <= j < 6 ==> !Hits(n, AirportRules[j])
    ensures Hits(n, AirportRules[6])
  {
    PortHarcourtMisses1(n);
    PortHarcourtMisses2(n);
    PortHarcourtMisses3(n);
    NoRuleBefore6(n);
    RulePortHarcourt();
    ContainsAt(n, "port harcourt", 0);
  }

  lemma YakubuGowonChars(c: string)
    requires c == "Yakubu Gowon Airport"
    ensures Stripped(c) && |Lower(c)| == 20 && CharsIn(Lower(c), {' ', 'a', 'b', 'g', 'i', 'k', 'n', 'o', 'p', 'r', 't', 'u', 'w', 'y'})
  {
  }

  lemma YakubuGowonOccurs(c: string)
    requires c == "Yakubu Gowon Airport"
    ensures OccursAt(Lower(c), "yakubu gowon", 0)
  {
    OccursByIndex(Lower(c), "yakubu gowon", 0);
  }

  lemma YakubuGowonFacts(c: string)
    requires c == "Yakubu Gowon Airport"
    ensures Stripped(c)
    ensures |Lower(c)| == 20 && CharsIn(Lower(c), {' ', 'a', 'b', 'g', 'i', 'k', 'n', 'o', 'p', 'r', 't', 'u', 'w', 'y'})
    ensures OccursAt(Lower(c), "yakubu gowon", 0)
  {
    YakubuGowonChars(c);
    YakubuGowonOccurs(c);
  }

  lemma YakubuGowonMisses1(n: string)
    requires |n| == 20 && CharsIn(n, {' ', 'a', 'b', 'g', 'i', 'k', 'n', 'o', 'p', 'r', 't', 'u', 'w', 'y'})
    ensures !Contains(n, "murtala") && !Contains(n, "muritala") && !Contains(n, "nnamdi") && !Contains(n, "azikiwe")
  {
    AbsentChar(n, {' ', 'a', 'b', 'g', 'i', 'k', 'n', 'o', 'p', 'r', 't', 'u', 'w', 'y'}, "murtala", 'm');
    AbsentChar(n, {' ', 'a', 'b', 'g', 'i', 'k', 'n', 'o', 'p', 'r', 't', 'u', 'w', 'y'}, "muritala", 'm');
    AbsentChar(n, {' ', 'a', 'b', 'g', 'i', 'k', 'n', 'o', 'p', 'r', 't', 'u', 'w', 'y'}, "nnamdi", 'm');
    AbsentChar(n, {' ', 'a', 'b', 'g', 'i', 'k', 'n', 'o', 'p', 'r', 't', 'u', 'w', 'y'}, "azikiwe", 'z');
  }

  lemma YakubuGowonMisses2(n: string)
    requires |n| == 20 && CharsIn(n, {' ', 'a', 'b', 'g', 'i', 'k', 'n', 'o', 'p', 'r', 't', 'u', 'w', 'y'})
    ensures !Contains(n, "aminu kano") && !Contains(n, "akanu ibiam") && !Contains(n, "enugu") && !Contains(n, "sam mbakwe")
  {
    AbsentChar(n, {' ', 'a', 'b', 'g', 'i', 'k', 'n', 'o', 'p', 'r', 't', 'u', 'w', 'y'}, "aminu kano", 'm');
    AbsentChar(n, {' ', 'a', 'b', 'g', 'i', 'k', 'n', 'o', 'p', 'r', 't', 'u', 'w', 'y'}, "akanu ibiam", 'm');
    AbsentChar(n, {' ', 'a', 'b', 'g', 'i', 'k', 'n', 'o', 'p', 'r', 't', 'u', 'w', 'y'}, "enugu", 'e');
    AbsentChar(n, {' ', 'a', 'b', 'g', 'i', 'k', 'n', 'o', 'p', 'r', 't', 'u', 'w', 'y'}, "sam mbakwe", 's');
  }

  lemma YakubuGowonMisses3(n: string)
    requires |n| == 20 && CharsIn(n, {' ', 'a', 'b', 'g', 'i', 'k', 'n', 'o', 'p', 'r', 't', 'u', 'w', 'y'})
    ensures !Contains(n, "owerri") && !Contains(n, "margaret ekpo") && !Contains(n, "calabar") && !Contains(n, "port harcourt")
  {
    AbsentChar(n, {' ', 'a', 'b', 'g', 'i', 'k', 'n', 'o', 'p', 'r', 't', 'u', 'w', 'y'}, "owerri", 'e');
    AbsentChar(n, {' ', 'a', 'b', 'g', 'i', 'k', 'n', 'o', 'p', 'r', 't', 'u', 'w', 'y'}, "margaret ekpo", 'm');
    AbsentChar(n, {' ', 'a', 'b', 'g', 'i', 'k', 'n', 'o', 'p', 'r', 't', 'u', 'w', 'y'}, "calabar", 'c');
    AbsentChar(n, {' ', 'a', 'b', 'g', 'i', 'k', 'n', 'o', 'p', 'r', 't', 'u', 'w', 'y'}, "port harcourt", 'h');
  }

  /** The canonical "Yakubu Gowon Airport", lower-cased, misses every earlier rule and hits its own. */
  lemma YakubuGowonHits(n: string)
    requires |n| == 20 && CharsIn(n, {' ', 'a', 'b', 'g', 'i', 'k', 'n', 'o', 'p', 'r', 't', 'u', 'w', 'y'})
    requires OccursAt(n, "yakubu gowon", 0)
    ensures forall j :: 0 <= j < 7 ==> !Hits(n, AirportRules[j])
    ensures Hits(n, AirportRules[7])
  {
    YakubuGowonMisses1(n);
    YakubuGowonMisses2(n);
    YakubuGowonMisses3(n);
    NoRuleBefore7(n);
    RuleYakubuGowon();
    ContainsAt(n, "yakubu gowon", 0);
  }

  lemma SadiqAbubakarChars(c: string)
    requires c == "Sadiq Abubakar III International Airport"
    ensures Stripped(c) && |Lower(c)| == 40 && CharsIn(Lower(c), {' ', 'a', 'b', 'd', 'e', 'i', 'k', 'l', 'n', 'o', 'p', 'q', 'r', 's', 't', 'u'})
  {
  }

  lemma SadiqAbubakarOccurs(c: string)
    requires c == "Sadiq Abubakar III International Airport"
    ensures OccursAt(Lower(c), "sadiq abubakar", 0)
  {
    OccursByIndex(Lower(c), "sadiq abubakar", 0);
  }

  lemma SadiqAbubakarFacts(c: string)
    requires c == "Sadiq Abubakar III International Airport"
    ensures Stripped(c)
    ensures |Lower(c)| == 40 && CharsIn(Lower(c), {' ', 'a', 'b', 'd', 'e', 'i', 'k', 'l', 'n', 'o', 'p', 'q', 'r', 's', 't', 'u'})
    ensures OccursAt(Lower(c), "sadiq abubakar", 0)
  {
    SadiqAbubakarChars(c);
    SadiqAbubakarOccurs(c);
  }

  lemma SadiqAbubakarMisses1(n: string)
    requires |n| == 40 && CharsIn(n, {' ', 'a', 'b', 'd', 'e', 'i', 'k', 'l', 'n', 'o', 'p', 'q', 'r', 's', 't', 'u'})
    ensures !Contains(n, "murtala") && !Contains(n, "muritala") && !Contains(n, "nnamdi") && !Contains(n, "azikiwe")
  {
    AbsentChar(n, {' ', 'a', 'b', 'd', 'e', 'i', 'k', 'l', 'n', 'o', 'p', 'q', 'r', 's', 't', 'u'}, "murtala", 'm');
    AbsentChar(n, {' ', 'a', 'b', 'd', 'e', 'i', 'k', 'l', 'n', 'o', 'p', 'q', 'r', 's', 't', 'u'}, "muritala", 'm');
    AbsentChar(n, {' ', 'a', 'b', 'd', 'e', 'i', 'k', 'l', 'n', 'o', 'p', 'q', 'r', 's', 't', 'u'}, "nnamdi", 'm');
    AbsentChar(n, {' ', 'a', 'b', 'd', 'e', 'i', 'k', 'l', 'n', 'o', 'p', 'q', 'r', 's', 't', 'u'}, "azikiwe", 'z');
  }

  lemma SadiqAbubakarMisses2(n: string)
    requires |n| == 40 && CharsIn(n, {' ', 'a', 'b', 'd', 'e', 'i', 'k', 'l', 'n', 'o', 'p', 'q', 'r', 's', 't', 'u'})
    ensures !Contains(n, "aminu kano") && !Contains(n, "akanu ibiam") && !Contains(n, "enugu") && !Contains(n, "sam mbakwe")
  {
    AbsentChar(n, {' ', 'a', 'b', 'd', 'e', 'i', 'k', 'l', 'n', 'o', 'p', 'q', 'r', 's', 't', 'u'}, "aminu kano", 'm');
    AbsentChar(n, {' ', 'a', 'b', 'd', 'e', 'i', 'k', 'l', 'n', 'o', 'p', 'q', 'r', 's', 't', 'u'}, "akanu ibiam", 'm');
    AbsentChar(n, {' ', 'a', 'b', 'd', 'e', 'i', 'k', 'l', 'n', 'o', 'p', 'q', 'r', 's', 't', 'u'}, "enugu", 'g');
    AbsentChar(n, {' ', 'a', 'b', 'd', 'e', 'i', 'k', 'l', 'n', 'o', 'p', 'q', 'r', 's', 't', 'u'}, "sam mbakwe", 'm');
  }

  lemma SadiqAbubakarMisses3(n: string)
    requires |n| == 40 && CharsIn(n, {' ', 'a', 'b', 'd', 'e', 'i', 'k', 'l', 'n', 'o', 'p', 'q', 'r', 's', 't', 'u'})
    ensures !Contains(n, "owerri") && !Contains(n, "margaret ekpo") && !Contains(n, "calabar") && !Contains(n, "port harcourt")
  {
    AbsentChar(n, {' ', 'a', 'b', 'd', 'e', 'i', 'k', 'l', 'n', 'o', 'p', 'q', 'r', 's', 't', 'u'}, "owerri", 'w');
    AbsentChar(n, {' ', 'a', 'b', 'd', 'e', 'i', 'k', 'l', 'n', 'o', 'p', 'q', 'r', 's', 't', 'u'}, "margaret ekpo", 'm');
    AbsentChar(n, {' ', 'a', 'b', 'd', 'e', 'i', 'k', 'l', 'n', 'o', 'p', 'q', 'r', 's', 't', 'u'}, "calabar", 'c');
    AbsentChar(n, {' ', 'a', 'b', 'd', 'e', 'i', 'k', 'l', 'n', 'o', 'p', 'q', 'r', 's', 't', 'u'}, "port harcourt", 'h');
  }

  lemma SadiqAbubakarMisses4(n: string)
    requires |n| == 40 && CharsIn(n, {' ', 'a', 'b', 'd', 'e', 'i', 'k', 'l', 'n', 'o', 'p', 'q', 'r', 's', 't', 'u'})
    ensures !Contains(n, "yakubu gowon") && !Contains(n, "jos")
  {
    AbsentChar(n, {' ', 'a', 'b', 'd', 'e', 'i', 'k', 'l', 'n', 'o', 'p', 'q', 'r', 's', 't', 'u'}, "yakubu gowon", 'y');
    AbsentChar(n, {' ', 'a', 'b', 'd', 'e', 'i', 'k', 'l', 'n', 'o', 'p', 'q', 'r', 's', 't', 'u'}, "jos", 'j');
  }

  /** The canonical "Sadiq Abubakar III International Airport", lower-cased, misses every earlier rule and hits its own. */
  lemma SadiqAbubakarHits(n: string)
    requires |n| == 40 && CharsIn(n, {' ', 'a', 'b', 'd', 'e', 'i', 'k', 'l', 'n', 'o', 'p', 'q', 'r', 's', 't', 'u'})
    requires OccursAt(n, "sadiq abubakar", 0)
    ensures forall j :: 0 <= j < 8 ==> !Hits(n, AirportRules[j])
    ensures Hits(n, AirportRules[8])
  {
    SadiqAbubakarMisses1(n);
    SadiqAbubakarMisses2(n);
    SadiqAbubakarMisses3(n);
    SadiqAbubakarMisses4(n);
    NoRuleBefore8(n);
    RuleSadiqAbubakar();
    ContainsAt(n, "sadiq abubakar", 0);
  }

  lemma IlorinChars(c: string)
    requires c == "Ilorin Airport"
    ensures Stripped(c) && |Lower(c)| == 14 && CharsIn(Lower(c), {' ', 'a', 'i', 'l', 'n', 'o', 'p', 'r', 't'})
  {
  }

  lemma IlorinOccurs(c: string)
    requires c == "Ilorin Airport"
    ensures OccursAt(Lower(c), "ilorin", 0)
  {
    OccursByIndex(Lower(c), "ilorin", 0);
  }

  lemma IlorinFacts(c: string)
    requires c == "Ilorin Airport"
    ensures Stripped(c)
    ensures |Lower(c)| == 14 && CharsIn(Lower(c), {' ', 'a', 'i', 'l', 'n', 'o', 'p', 'r', 't'})
    ensures OccursAt(Lower(c), "ilorin", 0)
  {
    IlorinChars(c);
    IlorinOccurs(c);
  }

  lemma IlorinMisses1(n: string)
    requires |n| == 14 && CharsIn(n, {' ', 'a', 'i', 'l', 'n', 'o', 'p', 'r', 't'})
    ensures !Contains(n, "murtala") && !Contains(n, "muritala") && !Contains(n, "nnamdi") && !Contains(n, "azikiwe")
  {
    AbsentChar(n, {' ', 'a', 'i', 'l', 'n', 'o', 'p', 'r', 't'}, "murtala", 'm');
    AbsentChar(n, {' ', 'a', 'i', 'l', 'n', 'o', 'p', 'r', 't'}, "muritala", 'm');
    AbsentChar(n, {' ', 'a', 'i', 'l', 'n', 'o', 'p', 'r', 't'}, "nnamdi", 'm');
    AbsentChar(n, {' ', 'a', 'i', 'l', 'n', 'o', 'p', 'r', 't'}, "azikiwe", 'z');
  }

  lemma IlorinMisses2(n: string)
    requires |n| == 14 && CharsIn(n, {' ', 'a', 'i', 'l', 'n', 'o', 'p', 'r', 't'})
    ensures !Contains(n, "aminu kano") && !Contains(n, "akanu ibiam") && !Contains(n, "enugu") && !Contains(n, "sam mbakwe")
  {
    AbsentChar(n, {' ', 'a', 'i', 'l', 'n', 'o', 'p', 'r', 't'}, "aminu kano", 'm');
    AbsentChar(n, {' ', 'a', 'i', 'l', 'n', 'o', 'p', 'r', 't'}, "akanu ibiam", 'k');
    AbsentChar(n, {' ', 'a', 'i', 'l', 'n', 'o', 'p', 'r', 't'}, "enugu", 'e');
    AbsentChar(n, {' ', 'a', 'i', 'l', 'n', 'o', 'p', 'r', 't'}, "sam mbakwe", 's');
  }

  lemma IlorinMisses3(n: string)
    requires |n| == 14 && CharsIn(n, {' ', 'a', 'i', 'l', 'n', 'o', 'p', 'r', 't'})
    ensures !Contains(n, "owerri") && !Contains(n, "margaret ekpo") && !Contains(n, "calabar") && !Contains(n, "port harcourt")
  {
    AbsentChar(n, {' ', 'a', 'i', 'l', 'n', 'o', 'p', 'r', 't'}, "owerri", 'w');
    AbsentChar(n, {' ', 'a', 'i', 'l', 'n', 'o', 'p', 'r', 't'}, "margaret ekpo", 'm');
    AbsentChar(n, {' ', 'a', 'i', 'l', 'n', 'o', 'p', 'r', 't'}, "calabar", 'c');
    AbsentChar(n, {' ', 'a', 'i', 'l', 'n', 'o', 'p', 'r', 't'}, "port harcourt", 'h');
  }

  lemma IlorinMisses4(n: string)
    requires |n| == 14 && CharsIn(n, {' ', 'a', 'i', 'l', 'n', 'o', 'p', 'r', 't'})
    ensures !Contains(n, "yakubu gowon") && !Contains(n, "jos") && !Contains(n, "sadiq abubakar") && !Contains(n, "sultan saddik")
  {
    AbsentChar(n, {' ', 'a', 'i', 'l', 'n', 'o', 'p', 'r', 't'}, "yakubu gowon", 'y');
    AbsentChar(n, {' ', 'a', 'i', 'l', 'n', 'o', 'p', 'r', 't'}, "jos", 'j');
    AbsentChar(n, {' ', 'a', 'i', 'l', 'n', 'o', 'p', 'r', 't'}, "sadiq abubakar", 's');
    AbsentChar(n, {' ', 'a', 'i', 'l', 'n', 'o', 'p', 'r', 't'}, "sultan saddik", 's');
  }

  /** The canonical "Ilorin Airport", lower-cased, misses every earlier rule and hits its own. */
  lemma IlorinHits(n: string)
    requires |n| == 14 && CharsIn(n, {' ', 'a', 'i', 'l', 'n', 'o', 'p', 'r', 't'})
    requires OccursAt(n, "ilorin", 0)
    ensures forall j :: 0 <= j < 9 ==> !Hits(n, AirportRules[j])
    ensures Hits(n, AirportRules[9])
  {
    IlorinMisses1(n);
    IlorinMisses2(n);
    IlorinMisses3(n);
    IlorinMisses4(n);
    NoRuleBefore9(n);
    RuleIlorin();
    ContainsAt(n, "ilorin", 0);
  }

  lemma KadunaChars(c: string)
    requires c == "Kaduna International Airport"
    ensures Stripped(c) && |Lower(c)| == 28 && CharsIn(Lower(c), {' ', 'a', 'd', 'e', 'i', 'k', 'l', 'n', 'o', 'p', 'r', 't', 'u'})
  {
  }

  lemma KadunaSplit18(c: string)
    requires c == "Kaduna International Airport"
    ensures Lower(c)[18] == 'a' && CharsInRange(Lower(c), 0, 18, {' ', 'a', 'd', 'e', 'i', 'k', 'n', 'o', 'r', 't', 'u'}) && CharsInRange(Lower(c), 19, 28, {' ', 'a', 'i', 'l', 'o', 'p', 'r', 't'})
  {
  }

  lemma KadunaOccurs(c: string)
    requires c == "Kaduna International Airport"
    ensures OccursAt(Lower(c), "kaduna", 0)
  {
    OccursByIndex(Lower(c), "kaduna", 0);
  }

  lemma KadunaFacts(c: string)
    requires c == "Kaduna International Airport"
    ensures Stripped(c)
    ensures |Lower(c)| == 28 && CharsIn(Lower(c), {' ', 'a', 'd', 'e', 'i', 'k', 'l', 'n', 'o', 'p', 'r', 't', 'u'})
    ensures Lower(c)[18] == 'a' && CharsInRange(Lower(c), 0, 18, {' ', 'a', 'd', 'e', 'i', 'k', 'n', 'o', 'r', 't', 'u'}) && CharsInRange(Lower(c), 19, 28, {' ', 'a', 'i', 'l', 'o', 'p', 'r', 't'})
    ensures OccursAt(Lower(c), "kaduna", 0)
  {
    KadunaChars(c);
    KadunaSplit18(c);
    KadunaOccurs(c);
  }

  lemma KadunaMisses1(n: string)
    requires |n| == 28 && CharsIn(n, {' ', 'a', 'd', 'e', 'i', 'k', 'l', 'n', 'o', 'p', 'r', 't', 'u'})
    ensures !Contains(n, "murtala") && !Contains(n, "muritala") && !Contains(n, "nnamdi") && !Contains(n, "azikiwe")
  {
    AbsentChar(n, {' ', 'a', 'd', 'e', 'i', 'k', 'l', 'n', 'o', 'p', 'r', 't', 'u'}, "murtala", 'm');
    AbsentChar(n, {' ', 'a', 'd', 'e', 'i', 'k', 'l', 'n', 'o', 'p', 'r', 't', 'u'}, "muritala", 'm');
    AbsentChar(n, {' ', 'a', 'd', 'e', 'i', 'k', 'l', 'n', 'o', 'p', 'r', 't', 'u'}, "nnamdi", 'm');
    AbsentChar(n, {' ', 'a', 'd', 'e', 'i', 'k', 'l', 'n', 'o', 'p', 'r', 't', 'u'}, "azikiwe", 'z');
  }

  lemma KadunaMisses2(n: string)
    requires |n| == 28 && CharsIn(n, {' ', 'a', 'd', 'e', 'i', 'k', 'l', 'n', 'o', 'p', 'r', 't', 'u'})
    ensures !Contains(n, "aminu kano") && !Contains(n, "akanu ibiam") && !Contains(n, "enugu") && !Contains(n, "sam mbakwe")
  {
    AbsentChar(n, {' ', 'a', 'd', 'e', 'i', 'k', 'l', 'n', 'o', 'p', 'r', 't', 'u'}, "aminu kano", 'm');
    AbsentChar(n, {' ', 'a', 'd', 'e', 'i', 'k', 'l', 'n', 'o', 'p', 'r', 't', 'u'}, "akanu ibiam", 'b');
    AbsentChar(n, {' ', 'a', 'd', 'e', 'i', 'k', 'l', 'n', 'o', 'p', 'r', 't', 'u'}, "enugu", 'g');
    AbsentChar(n, {' ', 'a', 'd', 'e', 'i', 'k', 'l', 'n', 'o', 'p', 'r', 't', 'u'}, "sam mbakwe", 's');
  }

  lemma KadunaMisses3(n: string)
    requires |n| == 28 && CharsIn(n, {' ', 'a', 'd', 'e', 'i', 'k', 'l', 'n', 'o', 'p', 'r', 't', 'u'})
    ensures !Contains(n, "owerri") && !Contains(n, "margaret ekpo") && !Contains(n, "calabar") && !Contains(n, "port harcourt")
  {
    AbsentChar(n, {' ', 'a', 'd', 'e', 'i', 'k', 'l', 'n', 'o', 'p', 'r', 't', 'u'}, "owerri", 'w');
    AbsentChar(n, {' ', 'a', 'd', 'e', 'i', 'k', 'l', 'n', 'o', 'p', 'r', 't', 'u'}, "margaret ekpo", 'm');
    AbsentChar(n, {' ', 'a', 'd', 'e', 'i', 'k', 'l', 'n', 'o', 'p', 'r', 't', 'u'}, "calabar", 'c');
    AbsentChar(n, {' ', 'a', 'd', 'e', 'i', 'k', 'l', 'n', 'o', 'p', 'r', 't', 'u'}, "port harcourt", 'h');
  }

  lemma KadunaMisses4(n: string)
    requires |n| == 28 && CharsIn(n, {' ', 'a', 'd', 'e', 'i', 'k', 'l', 'n', 'o', 'p', 'r', 't', 'u'})
    ensures !Contains(n, "yakubu gowon") && !Contains(n, "jos") && !Contains(n, "sadiq abubakar") && !Contains(n, "sultan saddik")
  {
    AbsentChar(n, {' ', 'a', 'd', 'e', 'i', 'k', 'l', 'n', 'o', 'p', 'r', 't', 'u'}, "yakubu gowon", 'y');
    AbsentChar(n, {' ', 'a', 'd', 'e', 'i', 'k', 'l', 'n', 'o', 'p', 'r', 't', 'u'}, "jos", 'j');
    AbsentChar(n, {' ', 'a', 'd', 'e', 'i', 'k', 'l', 'n', 'o', 'p', 'r', 't', 'u'}, "sadiq abubakar", 's');
    AbsentChar(n, {' ', 'a', 'd', 'e', 'i', 'k', 'l', 'n', 'o', 'p', 'r', 't', 'u'}, "sultan saddik", 's');
  }

  lemma KadunaMisses5(n: string)
    requires |n| == 28 && CharsIn(n, {' ', 'a', 'd', 'e', 'i', 'k', 'l', 'n', 'o', 'p', 'r', 't', 'u'})
    ensures !Contains(n, "tunde idiagbon")
  {
    AbsentChar(n, {' ', 'a', 'd', 'e', 'i', 'k', 'l', 'n', 'o', 'p', 'r', 't', 'u'}, "tunde idiagbon", 'g');
  }

  lemma KadunaAvoidsIlorin(n: string)
    requires |n| == 28 && n[18] == 'a' && CharsInRange(n, 0, 18, {' ', 'a', 'd', 'e', 'i', 'k', 'n', 'o', 'r', 't', 'u'}) && CharsInRange(n, 19, 28, {' ', 'a', 'i', 'l', 'o', 'p', 'r', 't'})
    ensures !Contains(n, "ilorin")
  {
    CharsInPrefix(n, 18, {' ', 'a', 'd', 'e', 'i', 'k', 'n', 'o', 'r', 't', 'u'});
    CharsInSuffix(n, 19, {' ', 'a', 'i', 'l', 'o', 'p', 'r', 't'});
    AbsentChar(n[..18], {' ', 'a', 'd', 'e', 'i', 'k', 'n', 'o', 'r', 't', 'u'}, "ilorin", 'l');
    AbsentChar(n[18 + 1..], {' ', 'a', 'i', 'l', 'o', 'p', 'r', 't'}, "ilorin", 'n');
    NotAcrossAt(n, 18, "ilorin");
  }

  /** The canonical "Kaduna International Airport", lower-cased, misses every earlier rule and hits its own. */
  lemma KadunaHits(n: string)
    requires |n| == 28 && CharsIn(n, {' ', 'a', 'd', 'e', 'i', 'k', 'l', 'n', 'o', 'p', 'r', 't', 'u'})
    requires n[18] == 'a' && CharsInRange(n, 0, 18, {' ', 'a', 'd', 'e', 'i', 'k', 'n', 'o', 'r', 't', 'u'}) && CharsInRange(n, 19, 28, {' ', 'a', 'i', 'l', 'o', 'p', 'r', 't'})
    requires OccursAt(n, "kaduna", 0)
    ensures forall j :: 0 <= j < 10 ==> !Hits(n, AirportRules[j])
    ensures Hits(n, AirportRules[10])
  {
    KadunaMisses1(n);
    KadunaMisses2(n);
    KadunaMisses3(n);
    KadunaMisses4(n);
    KadunaMisses5(n);
    KadunaAvoidsIlorin(n);
    NoRuleBefore10(n);
    RuleKaduna();
    ContainsAt(n, "kaduna", 0);
  }

  lemma ZariaChars(c: string)
    requires c == "Zaria Airport"
    ensures Stripped(c) && |Lower(c)| == 13 && CharsIn(Lower(c), {' ', 'a', 'i', 'o', 'p', 'r', 't', 'z'})
  {
  }

  lemma ZariaOccurs(c: string)
    requires c == "Zaria Airport"
    ensures OccursAt(Lower(c), "zaria", 0)
  {
    OccursByIndex(Lower(c), "zaria", 0);
  }

  lemma ZariaFacts(c: string)
    requires c == "Zaria Airport"
    ensures Stripped(c)
    ensures |Lower(c)| == 13 && CharsIn(Lower(c), {' ', 'a', 'i', 'o', 'p', 'r', 't', 'z'})
    ensures OccursAt(Lower(c), "zaria", 0)
  {
    ZariaChars(c);
    ZariaOccurs(c);
  }

  lemma ZariaMisses1(n: string)
    requires |n| == 13 && CharsIn(n, {' ', 'a', 'i', 'o', 'p', 'r', 't', 'z'})
    ensures !Contains(n, "murtala") && !Contains(n, "muritala") && !Contains(n, "nnamdi") && !Contains(n, "azikiwe")
  {
    AbsentChar(n, {' ', 'a', 'i', 'o', 'p', 'r', 't', 'z'}, "murtala", 'm');
    AbsentChar(n, {' ', 'a', 'i', 'o', 'p', 'r', 't', 'z'}, "muritala", 'm');
    AbsentChar(n, {' ', 'a', 'i', 'o', 'p', 'r', 't', 'z'}, "nnamdi", 'n');
    AbsentChar(n, {' ', 'a', 'i', 'o', 'p', 'r', 't', 'z'}, "azikiwe", 'k');
  }

  lemma ZariaMisses2(n: string)
    requires |n| == 13 && CharsIn(n, {' ', 'a', 'i', 'o', 'p', 'r', 't', 'z'})
    ensures !Contains(n, "aminu kano") && !Contains(n, "akanu ibiam") && !Contains(n, "enugu") && !Contains(n, "sam mbakwe")
  {
    AbsentChar(n, {' ', 'a', 'i', 'o', 'p', 'r', 't', 'z'}, "aminu kano", 'm');
    AbsentChar(n, {' ', 'a', 'i', 'o', 'p', 'r', 't', 'z'}, "akanu ibiam", 'k');
    AbsentChar(n, {' ', 'a', 'i', 'o', 'p', 'r', 't', 'z'}, "enugu", 'e');
    AbsentChar(n, {' ', 'a', 'i', 'o', 'p', 'r', 't', 'z'}, "sam mbakwe", 's');
  }

  lemma ZariaMisses3(n: string)
    requires |n| == 13 && CharsIn(n, {' ', 'a', 'i', 'o', 'p', 'r', 't', 'z'})
    ensures !Contains(n, "owerri") && !Contains(n, "margaret ekpo") && !Contains(n, "calabar") && !Contains(n, "port harcourt")
  {
    AbsentChar(n, {' ', 'a', 'i', 'o', 'p', 'r', 't', 'z'}, "owerri", 'w');
    AbsentChar(n, {' ', 'a', 'i', 'o', 'p', 'r', 't', 'z'}, "margaret ekpo", 'm');
    AbsentChar(n, {' ', 'a', 'i', 'o', 'p', 'r', 't', 'z'}, "calabar", 'c');
    AbsentChar(n, {' ', 'a', 'i', 'o', 'p', 'r', 't', 'z'}, "port harcourt", 'h');
  }

  lemma ZariaMisses4(n: string)
    requires |n| == 13 && CharsIn(n, {' ', 'a', 'i', 'o', 'p', 'r', 't', 'z'})
    ensures !Contains(n, "yakubu gowon") && !Contains(n, "jos") && !Contains(n, "sadiq abubakar") && !Contains(n, "sultan saddik")
  {
    AbsentChar(n, {' ', 'a', 'i', 'o', 'p', 'r', 't', 'z'}, "yakubu gowon", 'y');
    AbsentChar(n, {' ', 'a', 'i', 'o', 'p', 'r', 't', 'z'}, "jos", 'j');
    AbsentChar(n, {' ', 'a', 'i', 'o', 'p', 'r', 't', 'z'}, "sadiq abubakar", 's');
    AbsentChar(n, {' ', 'a', 'i', 'o', 'p', 'r', 't', 'z'}, "sultan saddik", 's');
  }

  lemma ZariaMisses5(n: string)
    requires |n| == 13 && CharsIn(n, {' ', 'a', 'i', 'o', 'p', 'r', 't', 'z'})
    ensures !Contains(n, "tunde idiagbon") && !Contains(n, "ilorin") && !Contains(n, "kaduna")
  {
    AbsentChar(n, {' ', 'a', 'i', 'o', 'p', 'r', 't', 'z'}, "tunde idiagbon", 'u');
    AbsentChar(n, {' ', 'a', 'i', 'o', 'p', 'r', 't', 'z'}, "ilorin", 'l');
    AbsentChar(n, {' ', 'a', 'i', 'o', 'p', 'r', 't', 'z'}, "kaduna", 'k');
  }

  /** The canonical "Zaria Airport", lower-cased, misses every earlier rule and hits its own. */
  lemma ZariaHits(n: string)
    requires |n| == 13 && CharsIn(n, {' ', 'a', 'i', 'o', 'p', 'r', 't', 'z'})
    requires OccursAt(n, "zaria", 0)
    ensures forall j :: 0 <= j < 11 ==> !Hits(n, AirportRules[j])
    ensures Hits(n, AirportRules[11])
  {
    ZariaMisses1(n);
    ZariaMisses2(n);
    ZariaMisses3(n);
    ZariaMisses4(n);
    ZariaMisses5(n);
    NoRuleBefore11(n);
    RuleZaria();
    ContainsAt(n, "zaria", 0);
  }

  lemma BeninChars(c: string)
    requires c == "Benin Airport"
    ensures Stripped(c) && |Lower(c)| == 13 && CharsIn(Lower(c), {' ', 'a', 'b', 'e', 'i', 'n', 'o', 'p', 'r', 't'})
  {
  }

  lemma BeninOccurs(c: string)
    requires c == "Benin Airport"
    ensures OccursAt(Lower(c), "benin", 0)
  {
    OccursByIndex(Lower(c), "benin", 0);
  }

  lemma BeninFacts(c: string)
    requires c == "Benin Airport"
    ensures Stripped(c)
    ensures |Lower(c)| == 13 && CharsIn(Lower(c), {' ', 'a', 'b', 'e', 'i', 'n', 'o', 'p', 'r', 't'})
    ensures OccursAt(Lower(c), "benin", 0)
  {
    BeninChars(c);
    BeninOccurs(c);
  }

  lemma BeninMisses1(n: string)
    requires |n| == 13 && CharsIn(n, {' ', 'a', 'b', 'e', 'i', 'n', 'o', 'p', 'r', 't'})
    ensures !Contains(n, "murtala") && !Contains(n, "muritala") && !Contains(n, "nnamdi") && !Contains(n, "azikiwe")
  {
    AbsentChar(n, {' ', 'a', 'b', 'e', 'i', 'n', 'o', 'p', 'r', 't'}, "murtala", 'm');
    AbsentChar(n, {' ', 'a', 'b', 'e', 'i', 'n', 'o', 'p', 'r', 't'}, "muritala", 'm');
    AbsentChar(n, {' ', 'a', 'b', 'e', 'i', 'n', 'o', 'p', 'r', 't'}, "nnamdi", 'm');
    AbsentChar(n, {' ', 'a', 'b', 'e', 'i', 'n', 'o', 'p', 'r', 't'}, "azikiwe", 'z');
  }

  lemma BeninMisses2(n: string)
    requires |n| == 13 && CharsIn(n, {' ', 'a', 'b', 'e', 'i', 'n', 'o', 'p', 'r', 't'})
    ensures !Contains(n, "aminu kano") && !Contains(n, "akanu ibiam") && !Contains(n, "enugu") && !Contains(n, "sam mbakwe")
  {
    AbsentChar(n, {' ', 'a', 'b', 'e', 'i', 'n', 'o', 'p', 'r', 't'}, "aminu kano", 'm');
    AbsentChar(n, {' ', 'a', 'b', 'e', 'i', 'n', 'o', 'p', 'r', 't'}, "akanu ibiam", 'k');
    AbsentChar(n, {' ', 'a', 'b', 'e', 'i', 'n', 'o', 'p', 'r', 't'}, "enugu", 'u');
    AbsentChar(n, {' ', 'a', 'b', 'e', 'i', 'n', 'o', 'p', 'r', 't'}, "sam mbakwe", 's');
  }

  lemma BeninMisses3(n: string)
    requires |n| == 13 && CharsIn(n, {' ', 'a', 'b', 'e', 'i', 'n', 'o', 'p', 'r', 't'})
    ensures !Contains(n, "owerri") && !Contains(n, "margaret ekpo") && !Contains(n, "calabar") && !Contains(n, "port harcourt")
  {
    AbsentChar(n, {' ', 'a', 'b', 'e', 'i', 'n', 'o', 'p', 'r', 't'}, "owerri", 'w');
    AbsentChar(n, {' ', 'a', 'b', 'e', 'i', 'n', 'o', 'p', 'r', 't'}, "margaret ekpo", 'm');
    AbsentChar(n, {' ', 'a', 'b', 'e', 'i', 'n', 'o', 'p', 'r', 't'}, "calabar", 'c');
    AbsentChar(n, {' ', 'a', 'b', 'e', 'i', 'n', 'o', 'p', 'r', 't'}, "port harcourt", 'h');
  }

  lemma BeninMisses4(n: string)
    requires |n| == 13 && CharsIn(n, {' ', 'a', 'b', 'e', 'i', 'n', 'o', 'p', 'r', 't'})
    ensures !Contains(n, "yakubu gowon") && !Contains(n, "jos") && !Contains(n, "sadiq abubakar") && !Contains(n, "sultan saddik")
  {
    AbsentChar(n, {' ', 'a', 'b', 'e', 'i', 'n', 'o', 'p', 'r', 't'}, "yakubu gowon", 'y');
    AbsentChar(n, {' ', 'a', 'b', 'e', 'i', 'n', 'o', 'p', 'r', 't'}, "jos", 'j');
    AbsentChar(n, {' ', 'a', 'b', 'e', 'i', 'n', 'o', 'p', 'r', 't'}, "sadiq abubakar", 's');
    AbsentChar(n, {' ', 'a', 'b', 'e', 'i', 'n', 'o', 'p', 'r', 't'}, "sultan saddik", 's');
  }

  lemma BeninMisses5(n: string)
    requires |n| == 13 && CharsIn(n, {' ', 'a', 'b', 'e', 'i', 'n', 'o', 'p', 'r', 't'})
    ensures !Contains(n, "tunde idiagbon") && !Contains(n, "ilorin") && !Contains(n, "kaduna") && !Contains(n, "zaria")
  {
    AbsentChar(n, {' ', 'a', 'b', 'e', 'i', 'n', 'o', 'p', 'r', 't'}, "tunde idiagbon", 'u');
    AbsentChar(n, {' ', 'a', 'b', 'e', 'i', 'n', 'o', 'p', 'r', 't'}, "ilorin", 'l');
    AbsentChar(n, {' ', 'a', 'b', 'e', 'i', 'n', 'o', 'p', 'r', 't'}, "kaduna", 'k');
    AbsentChar(n, {' ', 'a', 'b', 'e', 'i', 'n', 'o', 'p', 'r', 't'}, "zaria", 'z');
  }

  /** The canonical "Benin Airport", lower-cased, misses every earlier rule and hits its own. */
  lemma BeninHits(n: string)
    requires |n| == 13 && CharsIn(n, {' ', 'a', 'b', 'e', 'i', 'n', 'o', 'p', 'r', 't'})
    requires OccursAt(n, "benin", 0)
    ensures forall j :: 0 <= j < 12 ==> !Hits(n, AirportRules[j])
    ensures Hits(n, AirportRules[12])
  {
    BeninMisses1(n);
    BeninMisses2(n);
    BeninMisses3(n);
    BeninMisses4(n);
    BeninMisses5(n);
    NoRuleBefore12(n);
    RuleBenin();
    ContainsAt(n, "benin", 0);
  }

  lemma MurtalaFixed(c: string)
    requires c == "Murtala Muhammed International Airport"
    ensures StandardizeAirportName(c) == c
  {
    MurtalaFacts(c);
    StrippedIsFixpoint(c);
    MurtalaHits(Lower(Strip(c)));
    FirstWhereAt(AirportRules, r => Hits(Lower(Strip(c)), r), 0);
    RuleMurtala();
  }

  lemma NnamdiFixed(c: string)
    requires c == "Nnamdi Azikiwe International Airport"
    ensures StandardizeAirportName(c) == c
  {
    NnamdiFacts(c);
    StrippedIsFixpoint(c);
    NnamdiHits(Lower(Strip(c)));
    FirstWhereAt(AirportRules, r => Hits(Lower(Strip(c)), r), 1);
    RuleNnamdi();
  }

  lemma AminuKanoFixed(c: string)
    requires c == "Mallam Aminu Kano International Airport"
    ensures StandardizeAirportName(c) == c
  {
    AminuKanoFacts(c);
    StrippedIsFixpoint(c);
    AminuKanoHits(Lower(Strip(c)));
    FirstWhereAt(AirportRules, r => Hits(Lower(Strip(c)), r), 2);
    RuleAminuKano();
  }

  lemma AkanuIbiamFixed(c: string)
    requires c == "Akanu Ibiam International Airport"
    ensures StandardizeAirportName(c) == c
  {
    AkanuIbiamFacts(c);
    StrippedIsFixpoint(c);
    AkanuIbiamHits(Lower(Strip(c)));
    FirstWhereAt(AirportRules, r => Hits(Lower(Strip(c)), r), 3);
    RuleAkanuIbiam();
  }

  lemma SamMbakweFixed(c: string)
    requires c == "Sam Mbakwe International Cargo Airport"
    ensures StandardizeAirportName(c) == c
  {
    SamMbakweFacts(c);
    StrippedIsFixpoint(c);
    SamMbakweHits(Lower(Strip(c)));
    FirstWhereAt(AirportRules, r => Hits(Lower(Strip(c)), r), 4);
    RuleSamMbakwe();
  }

  lemma MargaretEkpoFixed(c: string)
    requires c == "Margaret Ekpo International Airport"
    ensures StandardizeAirportName(c) == c
  {
    MargaretEkpoFacts(c);
    StrippedIsFixpoint(c);
    MargaretEkpoHits(Lower(Strip(c)));
    FirstWhereAt(AirportRules, r => Hits(Lower(Strip(c)), r), 5);
    RuleMargaretEkpo();
  }

  lemma PortHarcourtFixed(c: string)
    requires c == "Port Harcourt International Airport"
    ensures StandardizeAirportName(c) == c
  {
    PortHarcourtFacts(c);
    StrippedIsFixpoint(c);
    PortHarcourtHits(Lower(Strip(c)));
    FirstWhereAt(AirportRules, r => Hits(Lower(Strip(c)), r), 6);
    RulePortHarcourt();
  }

  lemma YakubuGowonFixed(c: string)
    requires c == "Yakubu Gowon Airport"
    ensures StandardizeAirportName(c) == c
  {
    YakubuGowonFacts(c);
    StrippedIsFixpoint(c);
    YakubuGowonHits(Lower(Strip(c)));
    FirstWhereAt(AirportRules, r => Hits(Lower(Strip(c)), r), 7);
    RuleYakubuGowon();
  }

  lemma SadiqAbubakarFixed(c: string)
    requires c == "Sadiq Abubakar III International Airport"
    ensures StandardizeAirportName(c) == c
  {
    SadiqAbubakarFacts(c);
    StrippedIsFixpoint(c);
    SadiqAbubakarHits(Lower(Strip(c)));
    FirstWhereAt(AirportRules, r => Hits(Lower(Strip(c)), r), 8);
    RuleSadiqAbubakar();
  }

  lemma IlorinFixed(c: string)
    requires c == "Ilorin Airport"
    ensures StandardizeAirportName(c) == c
  {
    IlorinFacts(c);
    StrippedIsFixpoint(c);
    IlorinHits(Lower(Strip(c)));
    FirstWhereAt(AirportRules, r => Hits(Lower(Strip(c)), r), 9);
    RuleIlorin();
  }

  lemma KadunaFixed(c: string)
    requires c == "Kaduna International Airport"
    ensures StandardizeAirportName(c) == c
  {
    KadunaFacts(c);
    StrippedIsFixpoint(c);
    KadunaHits(Lower(Strip(c)));
    FirstWhereAt(AirportRules, r => Hits(Lower(Strip(c)), r), 10);
    RuleKaduna();
  }

  lemma ZariaFixed(c: string)
    requires c == "Zaria Airport"
    ensures StandardizeAirportName(c) == c
  {
    ZariaFacts(c);
    StrippedIsFixpoint(c);
    ZariaHits(Lower(Strip(c)));
    FirstWhereAt(AirportRules, r => Hits(Lower(Strip(c)), r), 11);
    RuleZaria();
  }

  lemma BeninFixed(c: string)
    requires c == "Benin Airport"
    ensures StandardizeAirportName(c) == c
  {
    BeninFacts(c);
    StrippedIsFixpoint(c);
    BeninHits(Lower(Strip(c)));
    FirstWhereAt(AirportRules, r => Hits(Lower(Strip(c)), r), 12);
    RuleBenin();
  }

  /** Every canonical name standardizes to itself. */
  lemma CanonicalFixed(k: nat)
    requires k < |AirportRules|
    ensures StandardizeAirportName(AirportRules[k].canonical) == AirportRules[k].canonical
  {
    if k == 0 {
      RuleMurtala();
      MurtalaFixed(AirportRules[k].canonical);
    } else if k == 1 {
      RuleNnamdi();
      NnamdiFixed(AirportRules[k].canonical);
    } else if k == 2 {
      RuleAminuKano();
      AminuKanoFixed(AirportRules[k].canonical);
    } else if k == 3 {
      RuleAkanuIbiam();
      AkanuIbiamFixed(AirportRules[k].canonical);
    } else if k == 4 {
      RuleSamMbakwe();
      SamMbakweFixed(AirportRules[k].canonical);
    } else if k == 5 {
      RuleMargaretEkpo();
      MargaretEkpoFixed(AirportRules[k].canonical);
    } else if k == 6 {
      RulePortHarcourt();
      PortHarcourtFixed(AirportRules[k].canonical);
    } else if k == 7 {
      RuleYakubuGowon();
      YakubuGowonFixed(AirportRules[k].canonical);
    } else if k == 8 {
      RuleSadiqAbubakar();
      SadiqAbubakarFixed(AirportRules[k].canonical);
    } else if k == 9 {
      RuleIlorin();
      IlorinFixed(AirportRules[k].canonical);
    } else if k == 10 {
      RuleKaduna();
      KadunaFixed(AirportRules[k].canonical);
    } else if k == 11 {
      RuleZaria();
      ZariaFixed(AirportRules[k].canonical);
    } else {
      RuleBenin();
      BeninFixed(AirportRules[k].canonical);
    }
  }

  lemma EnuguChars(c: string)
    requires c == "Enugu"
    ensures Stripped(c) && |Lower(c)| == 5 && CharsIn(Lower(c), {'e', 'g', 'n', 'u'})
  {
  }

  lemma EnuguOccurs(c: string)
    requires c == "Enugu"
    ensures OccursAt(Lower(c), "enugu", 0)
  {
    OccursByIndex(Lower(c), "enugu", 0);
  }

  lemma EnuguFacts(c: string)
    requires c == "Enugu"
    ensures Stripped(c)
    ensures |Lower(c)| == 5 && CharsIn(Lower(c), {'e', 'g', 'n', 'u'})
    ensures OccursAt(Lower(c), "enugu", 0)
  {
    EnuguChars(c);
    EnuguOccurs(c);
  }

  lemma EnuguMisses1(n: string)
    requires |n| == 5 && CharsIn(n, {'e', 'g', 'n', 'u'})
    ensures !Contains(n, "murtala") && !Contains(n, "muritala") && !Contains(n, "nnamdi") && !Contains(n, "azikiwe")
  {
    AbsentChar(n, {'e', 'g', 'n', 'u'}, "murtala", 'm');
    AbsentChar(n, {'e', 'g', 'n', 'u'}, "muritala", 'm');
    AbsentChar(n, {'e', 'g', 'n', 'u'}, "nnamdi", 'a');
    AbsentChar(n, {'e', 'g', 'n', 'u'}, "azikiwe", 'a');
  }

  lemma EnuguMisses2(n: string)
    requires |n| == 5 && CharsIn(n, {'e', 'g', 'n', 'u'})
    ensures !Contains(n, "aminu kano")
  {
    AbsentChar(n, {'e', 'g', 'n', 'u'}, "aminu kano", 'a');
  }

  /** "enugu" misses the first three rules and hits the Akanu Ibiam rule. */
  lemma EnuguHits(n: string)
    requires |n| == 5 && CharsIn(n, {'e', 'g', 'n', 'u'})
    requires OccursAt(n, "enugu", 0)
    ensures forall j :: 0 <= j < 3 ==> !Hits(n, AirportRules[j])
    ensures Hits(n, AirportRules[3])
  {
    EnuguMisses1(n);
    EnuguMisses2(n);
    NoRuleBefore3(n);
    RuleAkanuIbiam();
    ContainsAt(n, "enugu", 0);
  }

  lemma BeninCityChars(c: string)
    requires c == "Benin City"
    ensures Stripped(c) && |Lower(c)| == 10 && CharsIn(Lower(c), {' ', 'b', 'c', 'e', 'i', 'n', 't', 'y'})
  {
  }

  lemma BeninCityOccurs(c: string)
    requires c == "Benin City"
    ensures OccursAt(Lower(c), "benin", 0)
  {
    OccursByIndex(Lower(c), "benin", 0);
  }

  lemma BeninCityFacts(c: string)
    requires c == "Benin City"
    ensures Stripped(c)
    ensures |Lower(c)| == 10 && CharsIn(Lower(c), {' ', 'b', 'c', 'e', 'i', 'n', 't', 'y'})
    ensures OccursAt(Lower(c), "benin", 0)
  {
    BeninCityChars(c);
    BeninCityOccurs(c);
  }

  lemma BeninCityMisses1(n: string)
    requires |n| == 10 && CharsIn(n, {' ', 'b', 'c', 'e', 'i', 'n', 't', 'y'})
    ensures !Contains(n, "murtala") && !Contains(n, "muritala") && !Contains(n, "nnamdi") && !Contains(n, "azikiwe")
  {
    AbsentChar(n, {' ', 'b', 'c', 'e', 'i', 'n', 't', 'y'}, "murtala", 'm');
    AbsentChar(n, {' ', 'b', 'c', 'e', 'i', 'n', 't', 'y'}, "muritala", 'm');
    AbsentChar(n, {' ', 'b', 'c', 'e', 'i', 'n', 't', 'y'}, "nnamdi", 'a');
    AbsentChar(n, {' ', 'b', 'c', 'e', 'i', 'n', 't', 'y'}, "azikiwe", 'a');
  }

  lemma BeninCityMisses2(n: string)
    requires |n| == 10 && CharsIn(n, {' ', 'b', 'c', 'e', 'i', 'n', 't', 'y'})
    ensures !Contains(n, "aminu kano") && !Contains(n, "akanu ibiam") && !Contains(n, "enugu") && !Contains(n, "sam mbakwe")
  {
    AbsentChar(n, {' ', 'b', 'c', 'e', 'i', 'n', 't', 'y'}, "aminu kano", 'a');
    AbsentChar(n, {' ', 'b', 'c', 'e', 'i', 'n', 't', 'y'}, "akanu ibiam", 'a');
    AbsentChar(n, {' ', 'b', 'c', 'e', 'i', 'n', 't', 'y'}, "enugu", 'u');
    AbsentChar(n, {' ', 'b', 'c', 'e', 'i', 'n', 't', 'y'}, "sam mbakwe", 's');
  }

  lemma BeninCityMisses3(n: string)
    requires |n| == 10 && CharsIn(n, {' ', 'b', 'c', 'e', 'i', 'n', 't', 'y'})
    ensures !Contains(n, "owerri") && !Contains(n, "margaret ekpo") && !Contains(n, "calabar") && !Contains(n, "port harcourt")
  {
    AbsentChar(n, {' ', 'b', 'c', 'e', 'i', 'n', 't', 'y'}, "owerri", 'o');
    AbsentChar(n, {' ', 'b', 'c', 'e', 'i', 'n', 't', 'y'}, "margaret ekpo", 'm');
    AbsentChar(n, {' ', 'b', 'c', 'e', 'i', 'n', 't', 'y'}, "calabar", 'a');
    AbsentChar(n, {' ', 'b', 'c', 'e', 'i', 'n', 't', 'y'}, "port harcourt", 'p');
  }

  lemma BeninCityMisses4(n: string)
    requires |n| == 10 && CharsIn(n, {' ', 'b', 'c', 'e', 'i', 'n', 't', 'y'})
    ensures !Contains(n, "yakubu gowon") && !Contains(n, "jos") && !Contains(n, "sadiq abubakar") && !Contains(n, "sultan saddik")
  {
    AbsentChar(n, {' ', 'b', 'c', 'e', 'i', 'n', 't', 'y'}, "yakubu gowon", 'a');
    AbsentChar(n, {' ', 'b', 'c', 'e', 'i', 'n', 't', 'y'}, "jos", 'j');
    AbsentChar(n, {' ', 'b', 'c', 'e', 'i', 'n', 't', 'y'}, "sadiq abubakar", 's');
    AbsentChar(n, {' ', 'b', 'c', 'e', 'i', 'n', 't', 'y'}, "sultan saddik", 's');
  }

  lemma BeninCityMisses5(n: string)
    requires |n| == 10 && CharsIn(n, {' ', 'b', 'c', 'e', 'i', 'n', 't', 'y'})
    ensures !Contains(n, "tunde idiagbon") && !Contains(n, "ilorin") && !Contains(n, "kaduna") && !Contains(n, "zaria")
  {
    AbsentChar(n, {' ', 'b', 'c', 'e', 'i', 'n', 't', 'y'}, "tunde idiagbon", 'u');
    AbsentChar(n, {' ', 'b', 'c', 'e', 'i', 'n', 't', 'y'}, "ilorin", 'l');
    AbsentChar(n, {' ', 'b', 'c', 'e', 'i', 'n', 't', 'y'}, "kaduna", 'k');
    AbsentChar(n, {' ', 'b', 'c', 'e', 'i', 'n', 't', 'y'}, "zaria", 'z');
  }

  /** "benin city" misses every rule before the last. */
  lemma BeninCityHits(n: string)
    requires |n| == 10 && CharsIn(n, {' ', 'b', 'c', 'e', 'i', 'n', 't', 'y'})
    requires OccursAt(n, "benin", 0)
    ensures forall j :: 0 <= j < 12 ==> !Hits(n, AirportRules[j])
    ensures Hits(n, AirportRules[12])
  {
    BeninCityMisses1(n);
    BeninCityMisses2(n);
    BeninCityMisses3(n);
    BeninCityMisses4(n);
    BeninCityMisses5(n);
    NoRuleBefore12(n);
    RuleBenin();
    ContainsAt(n, "benin", 0);
  }

  // ------------------------------------------------------------------ categories

  /** The service types that count as general aviation. */
  const GeneralAviationTypes: set<string> := {"general aviation", "other", "others", "non-categorised"}

  /** `map_category`, on the service type as `str(st)` renders it. */
  function MapCategory(st: string): (r: string)
    ensures r in {"General Aviation", "Commercial", "Private"} || r == Strip(st)
  {
    var s := Lower(Strip(st));
    if s in GeneralAviationTypes then "General Aviation"
    else if s == "passenger" then "Commercial"
    else if Contains(s, "business") then "Private"
    else Strip(st)
  }

  /** The "Category of Flight" column: `map_category` of the service type,
      or "Unknown" for every row when no uploaded file has a `service_type`
      column. A row from a file without that column, merged with one that
      has it, has a missing cell there, which is `Some("nan")` here. */
  function CategoryOf(serviceType: Option<string>): (r: string)
    ensures serviceType.Some? ==> r == MapCategory(serviceType.value)
    ensures r == "Unknown" <==> serviceType.None? || Strip(serviceType.value) == "Unknown"
  {
    match serviceType
    case None => "Unknown"
    case Some(st) => UnknownKept(st); MapCategory(st)
  }

  /** A service type reading "Unknown" is kept as it is, so it cannot be
      told apart from a file without a service type. */
  lemma UnknownKept(st: string)
    ensures Strip(st) == "Unknown" ==> MapCategory(st) == "Unknown"
  {
    if Strip(st) == "Unknown" {
      assert Lower(Strip(st)) == "unknown";
      MissingChar("unknown", "business", 'b');
    }
  }

  lemma GeneralAviationFixed(c: string)
    requires c == "General Aviation"
    ensures Lower(Strip(c)) == "general aviation" && MapCategory(c) == c
  {
    StrippedIsFixpoint(c);
    assert Lower(c) == "general aviation";
  }

  lemma CommercialFixed(c: string)
    requires c == "Commercial"
    ensures MapCategory(c) == c
  {
    StrippedIsFixpoint(c);
    assert Lower(c) == "commercial";
    MissingChar("commercial", "business", 'b');
  }

  lemma PrivateFixed(c: string)
    requires c == "Private"
    ensures MapCategory(c) == c
  {
    StrippedIsFixpoint(c);
    assert Lower(c) == "private";
    MissingChar("private", "business", 'b');
  }

  /** Mapping a mapped category changes nothing. */
  lemma MapCategoryIdempotent(st: string)
    ensures MapCategory(MapCategory(st)) == MapCategory(st)
  {
    var r := MapCategory(st);
    if r == "General Aviation" {
      GeneralAviationFixed(r);
    } else if r == "Commercial" {
      CommercialFixed(r);
    } else if r == "Private" {
      PrivateFixed(r);
    } else {
      StripIdempotent(st);
    }
  }

  /** A flight is general aviation exactly when its cleaned service type is
      one of the four general-aviation types. */
  lemma GeneralAviationIff(st: string)
    ensures MapCategory(st) == "General Aviation" <==> Lower(Strip(st)) in GeneralAviationTypes
  {
    GeneralAviationFixed("General Aviation");
  }

  /** A flight is commercial exactly when its service type is "passenger"
      in any case, or already reads "Commercial". */
  lemma CommercialIff(st: string)
    ensures MapCategory(st) == "Commercial" <==> Lower(Strip(st)) == "passenger" || Strip(st) == "Commercial"
  {
    if Strip(st) == "Commercial" {
      StripIdempotent(st);
      CommercialFixed(Strip(st));
    }
  }

  /** A flight is private exactly when its cleaned service type is neither
      general aviation nor "passenger" and mentions "business", or when it
      already reads "Private". */
  lemma PrivateIff(st: string)
    ensures MapCategory(st) == "Private"
        <==> (Lower(Strip(st)) !in GeneralAviationTypes && Lower(Strip(st)) != "passenger"
              && Contains(Lower(Strip(st)), "business"))
             || Strip(st) == "Private"
  {
    if Strip(st) == "Private" {
      StripIdempotent(st);
      PrivateFixed(Strip(st));
    }
  }

  // ---------------------------------------------------------------- travel type

  /** The placeholders this processor reads as a missing country. */
  const MonthlyPlaceholders: set<string> := {"NAN", "", "NONE", "NULL", "NAM"}

  /** The nested `get_travel_type`. */
  function MonthlyTravelType(origin: string, destination: string): (t: TravelKind)
    ensures t == International <==> Known(MonthlyPlaceholders, origin) && Known(MonthlyPlaceholders, destination)
                                    && Upper(Strip(origin)) != Upper(Strip(destination))
  {
    InternationalIff(MonthlyPlaceholders, origin, destination);
    TravelType(MonthlyPlaceholders, origin, destination)
  }

  // ---------------------------------------------------------------- city to state

  /** `CITY_TO_STATE_DB`. */
  const CityToStateDb: map<string, string> := map[
    "ikeja" := "Lagos", "lagos" := "Lagos", "port harcourt" := "Rivers", "uyo" := "Akwa Ibom",
    "benin" := "Edo", "benin city" := "Edo", "calabar" := "Cross River",
    "asaba" := "Delta", "warri" := "Delta", "osubi" := "Delta", "enugu" := "Enugu",
    "kano" := "Kano", "kaduna" := "Kaduna", "zaria" := "Kaduna", "owerri" := "Imo",
    "ilorin" := "Kwara", "maiduguri" := "Borno", "sokoto" := "Sokoto", "yola" := "Adamawa",
    "akure" := "Ondo", "iperu" := "Ogun", "ibadan" := "Oyo", "jos" := "Plateau",
    "makurdi" := "Benue", "minna" := "Niger", "abuja" := "Abuja", "lekki" := "Lagos"
  ]

  /** The "Airport State" after the lookup: the state of the stripped,
      lower-cased city, or the value as it was when the city is not listed. */
  function MapState(city: string): (r: string)
    ensures Lower(Strip(city)) in CityToStateDb ==> r == CityToStateDb[Lower(Strip(city))]
    ensures Lower(Strip(city)) !in CityToStateDb ==> r == city
  {
    var key := Lower(Strip(city));
    if key in CityToStateDb then CityToStateDb[key] else city
  }

  /** The states the lookup gives. */
  const StateNames: set<string> := {
    "Lagos", "Rivers", "Akwa Ibom", "Edo", "Cross River", "Delta", "Enugu", "Kano", "Kaduna", "Imo",
    "Kwara", "Borno", "Sokoto", "Adamawa", "Ondo", "Ogun", "Oyo", "Plateau", "Benue", "Niger", "Abuja"
  }

  lemma LookupGivesStateName(key: string)
    requires key in CityToStateDb
    ensures CityToStateDb[key] in StateNames
  {
  }

  lemma StateLagosFixed(v: string)
    requires v == "Lagos"
    ensures MapState(v) == v
  {
    StrippedIsFixpoint(v);
    assert Lower(v) == "lagos";
  }

  lemma StateRiversFixed(v: string)
    requires v == "Rivers"
    ensures MapState(v) == v
  {
    StrippedIsFixpoint(v);
    assert Lower(v) == "rivers";
  }

  lemma StateAkwaIbomFixed(v: string)
    requires v == "Akwa Ibom"
    ensures MapState(v) == v
  {
    StrippedIsFixpoint(v);
    assert Lower(v) == "akwa ibom";
  }

  lemma StateEdoFixed(v: string)
    requires v == "Edo"
    ensures MapState(v) == v
  {
    StrippedIsFixpoint(v);
    assert Lower(v) == "edo";
  }

  lemma StateCrossRiverFixed(v: string)
    requires v == "Cross River"
    ensures MapState(v) == v
  {
    StrippedIsFixpoint(v);
    assert Lower(v) == "cross river";
  }

  lemma StateDeltaFixed(v: string)
    requires v == "Delta"
    ensures MapState(v) == v
  {
    StrippedIsFixpoint(v);
    assert Lower(v) == "delta";
  }

  lemma StateEnuguFixed(v: string)
    requires v == "Enugu"
    ensures MapState(v) == v
  {
    StrippedIsFixpoint(v);
    assert Lower(v) == "enugu";
  }

  lemma StateKanoFixed(v: string)
    requires v == "Kano"
    ensures MapState(v) == v
  {
    StrippedIsFixpoint(v);
    assert Lower(v) == "kano";
  }

  lemma StateKadunaFixed(v: string)
    requires v == "Kaduna"
    ensures MapState(v) == v
  {
    StrippedIsFixpoint(v);
    assert Lower(v) == "kaduna";
  }

  lemma StateImoFixed(v: string)
    requires v == "Imo"
    ensures MapState(v) == v
  {
    StrippedIsFixpoint(v);
    assert Lower(v) == "imo";
  }

  lemma StateKwaraFixed(v: string)
    requires v == "Kwara"
    ensures MapState(v) == v
  {
    StrippedIsFixpoint(v);
    assert Lower(v) == "kwara";
  }

  lemma StateBornoFixed(v: string)
    requires v == "Borno"
    ensures MapState(v) == v
  {
    StrippedIsFixpoint(v);
    assert Lower(v) == "borno";
  }

  lemma StateSokotoFixed(v: string)
    requires v == "Sokoto"
    ensures MapState(v) == v
  {
    StrippedIsFixpoint(v);
    assert Lower(v) == "sokoto";
  }

  lemma StateAdamawaFixed(v: string)
    requires v == "Adamawa"
    ensures MapState(v) == v
  {
    StrippedIsFixpoint(v);
    assert Lower(v) == "adamawa";
  }

  lemma StateOndoFixed(v: string)
    requires v == "Ondo"
    ensures MapState(v) == v
  {
    StrippedIsFixpoint(v);
    assert Lower(v) == "ondo";
  }

  lemma StateOgunFixed(v: string)
    requires v == "Ogun"
    ensures MapState(v) == v
  {
    StrippedIsFixpoint(v);
    assert Lower(v) == "ogun";
  }

  lemma StateOyoFixed(v: string)
    requires v == "Oyo"
    ensures MapState(v) == v
  {
    StrippedIsFixpoint(v);
    assert Lower(v) == "oyo";
  }

  lemma StatePlateauFixed(v: string)
    requires v == "Plateau"
    ensures MapState(v) == v
  {
    StrippedIsFixpoint(v);
    assert Lower(v) == "plateau";
  }

  lemma StateBenueFixed(v: string)
    requires v == "Benue"
    ensures MapState(v) == v
  {
    StrippedIsFixpoint(v);
    assert Lower(v) == "benue";
  }

  lemma StateNigerFixed(v: string)
    requires v == "Niger"
    ensures MapState(v) == v
  {
    StrippedIsFixpoint(v);
    assert Lower(v) == "niger";
  }

  lemma StateAbujaFixed(v: string)
    requires v == "Abuja"
    ensures MapState(v) == v
  {
    StrippedIsFixpoint(v);
    assert Lower(v) == "abuja";
  }

  /** A state name looked up again is itself: either it is listed under
      its own lower-cased name or it is not listed at all. */
  lemma StateNameFixed(v: string)
    requires v in StateNames
    ensures MapState(v) == v
  {
    if v == "Lagos" {
      StateLagosFixed(v);
    } else if v == "Rivers" {
      StateRiversFixed(v);
    } else if v == "Akwa Ibom" {
      StateAkwaIbomFixed(v);
    } else if v == "Edo" {
      StateEdoFixed(v);
    } else if v == "Cross River" {
      StateCrossRiverFixed(v);
    } else if v == "Delta" {
      StateDeltaFixed(v);
    } else if v == "Enugu" {
      StateEnuguFixed(v);
    } else if v == "Kano" {
      StateKanoFixed(v);
    } else if v == "Kaduna" {
      StateKadunaFixed(v);
    } else if v == "Imo" {
      StateImoFixed(v);
    } else if v == "Kwara" {
      StateKwaraFixed(v);
    } else if v == "Borno" {
      StateBornoFixed(v);
    } else if v == "Sokoto" {
      StateSokotoFixed(v);
    } else if v == "Adamawa" {
      StateAdamawaFixed(v);
    } else if v == "Ondo" {
      StateOndoFixed(v);
    } else if v == "Ogun" {
      StateOgunFixed(v);
    } else if v == "Oyo" {
      StateOyoFixed(v);
    } else if v == "Plateau" {
      StatePlateauFixed(v);
    } else if v == "Benue" {
      StateBenueFixed(v);
    } else if v == "Niger" {
      StateNigerFixed(v);
    } else {
      StateAbujaFixed(v);
    }
  }

  /** Looking a mapped state up again changes nothing. */
  lemma MapStateIdempotent(city: string)
    ensures MapState(MapState(city)) == MapState(city)
  {
    var key := Lower(Strip(city));
    if key in CityToStateDb {
      LookupGivesStateName(key);
      StateNameFixed(CityToStateDb[key]);
    }
  }

  // ---------------------------------------------------------------- the unpivot

  /** The columns of a merged flight row that the report reads. A country
      cell is `None` where the merged table has no value. `travelType` and
      `category` stand for the computed columns "Travel Type" and "Category
      of Flight" and are inputs here: `MonthlyTravelType` and `CategoryOf`
      define them, and `Consistent` ties a row to them. */
  datatype FlightRow = FlightRow(
    originCity: string, originName: string, originCountry: Option<string>,
    destinationCity: string, destinationName: string, destinationCountry: Option<string>,
    date: string, travelType: TravelKind, category: string)

  /** A row whose computed columns are the ones the processor writes: the
      travel type of its two countries, a missing one rendered "nan", and
      the category of its service type. */
  predicate Consistent(r: FlightRow, serviceType: Option<string>) {
    r.travelType == MonthlyTravelType(Rendered(r.originCountry), Rendered(r.destinationCountry))
    && r.category == CategoryOf(serviceType)
  }

  /** `str` of a country cell as `get_travel_type` reads it: a missing
      value is "nan" (or "" for a missing column; both are placeholders). */
  function Rendered(cell: Option<string>): string {
    match cell
    case None => "nan"
    case Some(s) => s
  }

  /** A flight with a missing origin country is domestic. */
  lemma MissingOriginDomestic(r: FlightRow, serviceType: Option<string>)
    requires Consistent(r, serviceType) && r.originCountry.None?
    ensures r.travelType == Domestic
  {
    StrippedIsFixpoint("nan");
    assert Upper("nan") == "NAN";
  }

  datatype FlightStatus = Departure | Arrival

  /** One movement at one airport. */
  datatype Movement = Movement(
    state: string, name: string, country: Option<string>, date: string,
    travelType: TravelKind, category: string, status: FlightStatus)

  function DepartureOf(r: FlightRow): Movement {
    Movement(r.originCity, r.originName, r.originCountry, r.date, r.travelType, r.category, Departure)
  }

  function ArrivalOf(r: FlightRow): Movement {
    Movement(r.destinationCity, r.destinationName, r.destinationCountry, r.date, r.travelType, r.category, Arrival)
  }

  /** `pd.concat([df_dep, df_arr])`: all departures, then all arrivals. */
  function Unpivot(rows: seq<FlightRow>): (ms: seq<Movement>)
    ensures |ms| == 2 * |rows|
    ensures forall i :: 0 <= i < |ms| ==> (ms[i].status == Departure <==> i < |rows|)
  {
    seq(|rows|, i requires 0 <= i < |rows| => DepartureOf(rows[i]))
      + seq(|rows|, i requires 0 <= i < |rows| => ArrivalOf(rows[i]))
  }

  /** The row a departure and its arrival came from. */
  function Merge(dep: Movement, arr: Movement): FlightRow {
    FlightRow(dep.state, dep.name, dep.country, arr.state, arr.name, arr.country, dep.date, dep.travelType, dep.category)
  }

  /** Pairing the i-th departure with the i-th arrival. */
  function Repivot(ms: seq<Movement>): (rows: seq<FlightRow>)
    ensures |rows| == |ms| / 2
  {
    seq(|ms| / 2, i requires 0 <= i < |ms| / 2 => Merge(ms[i], ms[|ms| / 2 + i]))
  }

  /** The unpivot loses nothing: the rows can be read back from the
      movements, the i-th departure and the i-th arrival being one flight. */
  lemma UnpivotRoundTrip(rows: seq<FlightRow>)
    ensures Repivot(Unpivot(rows)) == rows
  {
  }

  // ---------------------------------------------------------------- the report

  /** The country filter: the upper-cased country mentions Nigeria, and a
      missing country does not (`na=False`). */
  predicate MentionsNigeria(country: Option<string>) {
    country.Some? && Contains(Upper(country.value), "NIGERIA")
  }

  predicate InNigeria(m: Movement) {
    MentionsNigeria(m.country)
  }

  /** The state lookup and the airport name, applied to one kept movement. */
  function Localize(m: Movement): Movement {
    m.(state := MapState(m.state), name := StandardizeAirportName(m.name))
  }

  /** The movements at Nigerian airports, in order, with states and names
      mapped: the Nigerian movements before the `groupby` of the report. */
  function NigerianMovements(ms: seq<Movement>): (out: seq<Movement>)
    ensures |out| <= |ms|
  {
    KeepMap(ms, InNigeria, Localize)
  }

  /** Every Nigerian movement is kept, localized. */
  lemma NigerianMovementsKept(ms: seq<Movement>, k: nat)
    requires k < |ms| && InNigeria(ms[k])
    ensures Localize(ms[k]) in NigerianMovements(ms)
  {
    KeepMapKeeps(ms, InNigeria, Localize, k);
  }

  /** Every kept movement is a Nigerian one, localized, and so is itself at
      a Nigerian airport. */
  lemma NigerianMovementsFrom(ms: seq<Movement>, m: Movement) returns (k: nat)
    requires m in NigerianMovements(ms)
    ensures k < |ms| && InNigeria(ms[k]) && m == Localize(ms[k])
    ensures InNigeria(m)
  {
    k := KeepMapFrom(ms, InNigeria, Localize, m);
  }

  /** A flight between two Nigerian airports is counted twice, once
      as a departure and once as an arrival. */
  lemma NigerianFlightCountedTwice(rows: seq<FlightRow>, i: nat)
    requires i < |rows|
    requires MentionsNigeria(rows[i].originCountry)
    requires MentionsNigeria(rows[i].destinationCountry)
    ensures Localize(DepartureOf(rows[i])) in NigerianMovements(Unpivot(rows))
    ensures Localize(ArrivalOf(rows[i])) in NigerianMovements(Unpivot(rows))
  {
    var ms := Unpivot(rows);
    assert ms[i] == DepartureOf(rows[i]) && ms[|rows| + i] == ArrivalOf(rows[i]);
    NigerianMovementsKept(ms, i);
    NigerianMovementsKept(ms, |rows| + i);
  }

  // ---------------------------------------------------------------- the merged table

  /** The merged table: the columns some uploaded file has (stripped and
      lower-cased), and its rows. `date_takeoff` is always there, since the
      reading of every file sets it. */
  datatype FlightTable = FlightTable(columns: set<string>, rows: seq<FlightRow>)

  /** The columns the two selections of the unpivot name, besides the date. */
  const UnpivotColumns: set<string> :=
    {"origin_city", "origin_name", "origin_country", "destination_city", "destination_name", "destination_country"}

  /** The Nigerian movements before the `groupby`, or `None` where the
      processor raises: a selection naming a column the table lacks
      (`KeyError`), or a country column with no text in it at all, on which
      `.str` is refused. An empty table has nothing to refuse. */
  function MonthlyMovements(t: FlightTable): (r: Option<seq<Movement>>)
    ensures r.None? <==> !(UnpivotColumns <= t.columns)
                         || (t.rows != [] && forall i :: 0 <= i < |t.rows| ==>
                               t.rows[i].originCountry.None? && t.rows[i].destinationCountry.None?)
    ensures r.Some? ==> r.value == NigerianMovements(Unpivot(t.rows))
  {
    var ms := Unpivot(t.rows);
    if !(UnpivotColumns <= t.columns) then None
    else if ms != [] && forall k :: 0 <= k < |ms| ==> ms[k].country.None? then
      NoCountryRows(t.rows);
      None
    else
      NoCountryRows(t.rows);
      Some(NigerianMovements(ms))
  }

  /** The country column of the unpivot is empty exactly when both country
      columns of the table are. */
  lemma NoCountryRows(rows: seq<FlightRow>)
    ensures (forall k :: 0 <= k < |Unpivot(rows)| ==> Unpivot(rows)[k].country.None?)
        <==> (forall i :: 0 <= i < |rows| ==> rows[i].originCountry.None? && rows[i].destinationCountry.None?)
  {
    var ms := Unpivot(rows);
    if forall k :: 0 <= k < |ms| ==> ms[k].country.None? {
      forall i | 0 <= i < |rows|
        ensures rows[i].originCountry.None? && rows[i].destinationCountry.None?
      {
        assert ms[i].country == rows[i].originCountry;
        assert ms[|rows| + i].country == rows[i].destinationCountry;
      }
    }
  }

  /** Without an `origin_country` column the monthly processor raises. */
  lemma MissingCountryColumnRaises(t: FlightTable)
    requires "origin_country" !in t.columns
    ensures MonthlyMovements(t).None?
  {
  }

  /** A flight between two Nigerian airports, in a table with every column,
      gives a Nigerian departure and a Nigerian arrival before the `groupby`. */
  lemma MonthlyFlightCountedTwice(t: FlightTable, i: nat)
    requires UnpivotColumns <= t.columns && i < |t.rows|
    requires MentionsNigeria(t.rows[i].originCountry) && MentionsNigeria(t.rows[i].destinationCountry)
    ensures MonthlyMovements(t).Some?
    ensures Localize(DepartureOf(t.rows[i])) in MonthlyMovements(t).value
    ensures Localize(ArrivalOf(t.rows[i])) in MonthlyMovements(t).value
  {
    NigerianFlightCountedTwice(t.rows, i);
  }
}
