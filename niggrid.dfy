/**
 * `standardize_name` of scrapers/niggrid_scraper.py: a raw station name is
 * matched against the ordered master list, where NIPP plants come before
 * the plain plant of the same name, and the first entry whose key occurs
 * in the cleaned raw name is returned title-cased.
 */
module NigGrid {
  import opened Wrappers
  import opened Strings
  import opened Search
  import opened GridCommon

  /** `GENCO_MASTER_LIST`, in its order. */
  const GencoMasterList: seq<string> := [
    "AFAM III FAST POWER", "AFAM VI (GAS/STEAM)", "AZURA-EDO IPP (GAS)",
    "DADINKOWA G.S (HYDRO)", "DELTA (GAS)", "EGBIN (STEAM)",
    "GEREGU NIPP (GAS)", "GEREGU (GAS)",
    "GPAL (GAS)", "IBOM POWER (GAS)", "IHOVBOR NIPP (GAS)",
    "JEBBA (HYDRO)", "KAINJI (HYDRO)", "ODUKPANI NIPP (GAS)", "OKPAI (GAS/STEAM)",
    "OLORUNSOGO NIPP (GAS)", "OLORUNSOGO (GAS)",
    "OMOKU (GAS)",
    "OMOTOSHO NIPP (GAS)", "OMOTOSHO (GAS)",
    "PARAS ENERGY (GAS)", "RIVERS IPP (GAS)",
    "SAPELE NIPP (GAS)", "SAPELE (STEAM)",
    "SHIRORO (HYDRO)", "TRANS AFAM POWER", "TRANS-AMADI (GAS)",
    "ZUNGERU", "KASHIMBILA GS"
  ]

  /** The test of one master entry: its key occurs in the cleaned raw name. */
  predicate KeyMatches(clean: string, master: string) {
    Contains(clean, MatchKey(master))
  }

  /** The position of the first master entry that matches. */
  function MatchIndex(clean: string): Option<nat> {
    FirstWhere(GencoMasterList, m => KeyMatches(clean, m))
  }

  /** `standardize_name`. */
  function StandardizeName(raw: RawName): (r: string)
    ensures raw.NonText? ==> r == raw.shown
    ensures raw.Text? ==>
      (r == Title(raw.s) || exists k :: 0 <= k < |GencoMasterList| && r == Title(GencoMasterList[k]))
  {
    match raw
    case NonText(shown) => shown
    case Text(s) =>
      match MatchIndex(CleanRaw(s))
      case Some(k) => Title(GencoMasterList[k])
      case None => Title(s)
  }

  /** The first entry whose key occurs in the cleaned name decides. */
  lemma StandardizeFirstMatch(s: string, k: nat)
    requires k < |GencoMasterList| && KeyMatches(CleanRaw(s), GencoMasterList[k])
    requires forall j :: 0 <= j < k ==> !KeyMatches(CleanRaw(s), GencoMasterList[j])
    ensures StandardizeName(Text(s)) == Title(GencoMasterList[k])
  {
    FirstWhereAt(GencoMasterList, m => KeyMatches(CleanRaw(s), m), k);
  }

  /** With no entry matching, the original text is title-cased as it came,
      white space included. */
  lemma StandardizeNoMatch(s: string)
    requires forall j :: 0 <= j < |GencoMasterList| ==> !KeyMatches(CleanRaw(s), GencoMasterList[j])
    ensures StandardizeName(Text(s)) == Title(s)
  {
  }

  /** Every name the function gives for text is already title-cased. */
  lemma StandardizeIsTitled(s: string)
    ensures Title(StandardizeName(Text(s))) == StandardizeName(Text(s))
  {
    match MatchIndex(CleanRaw(s))
    case Some(k) => TitleIdempotent(GencoMasterList[k]);
    case None => TitleIdempotent(s);
  }

  // ---------------------------------------------------- specific before generic

  /** The entries with a NIPP plant and a plain plant of the same name, as
      (NIPP position, plain position). */
  const NippPairs: seq<(nat, nat)> := [(6, 7), (15, 16), (18, 19), (22, 23)]

  lemma GereguEntries()
    ensures GencoMasterList[6] == "GEREGU NIPP (GAS)" && GencoMasterList[7] == "GEREGU (GAS)"
  {
  }

  lemma GereguShadow()
    ensures Contains(MatchKey("GEREGU NIPP (GAS)"), MatchKey("GEREGU (GAS)"))
  {
    KeyGereguNipp();
    KeyGeregu();
    NippHoldsPlain("geregu");
  }

  lemma GereguPair()
    ensures Contains(MatchKey(GencoMasterList[6]), MatchKey(GencoMasterList[7]))
  {
    GereguEntries();
    GereguShadow();
  }

  lemma OlorunsogoEntries()
    ensures GencoMasterList[15] == "OLORUNSOGO NIPP (GAS)" && GencoMasterList[16] == "OLORUNSOGO (GAS)"
  {
  }

  lemma OlorunsogoShadow()
    ensures Contains(MatchKey("OLORUNSOGO NIPP (GAS)"), MatchKey("OLORUNSOGO (GAS)"))
  {
    KeyOlorunsogoNipp();
    KeyOlorunsogo();
    NippHoldsPlain("olorunsogo");
  }

  lemma OlorunsogoPair()
    ensures Contains(MatchKey(GencoMasterList[15]), MatchKey(GencoMasterList[16]))
  {
    OlorunsogoEntries();
    OlorunsogoShadow();
  }

  lemma OmotoshoEntries()
    ensures GencoMasterList[18] == "OMOTOSHO NIPP (GAS)" && GencoMasterList[19] == "OMOTOSHO (GAS)"
  {
  }

  lemma OmotoshoShadow()
    ensures Contains(MatchKey("OMOTOSHO NIPP (GAS)"), MatchKey("OMOTOSHO (GAS)"))
  {
    KeyOmotoshoNipp();
    KeyOmotosho();
    NippHoldsPlain("omotosho");
  }

  lemma OmotoshoPair()
    ensures Contains(MatchKey(GencoMasterList[18]), MatchKey(GencoMasterList[19]))
  {
    OmotoshoEntries();
    OmotoshoShadow();
  }

  lemma SapeleEntries()
    ensures GencoMasterList[22] == "SAPELE NIPP (GAS)" && GencoMasterList[23] == "SAPELE (STEAM)"
  {
  }

  lemma SapeleShadow()
    ensures Contains(MatchKey("SAPELE NIPP (GAS)"), MatchKey("SAPELE (STEAM)"))
  {
    KeySapeleNipp();
    KeySapele();
    NippHoldsPlain("sapele");
  }

  lemma SapelePair()
    ensures Contains(MatchKey(GencoMasterList[22]), MatchKey(GencoMasterList[23]))
  {
    SapeleEntries();
    SapeleShadow();
  }

  lemma NippPairKeys(p: nat)
    requires p < |NippPairs|
    ensures NippPairs[p].0 < NippPairs[p].1 < |GencoMasterList|
    ensures Contains(MatchKey(GencoMasterList[NippPairs[p].0]), MatchKey(GencoMasterList[NippPairs[p].1]))
  {
    if p == 0 {
      GereguPair();
    } else if p == 1 {
      OlorunsogoPair();
    } else if p == 2 {
      OmotoshoPair();
    } else {
      SapelePair();
    }
  }

  /** A name matching a NIPP key also matches the plain key of the same
      plant, and the entry chosen is the NIPP one or an earlier one: the
      plain entry, listed after it, is never the match. */
  lemma SpecificBeforeGeneric(s: string, p: nat)
    requires p < |NippPairs|
    requires KeyMatches(CleanRaw(s), GencoMasterList[NippPairs[p].0])
    ensures KeyMatches(CleanRaw(s), GencoMasterList[NippPairs[p].1])
    ensures MatchIndex(CleanRaw(s)).Some?
    ensures MatchIndex(CleanRaw(s)).value <= NippPairs[p].0 < NippPairs[p].1
  {
    NippPairKeys(p);
    var (specific, generic) := NippPairs[p];
    ContainsTransitive(CleanRaw(s), MatchKey(GencoMasterList[specific]), MatchKey(GencoMasterList[generic]));
    FirstWhereAtMost(GencoMasterList, m => KeyMatches(CleanRaw(s), m), specific);
  }

  // ---------------------------------------------------------------- scenario

  lemma GereguNippClean()
    ensures CleanRaw("geregu nipp") == "geregu nipp"
  {
    assert Lower("geregu nipp") == "geregu nipp";
    StrippedIsFixpoint("geregu nipp");
  }

  lemma GereguNippMisses0(clean: string)
    requires clean == "geregu nipp"
    ensures !KeyMatches(clean, GencoMasterList[0])
  {
    assert GencoMasterList[0] == "AFAM III FAST POWER";
    GereguNippMissesAfamIii(clean);
  }

  lemma GereguNippMisses1(clean: string)
    requires clean == "geregu nipp"
    ensures !KeyMatches(clean, GencoMasterList[1])
  {
    assert GencoMasterList[1] == "AFAM VI (GAS/STEAM)";
    GereguNippMissesAfamVi(clean);
  }

  lemma GereguNippMisses2(clean: string)
    requires clean == "geregu nipp"
    ensures !KeyMatches(clean, GencoMasterList[2])
  {
    assert GencoMasterList[2] == "AZURA-EDO IPP (GAS)";
    GereguNippMissesAzura(clean);
  }

  lemma GereguNippMisses3(clean: string)
    requires clean == "geregu nipp"
    ensures !KeyMatches(clean, GencoMasterList[3])
  {
    assert GencoMasterList[3] == "DADINKOWA G.S (HYDRO)";
    GereguNippMissesDadinkowa(clean);
  }

  lemma GereguNippMisses4(clean: string)
    requires clean == "geregu nipp"
    ensures !KeyMatches(clean, GencoMasterList[4])
  {
    assert GencoMasterList[4] == "DELTA (GAS)";
    GereguNippMissesDelta(clean);
  }

  lemma GereguNippMisses5(clean: string)
    requires clean == "geregu nipp"
    ensures !KeyMatches(clean, GencoMasterList[5])
  {
    assert GencoMasterList[5] == "EGBIN (STEAM)";
    GereguNippMissesEgbin(clean);
  }

  /** No entry before the Geregu NIPP plant matches "geregu nipp"; that
      entry does. */
  lemma GereguNippFirst(clean: string)
    requires clean == "geregu nipp"
    ensures forall j :: 0 <= j < 6 ==> !KeyMatches(clean, GencoMasterList[j])
    ensures KeyMatches(clean, GencoMasterList[6])
  {
    forall j | 0 <= j < 6
      ensures !KeyMatches(clean, GencoMasterList[j])
    {
      if j == 0 {
        GereguNippMisses0(clean);
      } else if j == 1 {
        GereguNippMisses1(clean);
      } else if j == 2 {
        GereguNippMisses2(clean);
      } else if j == 3 {
        GereguNippMisses3(clean);
      } else if j == 4 {
        GereguNippMisses4(clean);
      } else {
        GereguNippMisses5(clean);
      }
    }
    GereguNippMatches(clean);
  }

  lemma GereguNippMatches(clean: string)
    requires clean == "geregu nipp"
    ensures KeyMatches(clean, GencoMasterList[6])
  {
    assert GencoMasterList[6] == "GEREGU NIPP (GAS)";
    KeyGereguNipp();
    assert OccursAt(clean, "geregu nipp", 0);
  }

  lemma GereguNippTitle()
    ensures Title(GencoMasterList[6]) == "Geregu Nipp (Gas)"
  {
    assert GencoMasterList[6] == "GEREGU NIPP (GAS)";
    assert Title("GEREGU NIPP (GAS)") == "Geregu Nipp (Gas)";
  }

  /** "geregu nipp" is the NIPP plant, not the plain Geregu plant. */
  lemma GereguNippIsNipp()
    ensures StandardizeName(Text("geregu nipp")) == "Geregu Nipp (Gas)"
  {
    GereguNippClean();
    GereguNippFirst(CleanRaw("geregu nipp"));
    StandardizeFirstMatch("geregu nipp", 6);
    GereguNippTitle();
  }
}
