/**
 * `standardize_name` of scrapers/scraper.py: the same master list with the
 * plain plants before their NIPP plants, and a match in either direction
 * (the key inside the cleaned raw name, or the cleaned raw name inside the
 * key). The first entry that matches is returned title-cased.
 */
module GridScraper {
  import opened Wrappers
  import opened Strings
  import opened Search
  import opened GridCommon

  /** `GENCO_MASTER_LIST` of this scraper, in its order. */
  const GencoMasterList: seq<string> := [
    "AFAM III FAST POWER", "AFAM VI (GAS/STEAM)", "AZURA-EDO IPP (GAS)",
    "DADINKOWA G.S (HYDRO)", "DELTA (GAS)", "EGBIN (STEAM)", "GEREGU (GAS)",
    "GEREGU NIPP (GAS)", "GPAL (GAS)", "IBOM POWER (GAS)", "IHOVBOR NIPP (GAS)",
    "JEBBA (HYDRO)", "KAINJI (HYDRO)", "ODUKPANI NIPP (GAS)", "OKPAI (GAS/STEAM)",
    "OLORUNSOGO (GAS)", "OLORUNSOGO NIPP (GAS)", "OMOKU (GAS)", "OMOTOSHO (GAS)",
    "OMOTOSHO NIPP (GAS)", "PARAS ENERGY (GAS)", "RIVERS IPP (GAS)",
    "SAPELE (STEAM)", "SAPELE NIPP (GAS)", "SHIRORO (HYDRO)", "TRANS AFAM POWER",
    "TRANS-AMADI (GAS)", "ZUNGERU", "KASHIMBILA GS"
  ]

  /** The test of one master entry: its key is inside the cleaned raw
      name, or the cleaned raw name is inside its key. */
  predicate EitherWay(clean: string, master: string) {
    Contains(clean, MatchKey(master)) || Contains(MatchKey(master), clean)
  }

  /** The position of the first master entry that matches. */
  function MatchIndex(clean: string): Option<nat> {
    FirstWhere(GencoMasterList, m => EitherWay(clean, m))
  }

  /** `standardize_name`. */
  function StandardizeName(raw: RawName): (r: string)
    ensures raw.NonText? ==> r == raw.shown
    ensures raw.Text? ==>
      (r == Title(raw.s) || exists k :: 0 <= k < |GencoMasterList| && r == Title(GencoMasterList[k]))
  {
    match raw
    case NonText(shown) => shown
    case Text(s) =>
      match MatchIndex(CleanRaw(s))
      case Some(k) => Title(GencoMasterList[k])
      case None => Title(s)
  }

  /** The first entry that matches either way decides. */
  lemma StandardizeFirstMatch(s: string, k: nat)
    requires k < |GencoMasterList| && EitherWay(CleanRaw(s), GencoMasterList[k])
    requires forall j :: 0 <= j < k ==> !EitherWay(CleanRaw(s), GencoMasterList[j])
    ensures StandardizeName(Text(s)) == Title(GencoMasterList[k])
  {
    FirstWhereAt(GencoMasterList, m => EitherWay(CleanRaw(s), m), k);
  }

  /** With no entry matching, the original text is title-cased as it came. */
  lemma StandardizeNoMatch(s: string)
    requires forall j :: 0 <= j < |GencoMasterList| ==> !EitherWay(CleanRaw(s), GencoMasterList[j])
    ensures StandardizeName(Text(s)) == Title(s)
  {
  }

  /** Every name the function gives for text is already title-cased. */
  lemma StandardizeIsTitled(s: string)
    ensures Title(StandardizeName(Text(s))) == StandardizeName(Text(s))
  {
    match MatchIndex(CleanRaw(s))
    case Some(k) => TitleIdempotent(GencoMasterList[k]);
    case None => TitleIdempotent(s);
  }

  // ------------------------------------------------------------- blank names

  /** The empty text is inside every text. */
  lemma EmptyInside(t: string)
    ensures Contains(t, "")
  {
    assert OccursAt(t, "", 0);
  }

  lemma FirstTitle()
    ensures Title(GencoMasterList[0]) == "Afam Iii Fast Power"
  {
    assert GencoMasterList[0] == "AFAM III FAST POWER";
    assert Title("AFAM III FAST POWER") == "Afam Iii Fast Power";
  }

  /** A raw name that is empty or all white space is inside every key, so
      it matches the first entry. */
  lemma BlankIsFirstEntry(s: string)
    requires CleanRaw(s) == ""
    ensures StandardizeName(Text(s)) == "Afam Iii Fast Power"
  {
    EmptyInside(MatchKey(GencoMasterList[0]));
    StandardizeFirstMatch(s, 0);
    FirstTitle();
  }

  // ---------------------------------------------------- generic before NIPP

  /** The entries with a plain plant and a NIPP plant of the same name, as
      (plain position, NIPP position): here the plain plant comes first. */
  const PlainPairs: seq<(nat, nat)> := [(6, 7), (15, 16), (18, 19), (22, 23)]

  lemma GereguEntries()
    ensures GencoMasterList[6] == "GEREGU (GAS)" && GencoMasterList[7] == "GEREGU NIPP (GAS)"
  {
  }

  lemma OlorunsogoEntries()
    ensures GencoMasterList[15] == "OLORUNSOGO (GAS)" && GencoMasterList[16] == "OLORUNSOGO NIPP (GAS)"
  {
  }

  lemma OmotoshoEntries()
    ensures GencoMasterList[18] == "OMOTOSHO (GAS)" && GencoMasterList[19] == "OMOTOSHO NIPP (GAS)"
  {
  }

  lemma SapeleEntries()
    ensures GencoMasterList[22] == "SAPELE (STEAM)" && GencoMasterList[23] == "SAPELE NIPP (GAS)"
  {
  }

  lemma GereguShadow()
    ensures Contains(MatchKey("GEREGU NIPP (GAS)"), MatchKey("GEREGU (GAS)"))
  {
    KeyGereguNipp();
    KeyGeregu();
    NippHoldsPlain("geregu");
  }

  lemma OlorunsogoShadow()
    ensures Contains(MatchKey("OLORUNSOGO NIPP (GAS)"), MatchKey("OLORUNSOGO (GAS)"))
  {
    KeyOlorunsogoNipp();
    KeyOlorunsogo();
    NippHoldsPlain("olorunsogo");
  }

  lemma OmotoshoShadow()
    ensures Contains(MatchKey("OMOTOSHO NIPP (GAS)"), MatchKey("OMOTOSHO (GAS)"))
  {
    KeyOmotoshoNipp();
    KeyOmotosho();
    NippHoldsPlain("omotosho");
  }

  lemma SapeleShadow()
    ensures Contains(MatchKey("SAPELE NIPP (GAS)"), MatchKey("SAPELE (STEAM)"))
  {
    KeySapeleNipp();
    KeySapele();
    NippHoldsPlain("sapele");
  }

  lemma PlainPairKeys(p: nat)
    requires p < |PlainPairs|
    ensures PlainPairs[p].0 < PlainPairs[p].1 < |GencoMasterList|
    ensures Contains(MatchKey(GencoMasterList[PlainPairs[p].1]), MatchKey(GencoMasterList[PlainPairs[p].0]))
  {
    if p == 0 {
      GereguEntries();
      GereguShadow();
    } else if p == 1 {
      OlorunsogoEntries();
      OlorunsogoShadow();
    } else if p == 2 {
      OmotoshoEntries();
      OmotoshoShadow();
    } else {
      SapeleEntries();
      SapeleShadow();
    }
  }

  /** A name holding a NIPP key also holds the plain key of the same plant,
      which is listed first: the entry chosen is the plain one or an earlier
      one, never the NIPP one. */
  lemma GenericBeforeNipp(s: string, p: nat)
    requires p < |PlainPairs|
    requires Contains(CleanRaw(s), MatchKey(GencoMasterList[PlainPairs[p].1]))
    ensures EitherWay(CleanRaw(s), GencoMasterList[PlainPairs[p].0])
    ensures MatchIndex(CleanRaw(s)).Some?
    ensures MatchIndex(CleanRaw(s)).value <= PlainPairs[p].0 < PlainPairs[p].1
  {
    PlainPairKeys(p);
    var (plain, nipp) := PlainPairs[p];
    ContainsTransitive(CleanRaw(s), MatchKey(GencoMasterList[nipp]), MatchKey(GencoMasterList[plain]));
    FirstWhereAtMost(GencoMasterList, m => EitherWay(CleanRaw(s), m), plain);
  }

  // ---------------------------------------------------------------- scenario

  /** No opening entry matches "geregu nipp" either way. */
  lemma GereguNippMisses0(clean: string)
    requires clean == "geregu nipp"
    ensures !EitherWay(clean, GencoMasterList[0])
  {
    assert GencoMasterList[0] == "AFAM III FAST POWER";
    GereguNippMissesAfamIii(clean);
  }

  lemma GereguNippMisses1(clean: string)
    requires clean == "geregu nipp"
    ensures !EitherWay(clean, GencoMasterList[1])
  {
    assert GencoMasterList[1] == "AFAM VI (GAS/STEAM)";
    GereguNippMissesAfamVi(clean);
  }

  lemma GereguNippMisses2(clean: string)
    requires clean == "geregu nipp"
    ensures !EitherWay(clean, GencoMasterList[2])
  {
    assert GencoMasterList[2] == "AZURA-EDO IPP (GAS)";
    GereguNippMissesAzura(clean);
  }

  lemma GereguNippMisses3(clean: string)
    requires clean == "geregu nipp"
    ensures !EitherWay(clean, GencoMasterList[3])
  {
    assert GencoMasterList[3] == "DADINKOWA G.S (HYDRO)";
    GereguNippMissesDadinkowa(clean);
  }

  lemma GereguNippMisses4(clean: string)
    requires clean == "geregu nipp"
    ensures !EitherWay(clean, GencoMasterList[4])
  {
    assert GencoMasterList[4] == "DELTA (GAS)";
    GereguNippMissesDelta(clean);
  }

  lemma GereguNippMisses5(clean: string)
    requires clean == "geregu nipp"
    ensures !EitherWay(clean, GencoMasterList[5])
  {
    assert GencoMasterList[5] == "EGBIN (STEAM)";
    GereguNippMissesEgbin(clean);
  }

  lemma GereguNippMatchesPlain(clean: string)
    requires clean == "geregu nipp"
    ensures EitherWay(clean, GencoMasterList[6])
  {
    GereguEntries();
    KeyGeregu();
    NippHoldsPlain("geregu");
  }

  lemma GereguTitle()
    ensures Title(GencoMasterList[6]) == "Geregu (Gas)"
  {
    GereguEntries();
    assert Title("GEREGU (GAS)") == "Geregu (Gas)";
  }

  lemma GereguNippClean()
    ensures CleanRaw("geregu nipp") == "geregu nipp"
  {
    assert Lower("geregu nipp") == "geregu nipp";
    StrippedIsFixpoint("geregu nipp");
  }

  /** Here "geregu nipp" is the plain Geregu plant: its entry comes first
      and its key is inside the name. */
  lemma GereguNippIsPlain()
    ensures StandardizeName(Text("geregu nipp")) == "Geregu (Gas)"
  {
    GereguNippClean();
    var clean := CleanRaw("geregu nipp");
    forall j | 0 <= j < 6
      ensures !EitherWay(clean, GencoMasterList[j])
    {
      if j == 0 {
        GereguNippMisses0(clean);
      } else if j == 1 {
        GereguNippMisses1(clean);
      } else if j == 2 {
        GereguNippMisses2(clean);
      } else if j == 3 {
        GereguNippMisses3(clean);
      } else if j == 4 {
        GereguNippMisses4(clean);
      } else {
        GereguNippMisses5(clean);
      }
    }
    GereguNippMatchesPlain(clean);
    StandardizeFirstMatch("geregu nipp", 6);
    GereguTitle();
  }
}
