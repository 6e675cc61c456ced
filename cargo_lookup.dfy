/**
 * Jetty text resolution for the cargo manifest parser
 * (scrapers/cargo_processor.py): the canonical jetty name, the state a
 * jetty lies in, and the foreign-port filter.
 */
module CargoLookup {
  import opened Wrappers
  import opened Strings
  import opened Search

  /** `JETTY_STATE_MAPPING`, in insertion order: a location keyword and the
      state it lies in. The first keyword contained in the text decides.
      The dictionary is written state by state, in its own order. */
  const JettyStateMapping: seq<(string, string)> :=
    LagosJetties + RiversJetties + DeltaJetties + EasternJetties

  const LagosJetties: seq<(string, string)> := [
    ("LAGOS", "Lagos"), ("APAPA", "Lagos"), ("TINCAN", "Lagos"), ("TIN CAN", "Lagos"),
    ("ATLAS COVE", "Lagos"), ("IJEGUN", "Lagos"), ("KIRIKIRI", "Lagos"),
    ("FOLAWIYO", "Lagos"), ("PPMC", "Lagos"), ("NACJ", "Lagos"), ("SBM", "Lagos"),
    ("NOJ", "Lagos"), ("BOP", "Lagos"), ("FISHERY", "Lagos"), ("MARINA", "Lagos")
  ]

  const RiversJetties: seq<(string, string)> := [
    ("PORT HARCOURT", "Rivers"), ("RIVERS", "Rivers"), ("ONNE", "Rivers"),
    ("OKRIKA", "Rivers"), ("BONNY", "Rivers"), ("DAWES", "Rivers"), ("PHRC", "Rivers")
  ]

  const DeltaJetties: seq<(string, string)> := [
    ("WARRI", "Delta"), ("DELTA", "Delta"), ("ESCRAVOS", "Delta"), ("FORCADOS", "Delta"),
    ("KOKO", "Delta"), ("BURUTU", "Delta"), ("BENETH", "Delta"), ("BENNETT", "Delta"),
    ("OGHARA", "Delta"), ("WRPC", "Delta")
  ]

  const EasternJetties: seq<(string, string)> := [
    ("CALABAR", "Cross River"),
    ("IBENO", "Akwa Ibom"), ("EKET", "Akwa Ibom"), ("IBAKA", "Akwa Ibom")
  ]

  /** `FOREIGN_KEYWORDS`: jetties in these places are not part of the report. */
  const ForeignKeywords: seq<string> :=
    ["GHANA", "ABIDJAN", "LOME", "TOGO", "COTONOU", "BENIN", "IVORY COAST"]

  /** The coordinate annotation that `clean_jetty_name` cuts off. */
  const LatMarker := " lat"

  /** `clean_jetty_name`: the text before the first case-insensitive " lat",
      stripped; empty input gives "". */
  function CleanJettyName(text: string): string {
    if text == "" then ""
    else
      var cut := match Find(Lower(text), LatMarker)
        case Some(i) => text[..i]
        case None => text;
      Strip(cut)
  }

  /** The cleaned name never carries a " lat" annotation, in any case. */
  lemma CleanHasNoLat(text: string)
    ensures !Contains(Lower(CleanJettyName(text)), LatMarker)
  {
    if text != "" {
      var cut := match Find(Lower(text), LatMarker)
        case Some(i) => text[..i]
        case None => text;
      assert !Contains(Lower(cut), LatMarker) by {
        match Find(Lower(text), LatMarker)
        case Some(i) =>
          PrefixBeforeFirst(Lower(text), LatMarker);
          LowerSlice(text, 0, i);
          assert Lower(text)[..i] == Lower(text[..i]);
        case None =>
      }
      var i, j := StripIsSlice(cut);
      LowerSlice(cut, i, j);
      if Contains(Lower(Strip(cut)), LatMarker) {
        ContainsSlice(Lower(cut), LatMarker, i, j);
      }
    }
  }

  /** Cleaning is idempotent: a cleaned name is its own cleaned name. */
  lemma CleanIdempotent(text: string)
    ensures CleanJettyName(CleanJettyName(text)) == CleanJettyName(text)
  {
    var c := CleanJettyName(text);
    if c != "" {
      CleanHasNoLat(text);
      StripIdempotent(if text == "" then "" else match Find(Lower(text), LatMarker)
        case Some(i) => text[..i]
        case None => text);
    }
  }

  /** `is_foreign_entry`: some foreign keyword occurs in the upper-cased text. */
  predicate IsForeignEntry(info: string) {
    info != "" && FirstWhere(ForeignKeywords, k => Contains(Upper(info), k)).Some?
  }

  lemma ForeignIff(info: string)
    ensures IsForeignEntry(info) <==>
      exists k :: 0 <= k < |ForeignKeywords| && Contains(Upper(info), ForeignKeywords[k])
  {
    if info == "" {
      forall k | 0 <= k < |ForeignKeywords|
        ensures !Contains(Upper(info), ForeignKeywords[k])
      {
        TooShort(Upper(info), ForeignKeywords[k]);
      }
    }
  }

  /** The index in `JettyStateMapping` of the first keyword the text contains. */
  function StateKeyIndex(info: string): Option<nat> {
    FirstWhere(JettyStateMapping, (e: (string, string)) => Contains(Upper(info), e.0))
  }

  predicate NonEmptyPairs(m: seq<(string, string)>) {
    forall e :: e in m ==> e.0 != "" && e.1 != ""
  }

  lemma LagosNonEmpty() ensures NonEmptyPairs(LagosJetties) {}
  lemma RiversNonEmpty() ensures NonEmptyPairs(RiversJetties) {}
  lemma DeltaNonEmpty() ensures NonEmptyPairs(DeltaJetties) {}
  lemma EasternNonEmpty() ensures NonEmptyPairs(EasternJetties) {}

  /** Every keyword and every region of the mapping is non-empty. */
  lemma MappingNonEmpty()
    ensures forall e :: e in JettyStateMapping ==> e.0 != "" && e.1 != ""
  {
    LagosNonEmpty();
    RiversNonEmpty();
    DeltaNonEmpty();
    EasternNonEmpty();
  }

  /** `get_state_from_jetty`: the state of the first mapping keyword that
      occurs in the upper-cased text, or "" when none does. */
  function GetStateFromJetty(info: string): (state: string)
    ensures state == "" <==>
      forall k :: 0 <= k < |JettyStateMapping| ==> !Contains(Upper(info), JettyStateMapping[k].0)
  {
    MappingNonEmpty();
    if info == "" then
      assert forall k :: 0 <= k < |JettyStateMapping| ==> !Contains(Upper(info), JettyStateMapping[k].0) by {
        forall k | 0 <= k < |JettyStateMapping|
          ensures !Contains(Upper(info), JettyStateMapping[k].0)
        {
          assert JettyStateMapping[k] in JettyStateMapping;
          TooShort(Upper(info), JettyStateMapping[k].0);
        }
      }
      ""
    else match StateKeyIndex(info)
      case Some(k) =>
        assert JettyStateMapping[k] in JettyStateMapping;
        JettyStateMapping[k].1
      case None => ""
  }

  /** The state is the one of the first keyword in mapping order that
      the upper-cased text contains. */
  lemma StateIsFirstMatch(info: string, k: nat)
    requires k < |JettyStateMapping| && Contains(Upper(info), JettyStateMapping[k].0)
    requires forall j :: 0 <= j < k ==> !Contains(Upper(info), JettyStateMapping[j].0)
    ensures GetStateFromJetty(info) == JettyStateMapping[k].1
  {
    MappingNonEmpty();
    assert JettyStateMapping[k] in JettyStateMapping;
    FirstWhereAt(JettyStateMapping, (e: (string, string)) => Contains(Upper(info), e.0), k);
  }

  /** A jetty announced as "APAPA" lies in Lagos: "LAGOS" is tried first and
      does not occur, "APAPA" does. */
  lemma ApapaIsLagos()
    ensures GetStateFromJetty("APAPA") == "Lagos"
  {
    assert Upper("APAPA") == "APAPA";
    MissingChar("APAPA", "LAGOS", 'L');
    FindFirstAt("APAPA", "APAPA", 0);
    StateIsFirstMatch("APAPA", 1);
  }

  /** Any jetty naming Ghana is foreign and so excluded. */
  lemma GhanaIsForeign(info: string)
    requires Contains(Upper(info), "GHANA")
    ensures IsForeignEntry(info)
  {
    FirstWhereAtMost(ForeignKeywords, k => Contains(Upper(info), k), 0);
  }
}
