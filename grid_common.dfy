/**
 * What the two grid scrapers, scrapers/niggrid_scraper.py and
 * scrapers/scraper.py, share: the raw station name as the web table gives
 * it, the match key of a master-list entry, and the inclusive day range.
 */
module GridCommon {
  import opened Wrappers
  import opened Strings

  /** A raw station name: text, or any other table value, which the
      scrapers hand back as its `str(...)` rendering `shown`. */
  datatype RawName = Text(s: string) | NonText(shown: string)

  /** The key a master entry matches on: lower-cased, cut before the first
      "(", stripped. */
  function MatchKey(master: string): string {
    Strip(Split(Lower(master), "(")[0])
  }

  /** The raw text as the master keys are compared with it. */
  function CleanRaw(s: string): string {
    Strip(Lower(s))
  }

  /** Trailing white space is all that `strip` takes from a text that
      starts and ends otherwise. */
  lemma StripPadded(key: string, pad: string)
    requires key != [] && !IsSpace(key[0]) && !IsSpace(key[|key| - 1])
    requires forall i :: 0 <= i < |pad| ==> IsSpace(pad[i])
    ensures Strip(key + pad) == key
    decreases |pad|
  {
    if pad != [] {
      assert (key + pad)[..|key + pad| - 1] == key + pad[..|pad| - 1];
      StripPadded(key, pad[..|pad| - 1]);
    } else {
      assert key + pad == key;
    }
  }

  /** Evidence for a concrete key: `low` is the lower-cased entry, its first
      "(" is at `k` (or there is none, `k == |low|`), and the text before it
      is `key` followed by white space. */
  lemma MatchKeyIs(master: string, low: string, k: nat, key: string, pad: string)
    requires Lower(master) == low && k <= |low|
    requires '(' !in low[..k] && (k < |low| ==> low[k] == '(')
    requires low[..k] == key + pad
    requires key != [] && !IsSpace(key[0]) && !IsSpace(key[|key| - 1])
    requires forall i :: 0 <= i < |pad| ==> IsSpace(pad[i])
    ensures MatchKey(master) == key
  {
    StripPadded(key, pad);
    if k == |low| {
      assert low[..k] == low;
      MissingChar(low, "(", '(');
      SplitWithout(low, "(");
    } else {
      assert OccursAt(low, "(", k);
      FindFirstAt(low, "(", k);
      assert Split(low, "(")[0] == low[..k];
    }
  }

  // ------------------------------------------------ keys of named entries
  lemma KeyAfamIii()
    ensures MatchKey("AFAM III FAST POWER") == "afam iii fast power"
  {
    assert Lower("AFAM III FAST POWER") == "afam iii fast power";
    MatchKeyIs("AFAM III FAST POWER", "afam iii fast power", 19, "afam iii fast power", "");
  }

  lemma KeyAfamVi()
    ensures MatchKey("AFAM VI (GAS/STEAM)") == "afam vi"
  {
    assert Lower("AFAM VI (GAS/STEAM)") == "afam vi (gas/steam)";
    MatchKeyIs("AFAM VI (GAS/STEAM)", "afam vi (gas/steam)", 8, "afam vi", " ");
  }

  lemma KeyAzura()
    ensures MatchKey("AZURA-EDO IPP (GAS)") == "azura-edo ipp"
  {
    assert Lower("AZURA-EDO IPP (GAS)") == "azura-edo ipp (gas)";
    MatchKeyIs("AZURA-EDO IPP (GAS)", "azura-edo ipp (gas)", 14, "azura-edo ipp", " ");
  }

  lemma KeyDadinkowa()
    ensures MatchKey("DADINKOWA G.S (HYDRO)") == "dadinkowa g.s"
  {
    assert Lower("DADINKOWA G.S (HYDRO)") == "dadinkowa g.s (hydro)";
    MatchKeyIs("DADINKOWA G.S (HYDRO)", "dadinkowa g.s (hydro)", 14, "dadinkowa g.s", " ");
  }

  lemma KeyDelta()
    ensures MatchKey("DELTA (GAS)") == "delta"
  {
    assert Lower("DELTA (GAS)") == "delta (gas)";
    MatchKeyIs("DELTA (GAS)", "delta (gas)", 6, "delta", " ");
  }

  lemma KeyEgbin()
    ensures MatchKey("EGBIN (STEAM)") == "egbin"
  {
    assert Lower("EGBIN (STEAM)") == "egbin (steam)";
    MatchKeyIs("EGBIN (STEAM)", "egbin (steam)", 6, "egbin", " ");
  }

  lemma KeyGereguNipp()
    ensures MatchKey("GEREGU NIPP (GAS)") == "geregu nipp"
  {
    assert Lower("GEREGU NIPP (GAS)") == "geregu nipp (gas)";
    MatchKeyIs("GEREGU NIPP (GAS)", "geregu nipp (gas)", 12, "geregu nipp", " ");
  }

  lemma KeyGeregu()
    ensures MatchKey("GEREGU (GAS)") == "geregu"
  {
    assert Lower("GEREGU (GAS)") == "geregu (gas)";
    MatchKeyIs("GEREGU (GAS)", "geregu (gas)", 7, "geregu", " ");
  }

  lemma KeyOlorunsogoNipp()
    ensures MatchKey("OLORUNSOGO NIPP (GAS)") == "olorunsogo nipp"
  {
    assert Lower("OLORUNSOGO NIPP (GAS)") == "olorunsogo nipp (gas)";
    MatchKeyIs("OLORUNSOGO NIPP (GAS)", "olorunsogo nipp (gas)", 16, "olorunsogo nipp", " ");
  }

  lemma KeyOlorunsogo()
    ensures MatchKey("OLORUNSOGO (GAS)") == "olorunsogo"
  {
    assert Lower("OLORUNSOGO (GAS)") == "olorunsogo (gas)";
    MatchKeyIs("OLORUNSOGO (GAS)", "olorunsogo (gas)", 11, "olorunsogo", " ");
  }

  lemma KeyOmotoshoNipp()
    ensures MatchKey("OMOTOSHO NIPP (GAS)") == "omotosho nipp"
  {
    assert Lower("OMOTOSHO NIPP (GAS)") == "omotosho nipp (gas)";
    MatchKeyIs("OMOTOSHO NIPP (GAS)", "omotosho nipp (gas)", 14, "omotosho nipp", " ");
  }

  lemma KeyOmotosho()
    ensures MatchKey("OMOTOSHO (GAS)") == "omotosho"
  {
    assert Lower("OMOTOSHO (GAS)") == "omotosho (gas)";
    MatchKeyIs("OMOTOSHO (GAS)", "omotosho (gas)", 9, "omotosho", " ");
  }

  lemma KeySapeleNipp()
    ensures MatchKey("SAPELE NIPP (GAS)") == "sapele nipp"
  {
    assert Lower("SAPELE NIPP (GAS)") == "sapele nipp (gas)";
    MatchKeyIs("SAPELE NIPP (GAS)", "sapele nipp (gas)", 12, "sapele nipp", " ");
  }

  lemma KeySapele()
    ensures MatchKey("SAPELE (STEAM)") == "sapele"
  {
    assert Lower("SAPELE (STEAM)") == "sapele (steam)";
    MatchKeyIs("SAPELE (STEAM)", "sapele (steam)", 7, "sapele", " ");
  }

  /** A NIPP key holds the plain key of the same plant at its start. */
  lemma NippHoldsPlain(plain: string)
    ensures Contains(plain + " nipp", plain)
  {
    assert OccursAt(plain + " nipp", plain, 0);
  }

  // ------------------------------------ "geregu nipp" against the opening keys

  /** The six entries both lists open with share no text with "geregu
      nipp" in either direction. */
  lemma GereguNippMissesAfamIii(clean: string)
    requires clean == "geregu nipp"
    ensures !Contains(clean, MatchKey("AFAM III FAST POWER")) && !Contains(MatchKey("AFAM III FAST POWER"), clean)
  {
    KeyAfamIii();
    TooShort(clean, "afam iii fast power");
    MissingChar("afam iii fast power", clean, 'g');
  }

  lemma GereguNippMissesAfamVi(clean: string)
    requires clean == "geregu nipp"
    ensures !Contains(clean, MatchKey("AFAM VI (GAS/STEAM)")) && !Contains(MatchKey("AFAM VI (GAS/STEAM)"), clean)
  {
    KeyAfamVi();
    MissingChar(clean, "afam vi", 'a');
    TooShort("afam vi", clean);
  }

  lemma GereguNippMissesAzura(clean: string)
    requires clean == "geregu nipp"
    ensures !Contains(clean, MatchKey("AZURA-EDO IPP (GAS)")) && !Contains(MatchKey("AZURA-EDO IPP (GAS)"), clean)
  {
    KeyAzura();
    MissingChar(clean, "azura-edo ipp", 'a');
    MissingChar("azura-edo ipp", clean, 'g');
  }

  lemma GereguNippMissesDadinkowa(clean: string)
    requires clean == "geregu nipp"
    ensures !Contains(clean, MatchKey("DADINKOWA G.S (HYDRO)")) && !Contains(MatchKey("DADINKOWA G.S (HYDRO)"), clean)
  {
    KeyDadinkowa();
    MissingChar(clean, "dadinkowa g.s", 'a');
    MissingChar("dadinkowa g.s", clean, 'r');
  }

  lemma GereguNippMissesDelta(clean: string)
    requires clean == "geregu nipp"
    ensures !Contains(clean, MatchKey("DELTA (GAS)")) && !Contains(MatchKey("DELTA (GAS)"), clean)
  {
    KeyDelta();
    MissingChar(clean, "delta", 'd');
    TooShort("delta", clean);
  }

  lemma GereguNippMissesEgbin(clean: string)
    requires clean == "geregu nipp"
    ensures !Contains(clean, MatchKey("EGBIN (STEAM)")) && !Contains(MatchKey("EGBIN (STEAM)"), clean)
  {
    KeyEgbin();
    MissingChar(clean, "egbin", 'b');
    TooShort("egbin", clean);
  }

  // ---------------------------------------------------------------- the days

  /** `get_date_range` on day numbers: the days from `start` to `end`, both
      included, one apart; nothing when `end` comes before `start`. */
  function DayRange(start: int, end: int): (days: seq<int>)
    ensures |days| == if end < start then 0 else end - start + 1
    ensures forall i :: 0 <= i < |days| ==> days[i] == start + i
  {
    if end < start then [] else seq(end - start + 1, i requires 0 <= i <= end - start => start + i)
  }

  /** `get_date_range`: both texts are parsed with the "%Y-%m-%d" format
      (here `parseIso`, giving a day number, or `None` where `strptime`
      raises) and the range between them is returned. */
  function GetDateRange(startText: string, endText: string, parseIso: string -> Option<int>): (r: Option<seq<int>>)
    ensures r.Some? <==> parseIso(startText).Some? && parseIso(endText).Some?
    ensures r.Some? ==> r.value == DayRange(parseIso(startText).value, parseIso(endText).value)
  {
    match (parseIso(startText), parseIso(endText))
    case (Some(start), Some(end)) => Some(DayRange(start, end))
    case _ => None
  }

  /** A range holds no day outside its two ends. */
  lemma DayRangeBounds(start: int, end: int, d: int)
    requires d in DayRange(start, end)
    ensures start <= d <= end
  {
  }

  /** A range splits at any day: the days up to it, then the rest. */
  lemma {:induction false} DayRangeSplit(start: int, mid: int, end: int)
    requires start <= mid <= end
    ensures DayRange(start, end) == DayRange(start, mid) + DayRange(mid + 1, end)
  {
    var whole, left, right := DayRange(start, end), DayRange(start, mid), DayRange(mid + 1, end);
    assert |whole| == |left| + |right|;
    forall i | 0 <= i < |whole| ensures whole[i] == (left + right)[i] {
      if i >= |left| {
        assert (left + right)[i] == right[i - |left|];
      }
    }
  }
}
