/**
 * `parse_date` of scrapers/cargo_processor.py. Each `strptime` format is an
 * opaque partial parser handed in as `strptime`; the model fixes what
 * `parse_date` itself does around it: the blank values, the "DATE:" label,
 * the SEPT spelling, the order of the formats and the fall-back to the
 * original text.
 */
module CargoDates {
  import opened Wrappers
  import opened Strings
  import opened Search

  /** The seven `strptime` formats, named by their layout. */
  datatype DateFormat =
    | DayMonAbbrYear2       // %d-%b-%y
    | DayMonAbbrYear4       // %d-%b-%Y
    | DayMonthYearDash      // %d-%m-%Y
    | DaySpaceMonAbbrYear2  // %d %b-%y
    | DayMonthYearSlash     // %d/%m/%Y
    | IsoYearMonthDay       // %Y-%m-%d
    | DayMonthYearDot       // %d.%m.%Y

  /** The order in which `parse_date` tries the formats. */
  const Formats: seq<DateFormat> := [
    DayMonAbbrYear2, DayMonAbbrYear4, DayMonthYearDash, DaySpaceMonAbbrYear2,
    DayMonthYearSlash, IsoYearMonthDay, DayMonthYearDot
  ]

  /** A calendar date as `datetime.strptime` returns it. */
  datatype Date = Date(year: int, month: int, day: int)

  /** `datetime.strptime(text, fmt)`: the date, or `None` for its ValueError. */
  type Parser = (string, DateFormat) -> Option<Date>

  /** What a date column holds: no date (`None`), a parsed date, or text. */
  datatype DateField = NoDate | Parsed(date: Date) | Text(text: string)

  /** Values that `parse_date` treats as "no date" once stripped. */
  predicate IsBlankDate(s: string) {
    var t := Strip(s);
    t == "-" || t == "" || t == "None"
  }

  /** The text handed to the formats: stripped and upper-cased, cut to the
      part after the first "DATE:" label, with SEPT spelt SEP. */
  function NormalizeDateText(s: string): string {
    var up := Upper(Strip(s));
    var afterLabel := if Contains(up, "DATE:") then Strip(Split(up, "DATE:")[1]) else up;
    Replace(afterLabel, "SEPT", "SEP")
  }

  /** Format `k` is the first to accept `text`, and reads it as `date`. */
  predicate FirstAccepting(text: string, strptime: Parser, k: nat, date: Date)
    requires k < |Formats|
  {
    strptime(text, Formats[k]) == Some(date) &&
    forall j :: 0 <= j < k ==> strptime(text, Formats[j]).None?
  }

  /** `parse_date`. */
  function ParseDate(s: string, strptime: Parser): (r: DateField)
    ensures r == NoDate <==> IsBlankDate(s)
    ensures r.Text? ==> (r.text == s &&
      forall k :: 0 <= k < |Formats| ==> strptime(NormalizeDateText(s), Formats[k]).None?)
    ensures r.Parsed? ==>
      exists k :: 0 <= k < |Formats| && FirstAccepting(NormalizeDateText(s), strptime, k, r.date)
  {
    if s == "" || IsBlankDate(s) then NoDate
    else
      var text := NormalizeDateText(s);
      match FirstWhere(Formats, f => strptime(text, f).Some?)
      case Some(k) =>
        assert FirstAccepting(text, strptime, k, strptime(text, Formats[k]).value);
        Parsed(strptime(text, Formats[k]).value)
      case None => Text(s)
  }

  /** The first format that accepts the normalised text decides the date. */
  lemma FirstFormatWins(s: string, strptime: Parser, k: nat)
    requires !IsBlankDate(s) && k < |Formats|
    requires strptime(NormalizeDateText(s), Formats[k]).Some?
    requires forall j :: 0 <= j < k ==> strptime(NormalizeDateText(s), Formats[j]).None?
    ensures ParseDate(s, strptime) == Parsed(strptime(NormalizeDateText(s), Formats[k]).value)
  {
    FirstWhereAt(Formats, f => strptime(NormalizeDateText(s), f).Some?, k);
  }

  /** Text already stripped, upper-cased and without a label only has its
      SEPT spelling changed. */
  lemma NormalizePlain(s: string)
    requires Stripped(s) && Upper(s) == s && !Contains(s, "DATE:")
    ensures NormalizeDateText(s) == Replace(s, "SEPT", "SEP")
  {
    StrippedIsFixpoint(s);
  }

  /** Text whose upper-cased form starts with the label is read from the
      text after it. */
  lemma NormalizeLabelled(s: string, rest: string)
    requires Stripped(s) && Upper(s) == "DATE:" + rest && !Contains(rest, "DATE:")
    ensures NormalizeDateText(s) == Replace(Strip(rest), "SEPT", "SEP")
  {
    StrippedIsFixpoint(s);
    var up := Upper(s);
    assert Find(up, "DATE:") == Some(0) by {
      assert up[0..5] == "DATE:";
      assert OccursAt(up, "DATE:", 0);
    }
    assert Split(up, "DATE:")[1] == rest by {
      assert up[5..] == rest;
      SplitAt(up, "DATE:", 0);
      SplitWithout(rest, "DATE:");
    }
  }

  /** Text with the same normalised form and the same blankness is parsed
      alike. */
  lemma SameNormalForm(s: string, t: string, strptime: Parser)
    requires NormalizeDateText(s) == NormalizeDateText(t)
    requires !IsBlankDate(s) && !IsBlankDate(t)
    ensures ParseDate(s, strptime).Parsed? <==> ParseDate(t, strptime).Parsed?
    ensures ParseDate(s, strptime).Parsed? ==> ParseDate(s, strptime) == ParseDate(t, strptime)
  {
  }

  lemma SeptFacts()
    ensures Stripped("15-SEPT-23") && Upper("15-SEPT-23") == "15-SEPT-23"
    ensures Stripped("15-SEP-23") && Upper("15-SEP-23") == "15-SEP-23"
    ensures Strip("15-SEPT-23") == "15-SEPT-23" && Strip("15-SEP-23") == "15-SEP-23"
  {
    StrippedIsFixpoint("15-SEPT-23");
    StrippedIsFixpoint("15-SEP-23");
  }

  lemma SeptNoLabel()
    ensures !Contains("15-SEPT-23", "DATE:") && !Contains("15-SEP-23", "DATE:")
  {
    MissingChar("15-SEPT-23", "DATE:", 'D');
    MissingChar("15-SEP-23", "DATE:", 'D');
  }

  lemma SeptFound()
    ensures Find("15-SEPT-23", "SEPT") == Some(3)
    ensures "15-SEPT-23"[..3] == "15-" && "15-SEPT-23"[7..] == "-23"
  {
    var a := "15-SEPT-23";
    assert a[..3] == "15-" && a[3..7] == "SEPT" && a[7..] == "-23";
    FindFirstAt(a, "SEPT", 3);
  }

  lemma SeptReplaced()
    ensures Replace("15-SEPT-23", "SEPT", "SEP") == "15-SEP-23"
    ensures Replace("15-SEP-23", "SEPT", "SEP") == "15-SEP-23"
  {
    SeptFound();
    MissingChar("-23", "SEPT", 'S');
    assert Replace("-23", "SEPT", "SEP") == "-23";
    assert Replace("15-SEPT-23", "SEPT", "SEP") == "15-" + "SEP" + "-23";
    MissingChar("15-SEP-23", "SEPT", 'T');
  }

  /** "15-SEPT-23" is read as "15-SEP-23": both reach the formats as
      "15-SEP-23", so one is parsed to a date exactly when the other is. */
  lemma SeptReadAsSep(strptime: Parser)
    ensures NormalizeDateText("15-SEPT-23") == "15-SEP-23"
    ensures NormalizeDateText("15-SEP-23") == "15-SEP-23"
    ensures ParseDate("15-SEPT-23", strptime).Parsed? <==> ParseDate("15-SEP-23", strptime).Parsed?
    ensures ParseDate("15-SEPT-23", strptime).Parsed? ==>
      ParseDate("15-SEPT-23", strptime) == ParseDate("15-SEP-23", strptime)
  {
    SeptFacts();
    SeptNoLabel();
    SeptReplaced();
    NormalizePlain("15-SEPT-23");
    NormalizePlain("15-SEP-23");
    SameNormalForm("15-SEPT-23", "15-SEP-23", strptime);
  }

  lemma LabelUpper()
    ensures Upper("DATE: 10-Jan-24") == "DATE:" + " 10-JAN-24"
  {
    var u := Upper("DATE: 10-Jan-24");
    assert u[..10] == "DATE: 10-J";
    assert u[10..13] == "AN-";
    assert u[13..] == "24";
    assert u == u[..10] + u[10..13] + u[13..];
  }

  lemma LabelFacts()
    ensures Stripped("DATE: 10-Jan-24")
    ensures Upper("DATE: 10-Jan-24") == "DATE:" + " 10-JAN-24"
    ensures !Contains(" 10-JAN-24", "DATE:")
  {
    LabelUpper();
    MissingChar(" 10-JAN-24", "DATE:", 'D');
  }

  lemma LabelRest()
    ensures Strip(" 10-JAN-24") == "10-JAN-24"
    ensures Replace("10-JAN-24", "SEPT", "SEP") == "10-JAN-24"
  {
    assert StripRight(" 10-JAN-24") == " 10-JAN-24";
    assert " 10-JAN-24"[1..] == "10-JAN-24";
    MissingChar("10-JAN-24", "SEPT", 'S');
  }

  /** A "DATE:" label is dropped before the formats are tried:
      "DATE: 10-Jan-24" reaches them as "10-JAN-24". */
  lemma DateLabelDropped()
    ensures NormalizeDateText("DATE: 10-Jan-24") == "10-JAN-24"
  {
    LabelFacts();
    LabelRest();
    NormalizeLabelled("DATE: 10-Jan-24", " 10-JAN-24");
  }
}
