/**
 * The few Python `str` operations the scrapers use, restricted to ASCII:
 * `strip`, `lower`, `upper`, `title`, `find` / `in`, `split`, `replace`
 * and the ordering `<` used by `list.sort()`.
 */
module Strings {
  import opened Wrappers

  // ---------------------------------------------------------------- characters

  /** `str.isspace()` on ASCII: tab, line feed, vertical tab, form feed,
      carriage return, the four separators 0x1C..0x1F, and space. */
  predicate IsSpace(c: char) {
    (9 <= c as int <= 13) || (28 <= c as int <= 32)
  }

  predicate IsUpperAscii(c: char) { 'A' <= c <= 'Z' }
  predicate IsLowerAscii(c: char) { 'a' <= c <= 'z' }

  /** A cased character in the sense of `str.title()`. */
  predicate IsLetter(c: char) { IsUpperAscii(c) || IsLowerAscii(c) }

  function LowerChar(c: char): char {
    if IsUpperAscii(c) then (c as int + 32) as char else c
  }

  function UpperChar(c: char): char {
    if IsLowerAscii(c) then (c as int - 32) as char else c
  }

  function Lower(s: string): string {
    seq(|s|, i requires 0 <= i < |s| => LowerChar(s[i]))
  }

  function Upper(s: string): string {
    seq(|s|, i requires 0 <= i < |s| => UpperChar(s[i]))
  }

  lemma LowerSlice(s: string, i: nat, j: nat)
    requires i <= j <= |s|
    ensures Lower(s[i..j]) == Lower(s)[i..j]
  {
  }

  // ----------------------------------------------------------------- stripping

  function StripLeft(s: string): string
    decreases |s|
  {
    if s != [] && IsSpace(s[0]) then StripLeft(s[1..]) else s
  }

  function StripRight(s: string): string
    decreases |s|
  {
    if s != [] && IsSpace(s[|s| - 1]) then StripRight(s[..|s| - 1]) else s
  }

  /** `str.strip()`: the text between the leading and the trailing white space. */
  function Strip(s: string): string {
    StripLeft(StripRight(s))
  }

  /** `s` has no white space at either end. */
  predicate Stripped(s: string) {
    s == [] || (!IsSpace(s[0]) && !IsSpace(s[|s| - 1]))
  }

  /** `lstrip` drops leading white space and nothing else. */
  lemma {:induction false} StripLeftIsSuffix(s: string)
    ensures |StripLeft(s)| <= |s| && StripLeft(s) == s[|s| - |StripLeft(s)|..]
    ensures StripLeft(s) == [] || !IsSpace(StripLeft(s)[0])
    ensures forall k :: 0 <= k < |s| - |StripLeft(s)| ==> IsSpace(s[k])
    decreases |s|
  {
    if s != [] && IsSpace(s[0]) {
      StripLeftIsSuffix(s[1..]);
    }
  }

  /** `rstrip` drops trailing white space and nothing else. */
  lemma {:induction false} StripRightIsPrefix(s: string)
    ensures |StripRight(s)| <= |s| && StripRight(s) == s[..|StripRight(s)|]
    ensures StripRight(s) == [] || !IsSpace(StripRight(s)[|StripRight(s)| - 1])
    ensures forall k :: |StripRight(s)| <= k < |s| ==> IsSpace(s[k])
    decreases |s|
  {
    if s != [] && IsSpace(s[|s| - 1]) {
      StripRightIsPrefix(s[..|s| - 1]);
    }
  }

  /** `strip` removes the white space at both ends and nothing else: its
      result is the slice `s[i..j]`, everything outside it is white space,
      and the result has no white space at either end. */
  lemma StripIsSlice(s: string) returns (i: nat, j: nat)
    ensures i <= j <= |s| && Strip(s) == s[i..j]
    ensures forall k :: 0 <= k < i ==> IsSpace(s[k])
    ensures forall k :: j <= k < |s| ==> IsSpace(s[k])
    ensures Stripped(Strip(s))
  {
    var r := StripRight(s);
    StripRightIsPrefix(s);
    var l := StripLeft(r);
    StripLeftIsSuffix(r);
    i, j := |r| - |l|, |r|;
    assert l == s[i..j] by {
      assert r == s[..j];
      assert l == r[i..];
    }
  }

  lemma StrippedIsFixpoint(s: string)
    requires Stripped(s)
    ensures Strip(s) == s
  {
  }

  /** `strip` is idempotent. */
  lemma StripIdempotent(s: string)
    ensures Strip(Strip(s)) == Strip(s)
  {
    var _, _ := StripIsSlice(s);
    StrippedIsFixpoint(Strip(s));
  }

  /** `strip` gives the empty string exactly for all-white-space input. */
  lemma StripEmptyIff(s: string)
    ensures Strip(s) == [] <==> forall k :: 0 <= k < |s| ==> IsSpace(s[k])
  {
    var i, j := StripIsSlice(s);
    if Strip(s) != [] {
      assert !IsSpace(s[i]);
    }
  }

  // ------------------------------------------------------------------ searching

  /** `pat` occurs in `s` starting at offset `i`. */
  predicate OccursAt(s: string, pat: string, i: nat) {
    i + |pat| <= |s| && s[i..i + |pat|] == pat
  }

  function FindFrom(s: string, pat: string, i: nat): (r: Option<nat>)
    requires i <= |s|
    ensures r.Some? ==> i <= r.value && OccursAt(s, pat, r.value)
    ensures r.Some? ==> forall j :: i <= j < r.value ==> !OccursAt(s, pat, j)
    ensures r.None? ==> forall j :: i <= j ==> !OccursAt(s, pat, j)
    decreases |s| - i
  {
    if i + |pat| > |s| then None
    else if s[i..i + |pat|] == pat then Some(i)
    else FindFrom(s, pat, i + 1)
  }

  /** `s.find(pat)`, with `None` for Python's -1: the first offset of `pat`. */
  function Find(s: string, pat: string): (r: Option<nat>)
    ensures r.Some? ==> OccursAt(s, pat, r.value)
    ensures r.Some? ==> forall j :: 0 <= j < r.value ==> !OccursAt(s, pat, j)
    ensures r.None? ==> forall j :: 0 <= j ==> !OccursAt(s, pat, j)
  {
    FindFrom(s, pat, 0)
  }

  /** Python's `pat in s`. */
  predicate Contains(s: string, pat: string) {
    Find(s, pat).Some?
  }

  lemma ContainsAt(s: string, pat: string, i: nat)
    requires OccursAt(s, pat, i)
    ensures Contains(s, pat)
  {
  }

  /** Evidence for a concrete search result: `pat` occurs at `k` and its
      first character does not occur before `k`. */
  lemma FindFirstAt(s: string, pat: string, k: nat)
    requires |pat| > 0 && OccursAt(s, pat, k) && pat[0] !in s[..k]
    ensures Find(s, pat) == Some(k)
  {
    forall j | 0 <= j < k
      ensures !OccursAt(s, pat, j)
    {
      assert s[..k][j] != pat[0];
    }
  }

  /** Evidence for a concrete non-match: some character of `pat` is absent from `s`. */
  lemma MissingChar(s: string, pat: string, c: char)
    requires c in pat && c !in s
    ensures !Contains(s, pat)
  {
    var k :| 0 <= k < |pat| && pat[k] == c;
    forall i: nat | i + |pat| <= |s|
      ensures !OccursAt(s, pat, i)
    {
      assert s[i..i + |pat|][k] != c;
    }
  }

  /** Every character of `s` is one of `cs`. */
  predicate CharsIn(s: string, cs: set<char>) {
    forall i :: 0 <= i < |s| ==> s[i] in cs
  }

  /** Every character of `s` from `lo` up to `hi` is one of `cs`. */
  predicate CharsInRange(s: string, lo: nat, hi: nat, cs: set<char>) {
    forall i :: lo <= i < hi && i < |s| ==> s[i] in cs
  }

  lemma CharsInPrefix(s: string, k: nat, cs: set<char>)
    requires k <= |s| && CharsInRange(s, 0, k, cs)
    ensures CharsIn(s[..k], cs)
  {
    assert forall i :: 0 <= i < k ==> s[..k][i] == s[i];
  }

  lemma CharsInSuffix(s: string, k: nat, cs: set<char>)
    requires k <= |s| && CharsInRange(s, k, |s|, cs)
    ensures CharsIn(s[k..], cs)
  {
    assert forall i :: 0 <= i < |s| - k ==> s[k..][i] == s[k + i];
  }

  /** Evidence for a concrete match, character by character. */
  lemma OccursByIndex(s: string, pat: string, k: nat)
    requires k + |pat| <= |s| && forall i :: 0 <= i < |pat| ==> s[k + i] == pat[i]
    ensures OccursAt(s, pat, k)
  {
  }

  /** Evidence for a concrete non-match: a character of `pat` is outside the
      characters `s` is made of. */
  lemma AbsentChar(s: string, cs: set<char>, pat: string, c: char)
    requires CharsIn(s, cs) && c in pat && c !in cs
    ensures !Contains(s, pat)
  {
    MissingChar(s, pat, c);
  }

  /** Evidence for a concrete non-match: `pat` is longer than `s`. */
  lemma TooShort(s: string, pat: string)
    requires |s| < |pat|
    ensures !Contains(s, pat)
  {
  }

  /** A character that `pat` does not contain cuts `s` into pieces that
      can be checked separately. */
  lemma NotAcross(a: string, c: char, b: string, pat: string)
    requires c !in pat && !Contains(a, pat) && !Contains(b, pat)
    ensures !Contains(a + [c] + b, pat)
  {
    var s := a + [c] + b;
    assert s[..|a|] == a && s[|a|] == c && s[|a| + 1..] == b;
    forall i: nat | i + |pat| <= |s|
      ensures !OccursAt(s, pat, i)
    {
      if i + |pat| <= |a| {
        assert s[i..i + |pat|] == s[..|a|][i..i + |pat|];
        assert !OccursAt(a, pat, i);
      } else if i > |a| {
        var i' := i - |a| - 1;
        assert s[i..i + |pat|] == s[|a| + 1..][i'..i' + |pat|];
        assert !OccursAt(b, pat, i');
      } else {
        assert s[i..i + |pat|][|a| - i] == c;
      }
    }
  }

  /** `NotAcross` at position `k` of one text. */
  lemma NotAcrossAt(s: string, k: nat, pat: string)
    requires k < |s| && s[k] !in pat && !Contains(s[..k], pat) && !Contains(s[k + 1..], pat)
    ensures !Contains(s, pat)
  {
    assert s == s[..k] + [s[k]] + s[k + 1..];
    NotAcross(s[..k], s[k], s[k + 1..], pat);
  }

  /** Containment is stable under taking a larger text around the match. */
  lemma ContainsSlice(s: string, pat: string, i: nat, j: nat)
    requires i <= j <= |s| && Contains(s[i..j], pat)
    ensures Contains(s, pat)
  {
    var k := Find(s[i..j], pat).value;
    assert s[i + k..i + k + |pat|] == s[i..j][k..k + |pat|];
    ContainsAt(s, pat, i + k);
  }

  /** Containment is transitive. */
  lemma ContainsTransitive(a: string, b: string, c: string)
    requires Contains(a, b) && Contains(b, c)
    ensures Contains(a, c)
  {
    var i := Find(a, b).value;
    assert b == a[i..i + |b|];
    ContainsSlice(a, c, i, i + |b|);
  }

  /** Before the first occurrence there is no occurrence at all. */
  lemma PrefixBeforeFirst(s: string, pat: string)
    requires |pat| > 0 && Find(s, pat).Some?
    ensures !Contains(s[..Find(s, pat).value], pat)
  {
    var k := Find(s, pat).value;
    forall j: nat | j + |pat| <= k
      ensures !OccursAt(s[..k], pat, j)
    {
      assert s[..k][j..j + |pat|] == s[j..j + |pat|];
      assert j < k && !OccursAt(s, pat, j);
    }
  }

  // -------------------------------------------------------- splitting, joining

  /** `s.split(sep)` for a non-empty separator. */
  function Split(s: string, sep: string): (parts: seq<string>)
    requires |sep| > 0
    ensures |parts| >= 1
    ensures Contains(s, sep) <==> |parts| >= 2
    ensures forall k :: 0 <= k < |parts| ==> !Contains(parts[k], sep)
    decreases |s|
  {
    match Find(s, sep)
    case None => [s]
    case Some(i) =>
      PrefixBeforeFirst(s, sep);
      [s[..i]] + Split(s[i + |sep|..], sep)
  }

  /** `sep.join(parts)`. */
  function Join(parts: seq<string>, sep: string): string
    decreases |parts|
  {
    if parts == [] then ""
    else if |parts| == 1 then parts[0]
    else parts[0] + sep + Join(parts[1..], sep)
  }

  /** Splitting loses nothing: joining the parts gives the text back. */
  lemma {:induction false} JoinSplit(s: string, sep: string)
    requires |sep| > 0
    ensures Join(Split(s, sep), sep) == s
    decreases |s|
  {
    match Find(s, sep)
    case None =>
    case Some(i) =>
      var rest := s[i + |sep|..];
      JoinSplit(rest, sep);
      assert Split(s, sep) == [s[..i]] + Split(rest, sep);
      assert s[i..i + |sep|] == sep;
      assert s == s[..i] + sep + rest;
  }

  /** Evidence for a concrete split: without the separator the text is one part. */
  lemma SplitWithout(s: string, sep: string)
    requires |sep| > 0 && !Contains(s, sep)
    ensures Split(s, sep) == [s]
  {
  }

  /** Evidence for a concrete split at the first separator `k`. */
  lemma SplitAt(s: string, sep: string, k: nat)
    requires |sep| > 0 && Find(s, sep) == Some(k)
    ensures Split(s, sep) == [s[..k]] + Split(s[k + |sep|..], sep)
  {
  }

  // ----------------------------------------------------------------- replacing

  /** `s.replace(target, replacement)`: every occurrence, left to right, without overlap. */
  function Replace(s: string, target: string, replacement: string): string
    requires |target| > 0
    decreases |s|
  {
    match Find(s, target)
    case None => s
    case Some(i) => s[..i] + replacement + Replace(s[i + |target|..], target, replacement)
  }

  // ------------------------------------------------------------------- titling

  /** The `str.title()` form of the character at `i`: a letter is
      upper-cased when it starts a run of letters and lower-cased otherwise;
      other characters are kept. */
  function TitleChar(s: string, i: nat): char
    requires i < |s|
  {
    if !IsLetter(s[i]) then s[i]
    else if i > 0 && IsLetter(s[i - 1]) then LowerChar(s[i])
    else UpperChar(s[i])
  }

  /** `str.title()`. */
  function Title(s: string): string {
    seq(|s|, i requires 0 <= i < |s| => TitleChar(s, i))
  }

  /** Title-casing keeps letters letters and other characters as they are. */
  lemma TitleKeepsLetters(s: string, i: nat)
    requires i < |s|
    ensures IsLetter(Title(s)[i]) <==> IsLetter(s[i])
  {
  }

  /** `title()` of a title-cased text changes nothing. */
  lemma TitleIdempotent(s: string)
    ensures Title(Title(s)) == Title(s)
  {
    var t := Title(s);
    forall i | 0 <= i < |t|
      ensures Title(t)[i] == t[i]
    {
      TitleKeepsLetters(s, i);
      if i > 0 {
        TitleKeepsLetters(s, i - 1);
      }
    }
  }

  // ------------------------------------------------------------------ ordering

  /** Python's `a <= b` on strings: lexicographic by code point. */
  predicate LessEq(a: string, b: string)
    decreases |a|
  {
    a == [] || (b != [] && (a[0] < b[0] || (a[0] == b[0] && LessEq(a[1..], b[1..]))))
  }

  lemma {:induction false} LessEqReflexive(a: string)
    ensures LessEq(a, a)
    decreases |a|
  {
    if a != [] {
      LessEqReflexive(a[1..]);
    }
  }

  lemma {:induction false} LessEqTotal(a: string, b: string)
    ensures LessEq(a, b) || LessEq(b, a)
    decreases |a|
  {
    if a != [] && b != [] && a[0] == b[0] {
      LessEqTotal(a[1..], b[1..]);
    }
  }

  lemma {:induction false} LessEqTransitive(a: string, b: string, c: string)
    requires LessEq(a, b) && LessEq(b, c)
    ensures LessEq(a, c)
    decreases |a|
  {
    if a != [] && a[0] == b[0] && b[0] == c[0] {
      LessEqTransitive(a[1..], b[1..], c[1..]);
    }
  }

  lemma {:induction false} LessEqAntisymmetric(a: string, b: string)
    requires LessEq(a, b) && LessEq(b, a)
    ensures a == b
    decreases |a|
  {
    if a != [] {
      LessEqAntisymmetric(a[1..], b[1..]);
      assert a == [a[0]] + a[1..] && b == [b[0]] + b[1..];
    }
  }
}
