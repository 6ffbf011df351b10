/**
 * The string operations the server relies on from Python's `str`:
 * `lower`, `rstrip`/`strip`, `in`/`index`, `split`, `join`, `replace`,
 * `str(int)` and `int(str)`.  Characters are handled in ASCII only
 * (see README, "Left out").
 */
module Strings {
  import opened Wrappers

  // ---------------------------------------------------------------------
  // Case folding and whitespace

  function LowerChar(c: char): char {
    if 'A' <= c <= 'Z' then (c as int + 32) as char else c
  }

  /** `s.lower()` */
  function Lower(s: string): (r: string)
    ensures |r| == |s|
    ensures forall i :: 0 <= i < |s| ==> r[i] == LowerChar(s[i])
  {
    seq(|s|, i requires 0 <= i < |s| => LowerChar(s[i]))
  }

  /** Lower-casing twice is lower-casing once: a lower-cased lookup key is its own key. */
  lemma LowerIdempotent(s: string)
    ensures Lower(Lower(s)) == Lower(s)
  {
    assert forall i :: 0 <= i < |s| ==> Lower(Lower(s))[i] == Lower(s)[i];
  }

  /** The characters Python's `str.split()`/`strip()` treat as white space (ASCII part). */
  predicate IsSpace(c: char) {
    c == ' ' || c == '\t' || c == '\n' || c == '\r' || c as int == 11 || c as int == 12
  }

  /** `s.rstrip()`: the longest prefix of `s` that does not end in white space
      and after which only white space follows. */
  function RStrip(s: string): (r: string)
    ensures r <= s
    ensures r == [] || !IsSpace(r[|r| - 1])
    ensures forall i :: |r| <= i < |s| ==> IsSpace(s[i])
    decreases |s|
  {
    if s != [] && IsSpace(s[|s| - 1]) then RStrip(s[..|s| - 1]) else s
  }

  /** `s.lstrip()` */
  function LStrip(s: string): string
    decreases |s|
  {
    if s != [] && IsSpace(s[0]) then LStrip(s[1..]) else s
  }

  /** `lstrip` removes a prefix made only of white space, and what it keeps
      does not start with white space. */
  lemma {:induction false} LStripRemovesSpace(s: string)
    ensures var r := LStrip(s);
      |r| <= |s| && r == s[|s| - |r|..] && (r == [] || !IsSpace(r[0]))
      && forall i :: 0 <= i < |s| - |r| ==> IsSpace(s[i])
    decreases |s|
  {
    if s != [] && IsSpace(s[0]) {
      LStripRemovesSpace(s[1..]);
      assert s[1..][|s| - 1 - |LStrip(s)|..] == s[|s| - |LStrip(s)|..];
    }
  }

  /** `s.strip()` */
  function Strip(s: string): string {
    LStrip(RStrip(s))
  }

  // ---------------------------------------------------------------------
  // Searching

  /** `pat` occurs in `s` starting at index `i`. */
  predicate OccursAt(s: string, pat: string, i: nat) {
    i + |pat| <= |s| && s[i..i + |pat|] == pat
  }

  /** The index of the first occurrence of `pat` in `s` (`s.find(pat)`, with
      `None` for -1); `pat in s` is `IndexOf(s, pat).Some?`. */
  function IndexOf(s: string, pat: string): (r: Option<nat>)
    ensures r.Some? ==> OccursAt(s, pat, r.value)
    ensures r.Some? ==> forall j: nat :: j < r.value ==> !OccursAt(s, pat, j)
    ensures r.None? ==> forall j: nat :: !OccursAt(s, pat, j)
    decreases |s|
  {
    if |pat| > |s| then None
    else if s[..|pat|] == pat then Some(0)
    else
      OccursShift(s, pat);
      match IndexOf(s[1..], pat)
      case None => None
      case Some(i) => Some(i + 1)
  }

  /** An occurrence in `s` past its first character is an occurrence in `s[1..]`. */
  lemma OccursShift(s: string, pat: string)
    requires s != []
    ensures forall j: nat :: 1 <= j ==> (OccursAt(s, pat, j) <==> OccursAt(s[1..], pat, j - 1))
  {
    forall j: nat | 1 <= j
      ensures OccursAt(s, pat, j) <==> OccursAt(s[1..], pat, j - 1)
    {
      if j + |pat| <= |s| {
        assert s[1..][j - 1..j - 1 + |pat|] == s[j..j + |pat|];
      }
    }
  }

  /** An occurrence inside a prefix is an occurrence in the whole string. */
  lemma OccursInPrefix(s: string, k: nat, pat: string, j: nat)
    requires k <= |s|
    requires OccursAt(s[..k], pat, j)
    ensures OccursAt(s, pat, j) && j + |pat| <= k
  {
    assert s[..k][j..j + |pat|] == s[j..j + |pat|];
  }

  /** `s.endswith(suffix)` */
  predicate EndsWith(s: string, suffix: string) {
    |suffix| <= |s| && s[|s| - |suffix|..] == suffix
  }

  // ---------------------------------------------------------------------
  // split / join / replace

  /** `sep.join(parts)` */
  function JoinWith(parts: seq<string>, sep: string): string
    decreases |parts|
  {
    if parts == [] then ""
    else if |parts| == 1 then parts[0]
    else parts[0] + sep + JoinWith(parts[1..], sep)
  }

  /** `s.split(sep)` for a non-empty separator: the pieces between the
      non-overlapping occurrences of `sep`, scanned from the left. */
  function Split(s: string, sep: string): (r: seq<string>)
    requires |sep| > 0
    ensures |r| >= 1
    ensures JoinWith(r, sep) == s
    ensures forall k :: 0 <= k < |r| ==> IndexOf(r[k], sep).None?
    decreases |s|
  {
    match IndexOf(s, sep)
    case None => [s]
    case Some(i) =>
      var rest := Split(s[i + |sep|..], sep);
      NoOccurrenceBefore(s, sep, i);
      assert s == s[..i] + sep + s[i + |sep|..];
      [s[..i]] + rest
  }

  /** The text before the first occurrence of `sep` does not contain `sep`. */
  lemma NoOccurrenceBefore(s: string, sep: string, i: nat)
    requires |sep| > 0 && IndexOf(s, sep) == Some(i)
    ensures IndexOf(s[..i], sep).None?
  {
    if IndexOf(s[..i], sep).Some? {
      var j := IndexOf(s[..i], sep).value;
      OccursInPrefix(s, i, sep, j);
      assert false;
    }
  }

  /** `s.replace(pat, rep)` for a non-empty pattern: every non-overlapping
      occurrence of `pat`, scanned from the left, becomes `rep`. */
  function ReplaceAll(s: string, pat: string, rep: string): (r: string)
    requires |pat| > 0
    ensures IndexOf(s, pat).None? ==> r == s
    decreases |s|
  {
    match IndexOf(s, pat)
    case None => s
    case Some(i) => s[..i] + rep + ReplaceAll(s[i + |pat|..], pat, rep)
  }

  /** Python's own characterisation of `replace`: split at the pattern and
      join the pieces with the replacement. */
  lemma {:induction false} ReplaceIsSplitJoin(s: string, pat: string, rep: string)
    requires |pat| > 0
    ensures ReplaceAll(s, pat, rep) == JoinWith(Split(s, pat), rep)
    decreases |s|
  {
    match IndexOf(s, pat)
    case None =>
    case Some(i) =>
      var rest := s[i + |pat|..];
      ReplaceIsSplitJoin(rest, pat, rep);
      var parts := [s[..i]] + Split(rest, pat);
      assert parts[1..] == Split(rest, pat);
  }

  // ---------------------------------------------------------------------
  // Integers as decimal text

  predicate IsDigit(c: char) { '0' <= c <= '9' }

  function DigitChar(d: nat): char
    requires d < 10
  {
    ('0' as int + d) as char
  }

  function DigitValue(c: char): nat
    requires IsDigit(c)
  {
    c as int - '0' as int
  }

  predicate AllDigits(s: string) {
    forall i :: 0 <= i < |s| ==> IsDigit(s[i])
  }

  /** The value of a run of decimal digits, most significant first. */
  function DigitsValue(s: string): nat
    requires AllDigits(s)
    decreases |s|
  {
    if s == [] then 0 else DigitsValue(s[..|s| - 1]) * 10 + DigitValue(s[|s| - 1])
  }

  /** Decimal text of a natural number, without leading zeros. */
  function NatToString(n: nat): (r: string)
    ensures |r| >= 1 && AllDigits(r)
    ensures DigitsValue(r) == n
    decreases n
  {
    if n < 10 then [DigitChar(n)]
    else
      var r := NatToString(n / 10) + [DigitChar(n % 10)];
      assert r[..|r| - 1] == NatToString(n / 10);
      r
  }

  /** `str(i)` for an integer. */
  function IntToString(i: int): string {
    if i < 0 then "-" + NatToString(-i) else NatToString(i)
  }

  /** `int(s)` on text, as Python 2 reads it: surrounding white space is
      ignored, then one optional sign, then optional white space again, then
      at least one decimal digit; anything else is a ValueError, here
      `None`. */
  function ParseInt(s: string): Option<int> {
    ParseStripped(Strip(s))
  }

  /** `int()` on text already stripped of surrounding white space. */
  function ParseStripped(t: string): Option<int> {
    if |t| >= 1 && (t[0] == '-' || t[0] == '+') then
      var u := LStrip(t[1..]);
      if |u| >= 1 && AllDigits(u) then
        var v: int := DigitsValue(u);
        Some(if t[0] == '-' then -v else v)
      else None
    else if |t| >= 1 && AllDigits(t) then
      Some(DigitsValue(t))
    else
      None
  }

  predicate AllSpace(s: string) {
    forall i :: 0 <= i < |s| ==> IsSpace(s[i])
  }

  /** `lstrip` drops a run of white space in front of text that does not
      itself start with white space, and nothing more. */
  lemma {:induction false} LStripSpaces(w: string, d: string)
    requires AllSpace(w)
    requires d == [] || !IsSpace(d[0])
    ensures LStrip(w + d) == d
    decreases |w|
  {
    if w != [] {
      assert (w + d)[1..] == w[1..] + d;
      LStripSpaces(w[1..], d);
    }
  }

  /** Text that neither starts nor ends with white space is its own `strip`. */
  lemma StripEnds(s: string)
    requires |s| >= 1 && !IsSpace(s[0]) && !IsSpace(s[|s| - 1])
    ensures Strip(s) == s
  {
    assert RStrip(s) == s;
  }

  /** A sign, white space and digits: `strip` leaves the text alone, and
      `lstrip` of what follows the sign gives the digits. */
  lemma SignedStrip(sign: char, w: string, d: string)
    requires sign == '-' || sign == '+'
    requires AllSpace(w)
    requires |d| >= 1 && AllDigits(d)
    ensures var s := [sign] + w + d; Strip(s) == s && |s| >= 1 && s[0] == sign && LStrip(s[1..]) == d
  {
    var s := [sign] + w + d;
    assert s[|s| - 1] == d[|d| - 1];
    StripEnds(s);
    assert s[1..] == w + d;
    LStripSpaces(w, d);
  }

  /** White space between the sign and the digits is skipped: `int("- 128")`
      is -128, `int("+ 500")` is 500. */
  lemma ParseIntSpaceAfterSign(sign: char, w: string, d: string)
    requires sign == '-' || sign == '+'
    requires AllSpace(w)
    requires |d| >= 1 && AllDigits(d)
    ensures ParseInt([sign] + w + d) == Some(if sign == '-' then -(DigitsValue(d) as int) else DigitsValue(d) as int)
  {
    var s := [sign] + w + d;
    SignedStrip(sign, w, d);
    ParseStrippedSigned(s, d);
  }

  lemma ParseStrippedSigned(t: string, d: string)
    requires |t| >= 1 && (t[0] == '-' || t[0] == '+')
    requires LStrip(t[1..]) == d && |d| >= 1 && AllDigits(d)
    ensures ParseStripped(t) == Some(if t[0] == '-' then -(DigitsValue(d) as int) else DigitsValue(d) as int)
  {
  }

  /** `int('')` is an error. */
  lemma ParseIntEmpty()
    ensures ParseInt("").None?
  {
    assert Strip("") == "";
  }

  /** Text without white space is left alone by `strip`. */
  lemma StripNoSpace(s: string)
    requires forall i :: 0 <= i < |s| ==> !IsSpace(s[i])
    ensures Strip(s) == s
  {
    if s != [] {
      assert !IsSpace(s[|s| - 1]);
      assert !IsSpace(s[0]);
    }
  }

  /** `int(str(i)) == i`. */
  lemma ParseIntRoundTrip(i: int)
    ensures ParseInt(IntToString(i)) == Some(i)
  {
    if i < 0 {
      ParseNegativeDigits(NatToString(-i));
    } else {
      ParseDigits(NatToString(i));
    }
  }

  /** `int()` reads a run of digits, with or without a minus sign, as its
      decimal value. */
  lemma ParseNegativeDigits(d: string)
    requires |d| >= 1 && AllDigits(d)
    ensures ParseInt("-" + d) == Some(-(DigitsValue(d) as int))
  {
    assert "-" + d == ['-'] + "" + d;
    SignedStrip('-', "", d);
    ParseStrippedSigned("-" + d, d);
  }

  lemma ParseDigits(d: string)
    requires |d| >= 1 && AllDigits(d)
    ensures ParseInt(d) == Some(DigitsValue(d) as int)
  {
    forall k | 0 <= k < |d| ensures !IsSpace(d[k]) {
      assert IsDigit(d[k]);
    }
    StripNoSpace(d);
    ParseStrippedDigits(d);
  }

  /** The unsigned branch of `int()`. */
  lemma ParseStrippedDigits(d: string)
    requires |d| >= 1 && AllDigits(d)
    ensures ParseStripped(d) == Some(DigitsValue(d) as int)
  {
    assert d[0] != '-' && d[0] != '+' by { assert IsDigit(d[0]); }
  }

}
