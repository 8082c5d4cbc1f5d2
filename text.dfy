/** The java.lang.String and java.lang.Integer operations the extraction code
    relies on, restricted to ASCII case mapping and ASCII digits. */
module Text {
  import opened Errors

  // ---------------------------------------------------------------------------
  // Case mapping
  // ---------------------------------------------------------------------------

  /** toLowerCase on one character: ASCII upper-case letters map to lower case. */
  function Lower(c: char): char
  {
    if 'A' <= c <= 'Z' then (c as int + 32) as char else c
  }

  /** String.toLowerCase: a character-by-character map that keeps the length,
      so an index found in the lower-cased string is an index of the original. */
  function LowerStr(s: string): (r: string)
    ensures |r| == |s|
    ensures forall i :: 0 <= i < |s| ==> r[i] == Lower(s[i])
  {
    if s == [] then [] else [Lower(s[0])] + LowerStr(s[1..])
  }

  lemma LowerStrSlice(s: string, a: nat, b: nat)
    requires a <= b <= |s|
    ensures LowerStr(s[a..b]) == LowerStr(s)[a..b]
  {
    var t := s[a..b];
    var l, whole := LowerStr(t), LowerStr(s);
    var r := whole[a..b];
    assert |l| == |t| == |r|;
    forall i | 0 <= i < |l| ensures l[i] == r[i] {
      assert l[i] == Lower(t[i]);
      assert r[i] == whole[a + i] == Lower(s[a + i]);
      assert t[i] == s[a + i];
    }
  }

  /** String.equalsIgnoreCase on ASCII: same length, and equal characters up to case. */
  predicate EqualsIgnoreCase(a: string, b: string)
  {
    |a| == |b| && forall i :: 0 <= i < |a| ==> Lower(a[i]) == Lower(b[i])
  }

  lemma EqualsIgnoreCaseIsLowerEquality(a: string, b: string)
    ensures EqualsIgnoreCase(a, b) <==> LowerStr(a) == LowerStr(b)
  {
    if LowerStr(a) == LowerStr(b) {
      assert |a| == |b|;
      forall i | 0 <= i < |a| ensures Lower(a[i]) == Lower(b[i]) {
        assert LowerStr(a)[i] == LowerStr(b)[i];
      }
    }
  }

  // ---------------------------------------------------------------------------
  // Prefixes and searching
  // ---------------------------------------------------------------------------

  /** String.startsWith. */
  predicate StartsWith(s: string, prefix: string)
  {
    |prefix| <= |s| && s[..|prefix|] == prefix
  }

  /** `s.toLowerCase().startsWith(p)` read character by character. */
  lemma LowerStartsWith(s: string, p: string)
    ensures StartsWith(LowerStr(s), p) <==> HasPrefixIgnoringCase(s, p)
  {
    if |p| <= |s| && forall i :: 0 <= i < |p| ==> Lower(s[i]) == p[i] {
      assert LowerStr(s)[..|p|] == p;
    }
    if StartsWith(LowerStr(s), p) {
      forall i | 0 <= i < |p| ensures Lower(s[i]) == p[i] {
        assert LowerStr(s)[..|p|][i] == p[i];
      }
    }
  }

  /** `s` begins with `p` once upper-case letters are folded to lower case. */
  predicate HasPrefixIgnoringCase(s: string, p: string)
  {
    |p| <= |s| && forall i :: 0 <= i < |p| ==> Lower(s[i]) == p[i]
  }

  /** Cutting a string in three places and joining the pieces gives it back. */
  lemma SliceJoin(s: string, a: nat, b: nat)
    requires a <= b <= |s|
    ensures s[..a] + s[a..b] + s[b..] == s
  {
    assert s == s[..a] + s[a..];
    assert s[a..] == s[a..b] + s[b..];
  }

  /** `pat` occurs in `s` starting at position `p`. */
  predicate MatchAt(s: string, pat: string, p: int)
  {
    0 <= p && p + |pat| <= |s| && s[p..p + |pat|] == pat
  }

  /** String.indexOf(pat, from): the first position at or after `from` where
      `pat` occurs, or -1 when it occurs nowhere from there on. */
  function IndexOfFrom(s: string, pat: string, from: nat): (r: int)
    ensures r == -1 || from <= r
    ensures r >= 0 ==> MatchAt(s, pat, r)
    ensures r >= 0 ==> forall q :: from <= q < r ==> !MatchAt(s, pat, q)
    ensures r == -1 ==> forall q :: from <= q ==> !MatchAt(s, pat, q)
    decreases |s| - from
  {
    if from + |pat| > |s| then -1
    else if s[from..from + |pat|] == pat then from
    else IndexOfFrom(s, pat, from + 1)
  }

  /** String.indexOf(pat). */
  function IndexOf(s: string, pat: string): (r: int)
    ensures r == -1 || (MatchAt(s, pat, r) && forall q :: 0 <= q < r ==> !MatchAt(s, pat, q))
    ensures r == -1 <==> forall q :: 0 <= q ==> !MatchAt(s, pat, q)
  {
    IndexOfFrom(s, pat, 0)
  }

  // ---------------------------------------------------------------------------
  // Trimming
  // ---------------------------------------------------------------------------

  /** String.trim removes every leading and trailing character whose code is at
      most U+0020 (space and the control characters). */
  predicate IsTrimmable(c: char)
  {
    c <= ' '
  }

  function TrimLeft(s: string): string
  {
    if s != [] && IsTrimmable(s[0]) then TrimLeft(s[1..]) else s
  }

  function TrimRight(s: string): string
  {
    if s != [] && IsTrimmable(s[|s| - 1]) then TrimRight(s[..|s| - 1]) else s
  }

  /** String.trim. */
  function Trim(s: string): string
  {
    TrimRight(TrimLeft(s))
  }

  lemma {:induction false} TrimLeftIsSuffix(s: string)
    ensures var r := TrimLeft(s);
      && |r| <= |s| && r == s[|s| - |r|..]
      && (forall k :: 0 <= k < |s| - |r| ==> IsTrimmable(s[k]))
      && (r == [] || !IsTrimmable(r[0]))
  {
    if s != [] && IsTrimmable(s[0]) {
      TrimLeftIsSuffix(s[1..]);
    }
  }

  lemma {:induction false} TrimRightIsPrefix(s: string)
    ensures var r := TrimRight(s);
      && |r| <= |s| && r == s[..|r|]
      && (forall k :: |r| <= k < |s| ==> IsTrimmable(s[k]))
      && (r == [] || !IsTrimmable(r[|r| - 1]))
  {
    if s != [] && IsTrimmable(s[|s| - 1]) {
      TrimRightIsPrefix(s[..|s| - 1]);
    }
  }

  /** trim returns the slice of `s` between its first and last characters above
      U+0020, so the result neither starts nor ends with a trimmable character,
      and it is empty exactly when every character of `s` is trimmable. */
  lemma TrimSlice(s: string)
    ensures var r, i := Trim(s), |s| - |TrimLeft(s)|;
      && 0 <= i <= i + |r| <= |s| && r == s[i..i + |r|]
      && (r != [] ==> !IsTrimmable(r[0]) && !IsTrimmable(r[|r| - 1]))
      && (r == [] <==> forall k :: 0 <= k < |s| ==> IsTrimmable(s[k]))
  {
    var left := TrimLeft(s);
    var r := TrimRight(left);
    TrimLeftIsSuffix(s);
    TrimRightIsPrefix(left);
    var i := |s| - |left|;
    assert left == s[i..];
    assert r == left[..|r|];
    assert r == s[i..i + |r|];
    if r == [] {
      assert left == [];
      assert forall k :: 0 <= k < |s| ==> IsTrimmable(s[k]);
    } else {
      assert r[0] == left[0] == s[i];
      assert !IsTrimmable(s[i]);
    }
  }

  /** A string that neither starts nor ends with a trimmable character is left
      as it is. */
  lemma TrimUntrimmed(s: string)
    requires s == [] || (!IsTrimmable(s[0]) && !IsTrimmable(s[|s| - 1]))
    ensures Trim(s) == s
  {
    assert TrimLeft(s) == s;
  }

  // ---------------------------------------------------------------------------
  // cleanText (PageParserProbateList.cleanText)
  // ---------------------------------------------------------------------------

  /** String.replace(char, char). */
  function ReplaceChar(s: string, from: char, to: char): (r: string)
    ensures |r| == |s|
    ensures forall i :: 0 <= i < |s| ==> r[i] == (if s[i] == from then to else s[i])
  {
    if s == [] then [] else [if s[0] == from then to else s[0]] + ReplaceChar(s[1..], from, to)
  }

  /** The string holds neither of the characters that would break a CSV field. */
  predicate NoSeparators(s: string)
  {
    forall i :: 0 <= i < |s| ==> s[i] != ',' && s[i] != '"'
  }

  /** cleanText: null becomes the empty string; otherwise every comma and then
      every double quote is replaced by a space. */
  function CleanText(text: Option<string>): (r: string)
    ensures text.None? ==> r == ""
    ensures text.Some? ==> |r| == |text.value|
    ensures text.Some? ==> forall i :: 0 <= i < |r| ==>
              r[i] == (if text.value[i] == ',' || text.value[i] == '"' then ' ' else text.value[i])
    ensures NoSeparators(r)
  {
    match text
    case None => ""
    case Some(s) => ReplaceChar(ReplaceChar(s, ',', ' '), '"', ' ')
  }

  /** A string without commas or quotes is left as it is. */
  lemma CleanTextKeepsClean(s: string)
    requires NoSeparators(s)
    ensures CleanText(Some(s)) == s
  {
    var r := CleanText(Some(s));
    assert |r| == |s|;
    forall i | 0 <= i < |s| ensures r[i] == s[i] { }
  }

  /** Cleaning is idempotent. */
  lemma CleanTextIdempotent(text: Option<string>)
    ensures CleanText(Some(CleanText(text))) == CleanText(text)
  {
    CleanTextKeepsClean(CleanText(text));
  }

  // ---------------------------------------------------------------------------
  // Integer.parseInt (radix 10)
  // ---------------------------------------------------------------------------

  const MinInt: int := -0x8000_0000
  const MaxInt: int := 0x7fff_ffff

  predicate IsDigit(c: char)
  {
    '0' <= c <= '9'
  }

  predicate AllDigits(s: string)
  {
    forall k :: 0 <= k < |s| ==> IsDigit(s[k])
  }

  /** The value of a string of decimal digits, read left to right. */
  function DigitsValue(s: string): nat
    requires AllDigits(s)
  {
    if s == [] then 0 else DigitsValue(s[..|s| - 1]) * 10 + (s[|s| - 1] as int - '0' as int)
  }

  /** The length of an optional leading sign. */
  function SignLength(s: string): nat
  {
    if s != [] && (s[0] == '-' || s[0] == '+') then 1 else 0
  }

  /** Integer.parseInt: an optional '+' or '-', then at least one digit, with a
      value that fits in 32 bits; anything else is a NumberFormatException. */
  function ParseInt(s: string): (r: Result<int>)
    ensures r.Err? ==> r.error == NumberFormat(s)
    ensures r.Ok? ==> MinInt <= r.value <= MaxInt
    ensures r.Ok? ==> SignLength(s) < |s| && AllDigits(s[SignLength(s)..])
  {
    var digits := s[SignLength(s)..];
    if digits == [] || !AllDigits(digits) then Err(NumberFormat(s))
    else
      var v: int := if s[0] == '-' then -(DigitsValue(digits) as int) else DigitsValue(digits);
      if MinInt <= v <= MaxInt then Ok(v) else Err(NumberFormat(s))
  }

  /** The value a sign and a digit string denote. */
  function SignedValue(sign: string, digits: string): int
    requires AllDigits(digits)
  {
    if sign == "-" then -(DigitsValue(digits) as int) else DigitsValue(digits)
  }

  /** Every sign-and-digits text is read exactly: "+5" is 5 and "007" is 7.
      Within the 32-bit range the result is that value; outside it the text is
      a NumberFormatException. */
  lemma ParseIntOfSignedDigits(sign: string, digits: string)
    requires sign == "" || sign == "+" || sign == "-"
    requires digits != [] && AllDigits(digits)
    ensures ParseInt(sign + digits) ==
      if MinInt <= SignedValue(sign, digits) <= MaxInt then Ok(SignedValue(sign, digits))
      else Err(NumberFormat(sign + digits))
  {
    var s := sign + digits;
    assert SignLength(s) == |sign|;
    assert s[SignLength(s)..] == digits;
    assert sign == "-" <==> s[0] == '-';
  }

  /** Leading zeros do not change the value of a digit string. */
  lemma {:induction false} DigitsValueLeadingZero(s: string)
    requires AllDigits(s)
    ensures AllDigits("0" + s) && DigitsValue("0" + s) == DigitsValue(s)
  {
    var z := "0" + s;
    if s != [] {
      var p := s[..|s| - 1];
      DigitsValueLeadingZero(p);
      assert z[..|z| - 1] == "0" + p;
      assert z[|z| - 1] == s[|s| - 1];
    }
  }

  /** Decimal rendering of a natural number, without leading zeros. */
  function NatToDecimal(n: nat): (r: string)
    ensures r != [] && AllDigits(r)
    ensures r[0] != '0' || n == 0
  {
    if n < 10 then ['0' + (n as char)]
    else NatToDecimal(n / 10) + ['0' + ((n % 10) as char)]
  }

  lemma {:induction false} DigitsValueOfDecimal(n: nat)
    ensures DigitsValue(NatToDecimal(n)) == n
  {
    var r := NatToDecimal(n);
    if n >= 10 {
      DigitsValueOfDecimal(n / 10);
      assert r[..|r| - 1] == NatToDecimal(n / 10);
    }
  }

  /** parseInt reads back every page number the site can render. */
  lemma ParseIntOfDecimal(n: nat)
    requires n <= MaxInt
    ensures ParseInt(NatToDecimal(n)) == Ok(n)
  {
    DigitsValueOfDecimal(n);
    assert SignLength(NatToDecimal(n)) == 0;
  }

  /** A negative number rendered with a minus sign parses back, down to MinInt. */
  lemma ParseIntOfNegativeDecimal(n: nat)
    requires n <= -MinInt
    ensures ParseInt("-" + NatToDecimal(n)) == Ok(-(n as int))
  {
    DigitsValueOfDecimal(n);
    var s := "-" + NatToDecimal(n);
    assert s[SignLength(s)..] == NatToDecimal(n);
  }

  /** One past the largest int is a NumberFormatException, not a wrapped value. */
  lemma ParseIntOverflow(n: nat)
    requires n > MaxInt
    ensures ParseInt(NatToDecimal(n)).Err?
  {
    DigitsValueOfDecimal(n);
    assert SignLength(NatToDecimal(n)) == 0;
  }
}
