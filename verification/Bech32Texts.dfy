/** The characters of Bech32 and Bech32m strings and how a string is put together, src/bech32.cpp. */
module Bech32Texts {

  import opened Basics

  // ----- Characters -----

  const SEPARATOR := '1'

  function FirstChars(v: bv5): char {
    if v == 0 then 'q' else if v == 1 then 'p' else if v == 2 then 'z' else if v == 3 then 'r' else if v == 4 then 'y'
    else if v == 5 then '9' else if v == 6 then 'x' else if v == 7 then '8' else if v == 8 then 'g'
    else if v == 9 then 'f'
    else if v == 10 then '2' else if v == 11 then 't' else if v == 12 then 'v' else if v == 13 then 'd'
    else if v == 14 then 'w'
    else '0'
  }

  function LastChars(v: bv5): char {
    if v == 16 then 's' else if v == 17 then '3' else if v == 18 then 'j' else if v == 19 then 'n'
    else if v == 20 then '5'
    else if v == 21 then '4' else if v == 22 then 'k' else if v == 23 then 'h' else if v == 24 then 'c'
    else if v == 25 then 'e'
    else if v == 26 then '6' else if v == 27 then 'm' else if v == 28 then 'u' else if v == 29 then 'a'
    else if v == 30 then '7'
    else 'l'
  }

  /** The character set. */
  function CharOf(v: bv5): char {
    if v < 16 then FirstChars(v) else LastChars(v)
  }

  function LowerCase(c: char): char {
    if 'A' <= c <= 'Z' then (c as int + 32) as char else c
  }

  function FirstValues(c: char): Option<bv5> {
    if c == 'q' then Some(0) else if c == 'p' then Some(1) else if c == 'z' then Some(2) else if c == 'r' then Some(3)
    else if c == 'y' then Some(4) else if c == '9' then Some(5) else if c == 'x' then Some(6)
    else if c == '8' then Some(7)
    else if c == 'g' then Some(8) else if c == 'f' then Some(9) else if c == '2' then Some(10)
    else if c == 't' then Some(11)
    else if c == 'v' then Some(12) else if c == 'd' then Some(13) else if c == 'w' then Some(14)
    else if c == '0' then Some(15)
    else None
  }

  function LastValues(c: char): Option<bv5> {
    if c == 's' then Some(16) else if c == '3' then Some(17) else if c == 'j' then Some(18)
    else if c == 'n' then Some(19)
    else if c == '5' then Some(20) else if c == '4' then Some(21) else if c == 'k' then Some(22)
    else if c == 'h' then Some(23)
    else if c == 'c' then Some(24) else if c == 'e' then Some(25) else if c == '6' then Some(26)
    else if c == 'm' then Some(27)
    else if c == 'u' then Some(28) else if c == 'a' then Some(29) else if c == '7' then Some(30)
    else if c == 'l' then Some(31)
    else None
  }

  function ValueOfLower(c: char): Option<bv5> {
    if FirstValues(c).Some? then FirstValues(c) else LastValues(c)
  }

  /** The symbol a character of either case stands for. */
  function ValueOf(c: char): Option<bv5> {
    ValueOfLower(LowerCase(c))
  }

  lemma FirstCharsValue(v: bv5)
    requires v < 16
    ensures FirstValues(FirstChars(v)) == Some(v)
  {
  }

  lemma LastCharsValue(v: bv5)
    requires v >= 16
    ensures LastValues(LastChars(v)) == Some(v) && FirstValues(LastChars(v)).None?
  {
  }

  lemma LowerCharOf(v: bv5)
    ensures ValueOfLower(CharOf(v)) == Some(v)
  {
    if v < 16 { FirstCharsValue(v); } else { LastCharsValue(v); }
  }

  lemma CharOfRange(v: bv5)
    ensures CharOf(v) != SEPARATOR && ('0' <= CharOf(v) <= '9' || 'a' <= CharOf(v) <= 'z')
  {
  }

  lemma CharOfValue(v: bv5)
    ensures ValueOf(CharOf(v)) == Some(v) && CharOf(v) != SEPARATOR
    ensures '0' <= CharOf(v) <= '9' || 'a' <= CharOf(v) <= 'z'
  {
    LowerCharOf(v);
    CharOfRange(v);
  }

  lemma FirstValuesChar(c: char)
    requires FirstValues(c).Some?
    ensures FirstValues(c).value < 16 && FirstChars(FirstValues(c).value) == c
  {
  }

  lemma LastValuesChar(c: char)
    requires LastValues(c).Some?
    ensures LastValues(c).value >= 16 && LastChars(LastValues(c).value) == c
  {
  }

  lemma ValueOfLowerChar(c: char)
    requires ValueOfLower(c).Some?
    ensures CharOf(ValueOfLower(c).value) == c && c != SEPARATOR
  {
    if FirstValues(c).Some? { FirstValuesChar(c); } else { LastValuesChar(c); }
  }

  lemma ValueOfChar(c: char)
    requires ValueOf(c).Some?
    ensures CharOf(ValueOf(c).value) == LowerCase(c) && c != SEPARATOR
  {
    ValueOfLowerChar(LowerCase(c));
  }

  function Lower(s: string): (r: string)
    ensures |r| == |s| && forall i :: 0 <= i < |s| ==> r[i] == LowerCase(s[i])
  {
    seq(|s|, i requires 0 <= i < |s| => LowerCase(s[i]))
  }

  function Chars(v: seq<bv5>): (s: string)
    ensures |s| == |v| && forall i :: 0 <= i < |v| ==> s[i] == CharOf(v[i])
  {
    seq(|v|, i requires 0 <= i < |v| => CharOf(v[i]))
  }

  ghost predicate AllValues(s: string) {
    forall i :: 0 <= i < |s| ==> ValueOf(s[i]).Some?
  }

  ghost function Values(s: string): (v: seq<bv5>)
    requires AllValues(s)
    ensures |v| == |s| && forall i :: 0 <= i < |s| ==> v[i] == ValueOf(s[i]).value
  {
    seq(|s|, i requires 0 <= i < |s| => ValueOf(s[i]).value)
  }

  lemma ValuesOfChars(v: seq<bv5>)
    ensures AllValues(Chars(v)) && Values(Chars(v)) == v
  {
    forall i | 0 <= i < |v| ensures ValueOf(Chars(v)[i]) == Some(v[i]) { CharOfValue(v[i]); }
  }

  lemma CharsOfValues(s: string)
    requires AllValues(s)
    ensures Chars(Values(s)) == Lower(s)
  {
    forall i | 0 <= i < |s| ensures Chars(Values(s))[i] == LowerCase(s[i]) { ValueOfChar(s[i]); }
  }

  // ----- Whole strings -----

  predicate Printable(c: char) {
    33 <= c as int <= 126
  }

  predicate SmallLetter(c: char) {
    'a' <= c <= 'z'
  }

  predicate CapitalLetter(c: char) {
    'A' <= c <= 'Z'
  }

  ghost predicate AllPrintable(s: string) {
    forall i :: 0 <= i < |s| ==> Printable(s[i])
  }

  ghost predicate NoCapitals(s: string) {
    forall i :: 0 <= i < |s| ==> !CapitalLetter(s[i])
  }

  ghost predicate NoSmalls(s: string) {
    forall i :: 0 <= i < |s| ==> !SmallLetter(s[i])
  }

  /** Only printable characters, and not letters of both cases. */
  ghost predicate CharactersOk(s: string) {
    AllPrintable(s) && (NoCapitals(s) || NoSmalls(s))
  }

  lemma LowerNothing(s: string)
    requires NoCapitals(s)
    ensures Lower(s) == s
  {
  }

  /** A string that is well formed but for its checksum, its separator being at pos. */
  ghost predicate Formed(s: string, limit: nat, pos: nat) {
    && CharactersOk(s) && |s| <= limit
    && 0 < pos && pos + 6 < |s| && s[pos] == SEPARATOR && AllValues(s[pos + 1..])
  }

  lemma SeparatorInside(s: string, pos: nat, pos': nat)
    requires pos < pos' < |s| && s[pos'] == SEPARATOR
    ensures !AllValues(s[pos + 1..])
  {
    assert s[pos + 1..][pos' - pos - 1] == s[pos'];
  }

  /** The separator of a well-formed string is the last one. */
  lemma FormedLast(s: string, limit: nat, pos: nat, pos': nat)
    requires Formed(s, limit, pos) && pos' < |s| && s[pos'] == SEPARATOR
    ensures pos' <= pos
  {
    if pos < pos' { SeparatorInside(s, pos, pos'); }
  }

  /** The human-readable part, the separator, and the symbols with six check symbols behind them. */
  function Joined(hrp: string, values: seq<bv5>, check: seq<bv5>): string {
    hrp + [SEPARATOR] + Chars(values + check)
  }

  lemma JoinedParts(hrp: string, values: seq<bv5>, check: seq<bv5>)
    requires |check| == 6
    ensures var s := Joined(hrp, values, check);
      && |s| == |hrp| + 1 + |values| + 6 && s[..|hrp|] == hrp && s[|hrp|] == SEPARATOR
      && s[|hrp| + 1..] == Chars(values + check)
  {
  }

  lemma JoinedValues(hrp: string, values: seq<bv5>, check: seq<bv5>)
    requires |check| == 6
    ensures var t := Joined(hrp, values, check)[|hrp| + 1..]; AllValues(t) && Values(t) == values + check
  {
    JoinedParts(hrp, values, check);
    ValuesOfChars(values + check);
  }

  lemma JoinedChars(hrp: string, values: seq<bv5>, check: seq<bv5>)
    ensures Joined(hrp, values, check) == hrp + [SEPARATOR] + Chars(values) + Chars(check)
  {
    assert Chars(values + check) == Chars(values) + Chars(check);
  }

  /** What the human-readable part and the length have to be for a string to be read back. */
  ghost predicate Readable(hrp: string, values: seq<bv5>, limit: nat) {
    0 < |hrp| && AllPrintable(hrp) && |hrp| + 1 + |values| + 6 <= limit
  }

  lemma CharsPlain(v: seq<bv5>)
    ensures AllPrintable(Chars(v)) && NoCapitals(Chars(v)) && SEPARATOR !in Chars(v)
  {
    forall i | 0 <= i < |v| ensures Printable(Chars(v)[i]) && !CapitalLetter(Chars(v)[i]) && Chars(v)[i] != SEPARATOR {
      CharOfValue(v[i]);
    }
  }

  lemma JoinedCharacters(hrp: string, values: seq<bv5>, check: seq<bv5>)
    requires NoCapitals(hrp)
    ensures NoCapitals(Joined(hrp, values, check))
    ensures AllPrintable(Joined(hrp, values, check)) <==> AllPrintable(hrp)
  {
    var s := Joined(hrp, values, check);
    CharsPlain(values + check);
    assert forall i :: 0 <= i < |hrp| ==> s[i] == hrp[i];
    assert Printable(SEPARATOR) && !CapitalLetter(SEPARATOR);
  }

  /** A string put together is well formed exactly if it is readable, and only at its own separator. */
  lemma JoinedFormed(hrp: string, values: seq<bv5>, check: seq<bv5>, limit: nat, pos: nat)
    requires NoCapitals(hrp) && |check| == 6
    ensures Formed(Joined(hrp, values, check), limit, pos) <==> pos == |hrp| && Readable(hrp, values, limit)
  {
    var s := Joined(hrp, values, check);
    JoinedParts(hrp, values, check);
    JoinedValues(hrp, values, check);
    JoinedCharacters(hrp, values, check);
    if Formed(s, limit, pos) {
      FormedLast(s, limit, pos, |hrp|);
      if |hrp| < pos { SeparatorInside(s, |hrp|, pos); }
    }
  }

  /** Splitting a string at a separator and putting the parts together again gives it in small letters. */
  lemma SplitJoined(s: string, pos: nat, data: seq<bv5>, check: seq<bv5>)
    requires pos < |s| && s[pos] == SEPARATOR && AllValues(s[pos + 1..]) && Values(s[pos + 1..]) == data + check
    ensures Joined(Lower(s[..pos]), data, check) == Lower(s)
  {
    CharsOfValues(s[pos + 1..]);
    assert Lower(s) == Lower(s[..pos]) + [SEPARATOR] + Lower(s[pos + 1..]);
  }

  // ----- Reading the characters -----

  datatype Case = NoLetter | Small | Capital

  /** The case of the first letter among the first n characters. */
  ghost function FirstCase(s: string, n: nat): Case
    requires n <= |s|
  {
    if n == 0 then NoLetter
    else if FirstCase(s, n - 1) != NoLetter then FirstCase(s, n - 1)
    else if SmallLetter(s[n - 1]) then Small
    else if CapitalLetter(s[n - 1]) then Capital
    else NoLetter
  }

  /** A character that is not printable, or a letter of another case than the first letter. */
  ghost predicate Bad(s: string, i: nat)
    requires i < |s|
  {
    || !Printable(s[i])
    || (SmallLetter(s[i]) && FirstCase(s, i) == Capital)
    || (CapitalLetter(s[i]) && FirstCase(s, i) == Small)
  }

  lemma {:induction false} FirstCaseStays(s: string, i: nat, n: nat)
    requires i <= n <= |s| && FirstCase(s, i) != NoLetter
    ensures FirstCase(s, n) == FirstCase(s, i)
  {
    if i < n { FirstCaseStays(s, i, n - 1); }
  }

  lemma {:induction false} FirstCaseSeen(s: string, n: nat)
    requires n <= |s|
    ensures FirstCase(s, n) == Small ==> !NoSmalls(s)
    ensures FirstCase(s, n) == Capital ==> !NoCapitals(s)
  {
    if n > 0 { FirstCaseSeen(s, n - 1); }
  }

  lemma OtherCaseBad(s: string, i: nat)
    requires i < |s| && !Bad(s, i)
    ensures SmallLetter(s[i]) ==> FirstCase(s, |s|) == Small
    ensures CapitalLetter(s[i]) ==> FirstCase(s, |s|) == Capital
  {
    if SmallLetter(s[i]) || CapitalLetter(s[i]) { FirstCaseStays(s, i + 1, |s|); }
  }

  /** No character is bad exactly if the characters are right. */
  lemma NoneBad(s: string)
    ensures (forall i :: 0 <= i < |s| ==> !Bad(s, i)) <==> CharactersOk(s)
  {
    forall i | 0 <= i < |s| && !Bad(s, i)
      ensures SmallLetter(s[i]) ==> FirstCase(s, |s|) == Small
      ensures CapitalLetter(s[i]) ==> FirstCase(s, |s|) == Capital
    {
      OtherCaseBad(s, i);
    }
    forall i | 0 <= i < |s|
      ensures FirstCase(s, i) == Small ==> !NoSmalls(s)
      ensures FirstCase(s, i) == Capital ==> !NoCapitals(s)
    {
      FirstCaseSeen(s, i);
    }
  }

  /** The indices of the bad characters. */
  method CheckCharacters(str: string) returns (errors: seq<nat>)
    ensures forall i: nat :: i in errors <==> i < |str| && Bad(str, i)
    ensures forall j, k :: 0 <= j < k < |errors| ==> errors[j] < errors[k]
    ensures errors == [] <==> CharactersOk(str)
  {
    var lower, upper := false, false;
    errors := [];
    for i := 0 to |str|
      invariant lower <==> FirstCase(str, i) == Small
      invariant upper <==> FirstCase(str, i) == Capital
      invariant forall j: nat :: j in errors <==> j < i && Bad(str, j)
      invariant forall k :: 0 <= k < |errors| ==> errors[k] < i
      invariant forall j, k :: 0 <= j < k < |errors| ==> errors[j] < errors[k]
    {
      var c := str[i];
      if SmallLetter(c) {
        if upper { errors := errors + [i]; } else { lower := true; }
      } else if CapitalLetter(c) {
        if lower { errors := errors + [i]; } else { upper := true; }
      } else if c as int < 33 || c as int > 126 {
        errors := errors + [i];
      }
    }
    NoneBad(str);
    assert errors != [] ==> errors[0] in errors;
  }

  /** The last separator, or -1. */
  method FindSeparator(str: string) returns (pos: int)
    ensures -1 <= pos < |str| && (pos >= 0 ==> str[pos] == SEPARATOR)
    ensures forall i :: pos < i < |str| ==> str[i] != SEPARATOR
  {
    pos := |str| - 1;
    while pos >= 0 && str[pos] != SEPARATOR
      invariant -1 <= pos < |str| && forall i :: pos < i < |str| ==> str[i] != SEPARATOR
    {
      pos := pos - 1;
    }
  }

  /** The symbols of the characters behind pos, if all of them stand for one. */
  method ReadValues(str: string, pos: nat) returns (values: Option<seq<bv5>>)
    requires pos < |str|
    ensures values.Some? <==> AllValues(str[pos + 1..])
    ensures values.Some? ==> values.value == Values(str[pos + 1..])
  {
    ghost var t := str[pos + 1..];
    var v: seq<bv5> := [];
    for i := 0 to |str| - 1 - pos
      invariant |v| == i && forall j :: 0 <= j < i ==> ValueOf(t[j]) == Some(v[j])
    {
      var rev := ValueOf(str[i + pos + 1]);
      assert t[i] == str[i + pos + 1];
      if rev.None? { return None; }
      v := v + [rev.value];
    }
    values := Some(v);
  }

  method LowerOf(str: string) returns (r: string)
    ensures r == Lower(str)
  {
    r := "";
    for i := 0 to |str|
      invariant |r| == i && forall j :: 0 <= j < i ==> r[j] == LowerCase(str[j])
    {
      r := r + [LowerCase(str[i])];
    }
  }

  method AppendChars(str: string, values: seq<bv5>) returns (r: string)
    ensures r == str + Chars(values)
  {
    r := str;
    for i := 0 to |values|
      invariant r == str + Chars(values)[..i]
    {
      r := r + [CharOf(values[i])];
    }
  }
}
