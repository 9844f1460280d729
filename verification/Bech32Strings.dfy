/** Encoding and decoding Bech32 and Bech32m strings, src/bech32.cpp. */
module Bech32Strings {

  import opened Basics
  import opened CheckCodes
  import opened Bech32Words
  import opened Bech32Texts
  import Bech32Roots
  import Syndromes

  datatype Encoding = BECH32 | BECH32M
  datatype DecodeResult = Invalid | Decoded(encoding: Encoding, hrp: string, data: seq<bv5>)

  // ----- The checksum of a string -----

  function High(c: char): bv5 {
    (c as int / 32 % 32) as bv5
  }

  function Low(c: char): bv5 {
    (c as int % 32) as bv5
  }

  /** The human-readable part as symbols: the high bits of its characters, a zero, and the low bits. */
  function Expand(hrp: string): seq<bv5> {
    seq(|hrp|, i requires 0 <= i < |hrp| => High(hrp[i])) + [0] + seq(|hrp|, i requires 0 <= i < |hrp| => Low(hrp[i]))
  }

  function EncodingConstant(encoding: Encoding): bv30 {
    if encoding == BECH32 then 1 else 0x2bc830a3
  }

  function Checked(hrp: string, values: seq<bv5>): Remainder<bv5> {
    Run(CODE, ONE, Expand(hrp) + values)
  }

  /** Which encoding the checksum in values is for, if any. */
  ghost predicate Verifies(hrp: string, values: seq<bv5>, encoding: Encoding) {
    Checked(hrp, values) == Unpack(EncodingConstant(encoding))
  }

  function Checksum(encoding: Encoding, hrp: string, values: seq<bv5>): (r: seq<bv5>)
    ensures |r| == 6
  {
    CheckSymbols(CODE, Checked(hrp, values), Unpack(EncodingConstant(encoding)))
  }

  lemma OneEncoding(hrp: string, values: seq<bv5>)
    requires Verifies(hrp, values, BECH32)
    ensures !Verifies(hrp, values, BECH32M)
  {
    PackUnpack(EncodingConstant(BECH32));
    PackUnpack(EncodingConstant(BECH32M));
  }

  lemma NotTwo(hrp: string, values: seq<bv5>, encoding: Encoding, encoding': Encoding)
    requires Verifies(hrp, values, encoding) && encoding' != encoding
    ensures !Verifies(hrp, values, encoding')
  {
    if encoding == BECH32 || Verifies(hrp, values, BECH32) { OneEncoding(hrp, values); }
  }

  /** The last six symbols verify exactly if they are the checksum of those before them. */
  lemma VerifiesExactly(encoding: Encoding, hrp: string, values: seq<bv5>, check: seq<bv5>)
    requires |check| == 6
    ensures Verifies(hrp, values + check, encoding) <==> check == Checksum(encoding, hrp, values)
  {
    assert Expand(hrp) + (values + check) == (Expand(hrp) + values) + check;
    RunConcat(CODE, ONE, Expand(hrp) + values, check);
    CodeLawful();
    CheckExactly(CODE, Checked(hrp, values), Unpack(EncodingConstant(encoding)), check);
  }

  /** A change of at most six symbols in a row is found out: it never verifies for the same encoding. */
  lemma ChangesDetected(encoding: Encoding, hrp: string, v: seq<bv5>, w: seq<bv5>, i: nat)
    requires |v| == |w| && i + 6 <= |v| && v[..i] == w[..i] && v[i + 6..] == w[i + 6..] && v != w
    ensures !(Verifies(hrp, v, encoding) && Verifies(hrp, w, encoding))
  {
    var h := Expand(hrp);
    var n := |h|;
    var x, y := h + v, h + w;
    assert x[..n + i] == h + v[..i] && y[..n + i] == h + w[..i];
    assert x[n + i + 6..] == v[i + 6..] && y[n + i + 6..] == w[i + 6..];
    assert x[n..] == v && y[n..] == w;
    CodeLawful();
    BurstDetected(CODE, ONE, x, y, n + i);
  }

  /** A change of at most three symbols within 1023 is found out: it never verifies for the same encoding. */
  lemma ThreeChangesDetected(encoding: Encoding, hrp: string, v: seq<bv5>, w: seq<bv5>, p: nat, q: nat, r: nat)
    requires p < q < r < |v| && r - p < 1023 && Syndromes.SameBut(v, w, p, q, r) && v != w
    ensures !(Verifies(hrp, v, encoding) && Verifies(hrp, w, encoding))
  {
    var h := Expand(hrp);
    var n := |h|;
    assert (h + v)[n..] == v && (h + w)[n..] == w;
    Bech32Roots.ThreeChanges(ONE, h + v, h + w, n + p, n + q, n + r);
  }

  // ----- The human-readable part -----

  /** The characters whose ten bits the symbols hold. */
  ghost predicate Narrow(hrp: string) {
    forall i :: 0 <= i < |hrp| ==> hrp[i] < 1024 as char
  }

  lemma ExpandAt(hrp: string, i: nat)
    requires i < |hrp|
    ensures Expand(hrp)[i] == High(hrp[i]) && Expand(hrp)[|hrp| + 1 + i] == Low(hrp[i])
  {
  }

  lemma SymbolValue(x: nat)
    requires x < 32
    ensures (x as bv5) as int == x
  {
  }

  lemma SameSymbol(x: nat, y: nat)
    requires x < 32 && y < 32 && x as bv5 == y as bv5
    ensures x == y
  {
    SymbolValue(x);
    SymbolValue(y);
  }

  lemma SameHalves(c: nat, d: nat)
    requires c < 1024 && d < 1024 && c / 32 % 32 == d / 32 % 32 && c % 32 == d % 32
    ensures c == d
  {
  }

  lemma SameCharacter(c: char, d: char)
    requires c < 1024 as char && d < 1024 as char && High(c) == High(d) && Low(c) == Low(d)
    ensures c == d
  {
    SameSymbol(c as int / 32 % 32, d as int / 32 % 32);
    SameSymbol(c as int % 32, d as int % 32);
    SameHalves(c as int, d as int);
  }

  /** Different human-readable parts have different symbols. */
  lemma ExpandInjective(hrp: string, hrp': string)
    requires Narrow(hrp) && Narrow(hrp') && Expand(hrp) == Expand(hrp')
    ensures hrp == hrp'
  {
    assert |hrp| == |hrp'|;
    forall i | 0 <= i < |hrp| ensures hrp[i] == hrp'[i] {
      ExpandAt(hrp, i);
      ExpandAt(hrp', i);
      SameCharacter(hrp[i], hrp'[i]);
    }
  }

  /** A change of one character of the human-readable part changes at most two symbols. */
  lemma ExpandSameBut(hrp: string, hrp': string, i: nat, q: nat)
    requires |hrp| == |hrp'| && i < |hrp| && forall k :: 0 <= k < |hrp| && k != i ==> hrp[k] == hrp'[k]
    ensures Syndromes.SameBut(Expand(hrp), Expand(hrp'), i, |hrp| + 1 + i, q)
  {
    forall k | 0 <= k < |Expand(hrp)| && k != i && k != |hrp| + 1 + i ensures Expand(hrp)[k] == Expand(hrp')[k] {
      if k < |hrp| {
        ExpandAt(hrp, k);
        ExpandAt(hrp', k);
      } else if k > |hrp| {
        ExpandAt(hrp, k - |hrp| - 1);
        ExpandAt(hrp', k - |hrp| - 1);
      }
    }
  }

  /**
   * A change of one character of the human-readable part and of at most one symbol, at p, is found out, if all symbols
   * that it changes are within 1023.
   */
  lemma HrpChangeDetected(encoding: Encoding, hrp: string, hrp': string, i: nat, v: seq<bv5>, w: seq<bv5>, p: nat)
    requires Narrow(hrp) && Narrow(hrp') && hrp != hrp' && |hrp| == |hrp'| && i < |hrp|
    requires forall k :: 0 <= k < |hrp| && k != i ==> hrp[k] == hrp'[k]
    requires |v| == |w| && (forall k :: 0 <= k < |v| && k != p ==> v[k] == w[k])
    requires if v == w then |hrp| < 1022 else 2 * |hrp| + 1 + p - i < 1023
    ensures !(Verifies(hrp, v, encoding) && Verifies(hrp', w, encoding))
  {
    var n := |hrp|;
    var x, y := Expand(hrp) + v, Expand(hrp') + w;
    ExpandSameBut(hrp, hrp', i, i);
    assert x[..2 * n + 1] == Expand(hrp) && y[..2 * n + 1] == Expand(hrp');
    if x == y { ExpandInjective(hrp, hrp'); }
    if v == w {
      Bech32Roots.ThreeChanges(ONE, x, y, i, n, n + 1 + i);
    } else {
      Bech32Roots.ThreeChanges(ONE, x, y, i, n + 1 + i, 2 * n + 1 + p);
    }
  }

  // ----- Whole strings -----

  ghost function Encoded(encoding: Encoding, hrp: string, values: seq<bv5>): string {
    Joined(hrp, values, Checksum(encoding, hrp, values))
  }

  /** The string is accepted, split at pos, and r is what it says. */
  ghost predicate Accepts(s: string, limit: nat, pos: nat, r: DecodeResult) {
    && r.Decoded? && Formed(s, limit, pos)
    && r.hrp == Lower(s[..pos]) && r.data == Values(s[pos + 1..])[..|s| - pos - 7]
    && Verifies(r.hrp, Values(s[pos + 1..]), r.encoding)
  }

  /** A string is accepted in one way at most. */
  lemma AcceptedOnce(s: string, limit: nat, pos: nat, r: DecodeResult, pos': nat, r': DecodeResult)
    requires Accepts(s, limit, pos, r) && Accepts(s, limit, pos', r')
    ensures pos == pos' && r == r'
  {
    FormedLast(s, limit, pos, pos');
    FormedLast(s, limit, pos', pos);
    if r.encoding == BECH32 || r'.encoding == BECH32 {
      OneEncoding(r.hrp, Values(s[pos + 1..]));
    }
  }

  lemma JoinedAccepted(hrp: string, values: seq<bv5>, check: seq<bv5>, limit: nat, pos: nat, r: DecodeResult)
    requires NoCapitals(hrp) && |check| == 6
    ensures Accepts(Joined(hrp, values, check), limit, pos, r) <==>
      && pos == |hrp| && Readable(hrp, values, limit)
      && r.Decoded? && r.hrp == hrp && r.data == values && Verifies(hrp, values + check, r.encoding)
  {
    JoinedFormed(hrp, values, check, limit, pos);
    if pos == |hrp| && Readable(hrp, values, limit) {
      JoinedParts(hrp, values, check);
      JoinedValues(hrp, values, check);
      LowerNothing(hrp);
      assert (values + check)[..|values|] == values;
    }
  }

  /**
   * Decoding undoes encoding exactly if the human-readable part is printable and not empty and the string is not too
   * long; all other encodings are rejected.
   */
  lemma DecodeEncoded(encoding: Encoding, hrp: string, values: seq<bv5>, limit: nat, pos: nat, r: DecodeResult)
    requires NoCapitals(hrp)
    ensures Accepts(Encoded(encoding, hrp, values), limit, pos, r) <==>
            pos == |hrp| && Readable(hrp, values, limit) && r == Decoded(encoding, hrp, values)
  {
    var check := Checksum(encoding, hrp, values);
    VerifiesExactly(encoding, hrp, values, check);
    JoinedAccepted(hrp, values, check, limit, pos, r);
    if r.Decoded? && r.encoding != encoding { NotTwo(hrp, values + check, encoding, r.encoding); }
  }

  /** Encoding undoes decoding, up to the case of the letters. */
  lemma EncodeDecoded(s: string, limit: nat, pos: nat, r: DecodeResult)
    requires Accepts(s, limit, pos, r)
    ensures Encoded(r.encoding, r.hrp, r.data) == Lower(s)
  {
    var v := Values(s[pos + 1..]);
    var check := v[|v| - 6..];
    assert v == r.data + check;
    VerifiesExactly(r.encoding, r.hrp, r.data, check);
    SplitJoined(s, pos, r.data, check);
  }

  /** Strings as long as each other that differ at most at p, q and t are read as values that do so. */
  lemma ValuesSameBut(s: string, s': string, pos: nat, p: nat, q: nat, t: nat)
    requires pos < p < q < t < |s| && Syndromes.SameBut(s, s', p, q, t)
    requires AllValues(s[pos + 1..]) && AllValues(s'[pos + 1..])
    ensures Syndromes.SameBut(Values(s[pos + 1..]), Values(s'[pos + 1..]), p - pos - 1, q - pos - 1, t - pos - 1)
  {
  }

  /**
   * Two strings of the same encoding that are accepted with the separator in the same place, and differ at most in
   * three characters behind it within 1023, say the same.
   */
  lemma ThreeCharactersApart(s: string, s': string, limit: nat, pos: nat, r: DecodeResult, r': DecodeResult, p: nat,
                             q: nat, t: nat)
    requires Accepts(s, limit, pos, r) && Accepts(s', limit, pos, r') && r.encoding == r'.encoding
    requires pos < p < q < t < |s| && t - p < 1023 && Syndromes.SameBut(s, s', p, q, t)
    ensures r == r'
  {
    assert s[..pos] == s'[..pos];
    ValuesSameBut(s, s', pos, p, q, t);
    var v, w := Values(s[pos + 1..]), Values(s'[pos + 1..]);
    if v != w { ThreeChangesDetected(r.encoding, r.hrp, v, w, p - pos - 1, q - pos - 1, t - pos - 1); }
  }

  /**
   * Two strings of the same encoding that are accepted with the separator in the same place say the same if they differ
   * at most in one character before it.
   */
  lemma OneCharacterApart(s: string, s': string, limit: nat, pos: nat, r: DecodeResult, r': DecodeResult, i: nat)
    requires Accepts(s, limit, pos, r) && Accepts(s', limit, pos, r') && r.encoding == r'.encoding && pos < 1022
    requires i < pos && |s| == |s'| && forall k :: 0 <= k < |s| && k != i ==> s[k] == s'[k]
    ensures r == r'
  {
    var v, w := Values(s[pos + 1..]), Values(s'[pos + 1..]);
    assert s[pos + 1..] == s'[pos + 1..];
    NarrowLower(s, pos);
    NarrowLower(s', pos);
    if r.hrp != r'.hrp { HrpChangeDetected(r.encoding, r.hrp, r'.hrp, i, v, w, 0); }
  }

  lemma NarrowLower(s: string, pos: nat)
    requires CharactersOk(s) && pos <= |s|
    ensures Narrow(Lower(s[..pos]))
  {
    forall k | 0 <= k < pos ensures Lower(s[..pos])[k] < 1024 as char { assert s[..pos][k] == s[k]; }
  }

  // ----- The operations -----

  method PreparePolynomialCoefficients(hrp: string, values: seq<bv5>) returns (ret: seq<bv5>)
    ensures ret == Expand(hrp) + values
  {
    ret := [];
    for i := 0 to |hrp|
      invariant |ret| == i && forall j :: 0 <= j < i ==> ret[j] == High(hrp[j])
    {
      ret := ret + [High(hrp[i])];
    }
    ret := ret + [0];
    for i := 0 to |hrp|
      invariant |ret| == |hrp| + 1 + i && ret == Expand(hrp)[..|hrp| + 1 + i]
    {
      ret := ret + [Low(hrp[i])];
    }
    ret := ret + values;
  }

  method VerifyChecksum(hrp: string, values: seq<bv5>) returns (r: Option<Encoding>)
    ensures r.Some? ==> Verifies(hrp, values, r.value)
    ensures r.None? ==> !Verifies(hrp, values, BECH32) && !Verifies(hrp, values, BECH32M)
  {
    var enc := PreparePolynomialCoefficients(hrp, values);
    var check := PolyMod(enc);
    PackedIs(Checked(hrp, values), EncodingConstant(BECH32));
    PackedIs(Checked(hrp, values), EncodingConstant(BECH32M));
    r := if check == EncodingConstant(BECH32) then Some(BECH32)
         else if check == EncodingConstant(BECH32M) then Some(BECH32M) else None;
  }

  /** The six check symbols: what to add to six zeros to make the string verify. */
  method CreateChecksum(encoding: Encoding, hrp: string, values: seq<bv5>) returns (ret: seq<bv5>)
    ensures ret == Checksum(encoding, hrp, values)
  {
    var enc := PreparePolynomialCoefficients(hrp, values);
    var mod := PolyMod(enc + [0, 0, 0, 0, 0, 0]);
    ghost var r := Run(CODE, Checked(hrp, values), Zeros(CODE));
    RunConcat(CODE, ONE, enc, Zeros(CODE));
    UnpackSum(r, EncodingConstant(encoding));
    mod := mod ^ EncodingConstant(encoding);
    ret := Groups(mod);
  }

  /** The groups of five bits, highest first. */
  function Groups(c: bv30): (r: seq<bv5>)
    ensures |r| == 6 && r == Symbols(Unpack(c))
  {
    [Group(c >> 25), Group(c >> 20), Group(c >> 15), Group(c >> 10), Group(c >> 5), Group(c)]
  }

  method Encode(encoding: Encoding, hrp: string, values: seq<bv5>) returns (ret: string)
    requires NoCapitals(hrp)
    ensures ret == Encoded(encoding, hrp, values)
  {
    ret := hrp + [SEPARATOR];
    ret := AppendChars(ret, values);
    var check := CreateChecksum(encoding, hrp, values);
    ret := AppendChars(ret, check);
    JoinedChars(hrp, values, check);
  }

  method Decode(str: string, limit: nat) returns (r: DecodeResult)
    ensures r.Decoded? ==> exists pos :: Accepts(str, limit, pos, r)
    ensures r.Invalid? ==> forall pos, r' :: !Accepts(str, limit, pos, r')
  {
    r := Invalid;
    var errors := CheckCharacters(str);
    if errors != [] { return; }
    var pos := FindSeparator(str);
    if |str| > limit { return; }
    if pos <= 0 || pos + 6 >= |str| {
      forall p, r' ensures !Accepts(str, limit, p, r') { NotBehind(str, limit, p, r', pos); }
      return;
    }
    var values := ReadValues(str, pos);
    if values.None? {
      forall p, r' ensures !Accepts(str, limit, p, r') { NotBehind(str, limit, p, r', pos); }
      return;
    }
    var hrp := LowerOf(str[..pos]);
    var encoding := VerifyChecksum(hrp, values.value);
    if encoding.None? {
      forall p, r' ensures !Accepts(str, limit, p, r') { NotBehind(str, limit, p, r', pos); }
      return;
    }
    r := Decoded(encoding.value, hrp, values.value[..|values.value| - 6]);
    assert Accepts(str, limit, pos, r);
  }

  /** A string can only be split at its last separator. */
  lemma NotBehind(s: string, limit: nat, pos: nat, r: DecodeResult, last: int)
    requires -1 <= last < |s| && (last >= 0 ==> s[last] == SEPARATOR)
    requires forall i :: last < i < |s| ==> s[i] != SEPARATOR
    ensures Accepts(s, limit, pos, r) ==> pos == last
  {
    if Accepts(s, limit, pos, r) && last >= 0 { FormedLast(s, limit, pos, last); }
  }
}
