/** The Base58 text form of byte strings, src/base58.cpp. Bytes and digits are numbers. */
module Base58 {

  import opened Basics
  import opened Digits

  // ----- Characters -----

  /** The alphabet: digits and letters without 0, I, O and l. */
  function Symbol(d: nat): (c: char)
    requires d < 58
    ensures Digit(c) == d && !IsSpace(c)
  {
    if d < 9 then ('1' as int + d) as char
    else if d < 17 then ('A' as int + (d - 9)) as char
    else if d < 22 then ('J' as int + (d - 17)) as char
    else if d < 33 then ('P' as int + (d - 22)) as char
    else if d < 44 then ('a' as int + (d - 33)) as char
    else ('m' as int + (d - 44)) as char
  }

  /** The digit a character stands for, or -1. */
  function Digit(c: char): (d: int)
    ensures -1 <= d < 58
  {
    if '1' <= c <= '9' then c as int - '1' as int
    else if 'A' <= c <= 'H' then c as int - 'A' as int + 9
    else if 'J' <= c <= 'N' then c as int - 'J' as int + 17
    else if 'P' <= c <= 'Z' then c as int - 'P' as int + 22
    else if 'a' <= c <= 'k' then c as int - 'a' as int + 33
    else if 'm' <= c <= 'z' then c as int - 'm' as int + 44
    else -1
  }

  predicate IsSpace(c: char) {
    c == ' ' || c as int == 12 || c == '\n' || c == '\r' || c == '\t' || c as int == 11
  }

  const NUL: char := 0 as char

  lemma SymbolOf(c: char)
    requires Digit(c) != -1
    ensures Symbol(Digit(c)) == c && !IsSpace(c) && c != NUL
  {
  }

  /** 58^71 <= 256^52, by repeated squaring. */
  lemma DecodingSize(m: nat, b: nat, p: nat, q: nat)
    requires m == 58 && b == 256 && p == 71 && q == 52
    ensures Pow(m, p) <= Pow(b, q)
  {
    var m2 := Multiplied(m, 1, 58, 1, 58);
    var m4 := Multiplied(m, 2, m2, 2, m2);
    var m7 := Multiplied(m, 6, Multiplied(m, 4, m4, 2, m2), 1, 58);
    var m8 := Multiplied(m, 4, m4, 4, m4);
    var m16 := Multiplied(m, 8, m8, 8, m8);
    var m32 := Multiplied(m, 16, m16, 16, m16);
    var m64 := Multiplied(m, 32, m32, 32, m32);
    var m71 := Multiplied(m, 64, m64, 7, m7);
    var b2 := Multiplied(b, 1, 256, 1, 256);
    var b4 := Multiplied(b, 2, b2, 2, b2);
    var b8 := Multiplied(b, 4, b4, 4, b4);
    var b16 := Multiplied(b, 8, b8, 8, b8);
    var b48 := Multiplied(b, 32, Multiplied(b, 16, b16, 16, b16), 16, b16);
    var b52 := Multiplied(b, 48, b48, 4, b4);
    assert m71 <= b52;
  }

  ghost function Multiplied(b: nat, m: nat, x: nat, n: nat, y: nat): (z: nat)
    requires Pow(b, m) == x && Pow(b, n) == y
    ensures Pow(b, m + n) == z == x * y
  {
    PowAdd(b, m, n);
    x * y
  }

  lemma EncodingSize()
    ensures Pow(256, 8) <= Pow(58, 11)
  {
  }

  /** n characters fit the buffer of n * 733 / 1000 + 1 bytes. */
  lemma BytesFit(src: seq<nat>, n: nat, b: nat, m: nat)
    requires b == 256 && m == 58 && Below(m, src) && |src| <= n
    ensures |Convert(b, m, src)| <= n * 733 / 1000 + 1
  {
    var k, p, q := n * 733 / 1000, 71, 52;
    DecodingSize(m, b, p, q);
    ConvertFits(b, m, src, p, q, k);
  }

  /** n bytes fit the buffer of n * 138 / 100 + 1 characters. */
  lemma CharactersFit(src: seq<nat>, n: nat, b: nat, m: nat)
    requires b == 58 && m == 256 && Below(m, src) && |src| <= n
    ensures |Convert(b, m, src)| <= n * 138 / 100 + 1
  {
    EncodingSize();
    ConvertFits(b, m, src, 8, 11, n * 138 / 100);
  }

  // ----- What the text of a byte string is -----

  function LeadingZeros(b: seq<nat>): (n: nat)
    ensures n <= |b| && (forall i :: 0 <= i < n ==> b[i] == 0) && (n < |b| ==> b[n] != 0)
  {
    if b == [] || b[0] != 0 then 0 else 1 + LeadingZeros(b[1..])
  }

  function Zeros(n: nat): seq<nat> {
    seq(n, _ => 0)
  }

  function Text(d: seq<nat>): (t: string)
    requires Below(58, d)
    ensures |t| == |d| && forall i :: 0 <= i < |d| ==> t[i] == Symbol(d[i])
  {
    seq(|d|, i requires 0 <= i < |d| => Symbol(d[i]))
  }

  ghost predicate AllSymbols(t: string) {
    forall i :: 0 <= i < |t| ==> Digit(t[i]) != -1
  }

  ghost function Values(t: string): (d: seq<nat>)
    requires AllSymbols(t)
    ensures |d| == |t| && Below(58, d) && forall i :: 0 <= i < |t| ==> d[i] == Digit(t[i])
  {
    seq(|t|, i requires 0 <= i < |t| => Digit(t[i]))
  }

  /** Change the base of everything behind the leading zeros and keep those as they are. */
  ghost function Recode(b: nat, m: nat, d: seq<nat>): (r: seq<nat>)
    requires b > 1
    ensures Below(b, r)
  {
    var z := LeadingZeros(d);
    Zeros(z) + Flip(Convert(b, m, d[z..]))
  }

  lemma {:induction false} ZerosFirst(z: nat, d: seq<nat>)
    requires d == [] || d[0] != 0
    ensures LeadingZeros(Zeros(z) + d) == z && (Zeros(z) + d)[z..] == d
  {
    var n := LeadingZeros(Zeros(z) + d);
    assert z < |Zeros(z) + d| ==> (Zeros(z) + d)[z] == d[0];
    assert forall i :: 0 <= i < z ==> (Zeros(z) + d)[i] == 0;
  }

  /** Recoding back gives the digits again, for any digits. */
  lemma RecodeBack(b: nat, m: nat, d: seq<nat>)
    requires b > 1 && m > 1 && Below(m, d)
    ensures Recode(m, b, Recode(b, m, d)) == d
  {
    var z := LeadingZeros(d);
    var body := d[z..];
    var c := Flip(Convert(b, m, body));
    ConvertNormal(b, m, body);
    ZerosFirst(z, c);
    assert body != [] ==> body[0] == d[z];
    ConvertBack(b, m, body);
    assert d == Zeros(z) + body;
  }

  ghost function Encoded(b: seq<nat>): string {
    Text(Recode(58, 256, b))
  }

  ghost function Decoded(t: string): (b: seq<nat>)
    requires AllSymbols(t)
    ensures Below(256, b)
  {
    Recode(256, 58, Values(t))
  }

  /** Decoding undoes encoding. */
  lemma DecodeEncoded(b: seq<nat>)
    requires Below(256, b)
    ensures AllSymbols(Encoded(b)) && Decoded(Encoded(b)) == b
  {
    var d := Recode(58, 256, b);
    assert Values(Encoded(b)) == d;
    RecodeBack(58, 256, b);
  }

  /** Encoding undoes decoding. */
  lemma EncodeDecoded(t: string)
    requires AllSymbols(t)
    ensures Encoded(Decoded(t)) == t
  {
    RecodeBack(256, 58, Values(t));
    forall i | 0 <= i < |t| ensures Text(Values(t))[i] == t[i] { SymbolOf(t[i]); }
  }

  // ----- Surrounding spaces -----

  function TrimFront(s: string): string {
    if s != [] && IsSpace(s[0]) then TrimFront(s[1..]) else s
  }

  function TrimBack(s: string): string {
    if s != [] && IsSpace(s[|s| - 1]) then TrimBack(s[..|s| - 1]) else s
  }

  function Trim(s: string): string {
    TrimBack(TrimFront(s))
  }

  lemma {:induction false} TrimFrontIs(s: string, p: nat)
    requires p <= |s| && (forall i :: 0 <= i < p ==> IsSpace(s[i])) && (p < |s| ==> !IsSpace(s[p]))
    ensures TrimFront(s) == s[p..]
  {
    if p > 0 {
      TrimFrontIs(s[1..], p - 1);
    }
  }

  lemma {:induction false} TrimBackKeeps(s: string, q: nat)
    requires q < |s| && !IsSpace(s[q])
    ensures q < |TrimBack(s)| <= |s| && TrimBack(s) == s[..|TrimBack(s)|]
  {
    if IsSpace(s[|s| - 1]) {
      TrimBackKeeps(s[..|s| - 1], q);
    }
  }

  lemma {:induction false} TrimBackIs(s: string, q: nat)
    requires q <= |s| && (forall i :: q <= i < |s| ==> IsSpace(s[i])) && (q > 0 ==> !IsSpace(s[q - 1]))
    ensures TrimBack(s) == s[..q]
  {
    if q < |s| {
      TrimBackIs(s[..|s| - 1], q);
      assert s[..|s| - 1][..q] == s[..q];
    }
  }

  // ----- The loops -----

  /** The buffer holds d, least significant digit at its end, and zeros in front. */
  ghost predicate Holds(a: array<nat>, d: seq<nat>)
    reads a
  {
    && |d| <= a.Length
    && (forall i :: 0 <= i < |d| ==> a[a.Length - 1 - i] == d[i])
    && forall i :: 0 <= i < a.Length - |d| ==> a[i] == 0
  }

  lemma MulAddHead(b: nat, m: nat, d: seq<nat>, c: nat, x: nat, rest: seq<nat>)
    requires b > 1 && (d != [] || c > 0)
    requires if d == [] then x == 0 && rest == [] else x == d[0] && rest == d[1..]
    ensures MulAdd(b, m, d, c) == [(c + m * x) % b] + MulAdd(b, m, rest, (c + m * x) / b)
  {
  }

  /** The last i places of the buffer hold digits of goal; the rest of goal is still to be computed. */
  ghost predicate Partly(a: array<nat>, goal: seq<nat>, todo: seq<nat>, i: nat, rest: seq<nat>)
    reads a
  {
    && i + |todo| == |goal| <= a.Length && |rest| <= a.Length - i
    && (forall j :: 0 <= j < i ==> a[a.Length - 1 - j] == goal[j])
    && (forall j {:trigger todo[j]} :: 0 <= j < |todo| ==> todo[j] == goal[i + j])
    && (forall j :: 0 <= j < |rest| ==> a[a.Length - 1 - i - j] == rest[j])
    && forall j :: 0 <= j < a.Length - i - |rest| ==> a[j] == 0
  }

  /** One turn of the inner loop, on the digit at k. */
  method MulAddDigit(a: array<nat>, k: nat, b: nat, m: nat, c: nat, ghost d: seq<nat>, ghost rest: seq<nat>)
    returns (carry: nat)
    requires k < a.Length && b > 1 && (d != [] || c > 0)
    requires if d == [] then a[k] == 0 && rest == [] else a[k] == d[0] && rest == d[1..]
    modifies a
    ensures MulAdd(b, m, d, c) == [a[k]] + MulAdd(b, m, rest, carry)
    ensures forall j :: 0 <= j < a.Length && j != k ==> a[j] == old(a[j])
  {
    MulAddHead(b, m, d, c, a[k], rest);
    carry := c + m * a[k];
    a[k] := carry % b;
    carry := carry / b;
  }

  /** One turn of the inner loop. */
  method MulAddTurn(a: array<nat>, b: nat, m: nat, c: nat, ghost goal: seq<nat>, ghost todo: seq<nat>, i: nat,
                    ghost rest: seq<nat>)
    returns (carry: nat, ghost rest': seq<nat>, ghost todo': seq<nat>)
    requires b > 1 && i < a.Length && (rest != [] || c > 0)
    requires todo == MulAdd(b, m, rest, c) && Partly(a, goal, todo, i, rest)
    modifies a
    ensures |rest'| == (if rest == [] then 0 else |rest| - 1)
    ensures todo' == MulAdd(b, m, rest', carry) && Partly(a, goal, todo', i + 1, rest')
  {
    rest' := if rest == [] then [] else rest[1..];
    carry := MulAddDigit(a, a.Length - 1 - i, b, m, c, rest, rest');
    todo' := todo[1..];
    assert goal[i] == todo[0];
  }

  /** Multiply the number in the buffer by m and add ch; the final carry is zero if the result fits. */
  method MulAddInPlace(a: array<nat>, b: nat, m: nat, ch: nat, length: nat, ghost d: seq<nat>) returns (newLength: nat)
    requires b > 1 && Holds(a, d) && length == |d| && |MulAdd(b, m, d, ch)| <= a.Length
    modifies a
    ensures Holds(a, MulAdd(b, m, d, ch)) && newLength == |MulAdd(b, m, d, ch)|
  {
    ghost var goal := MulAdd(b, m, d, ch);
    ghost var rest, todo := d, goal;
    var carry: nat := ch;
    var i: nat := 0;
    while (carry != 0 || i < length) && i < a.Length
      invariant i <= a.Length && |rest| == (if i < length then length - i else 0)
      invariant todo == MulAdd(b, m, rest, carry) && Partly(a, goal, todo, i, rest)
    {
      carry, rest, todo := MulAddTurn(a, b, m, carry, goal, todo, i, rest);
      i := i + 1;
    }
    assert carry == 0;
    newLength := i;
  }

  /** Change the base of src, most significant digit first, in the buffer a. */
  method Fill(a: array<nat>, b: nat, m: nat, src: seq<nat>) returns (length: nat)
    requires b > 1 && Holds(a, []) && |Convert(b, m, src)| <= a.Length
    modifies a
    ensures Holds(a, Convert(b, m, src)) && length == |Convert(b, m, src)|
  {
    length := 0;
    for k := 0 to |src|
      invariant Holds(a, Convert(b, m, src[..k])) && length == |Convert(b, m, src[..k])|
    {
      ConvertNext(b, m, src, k);
      length := MulAddInPlace(a, b, m, src[k], length, Convert(b, m, src[..k]));
    }
    assert src[..|src|] == src;
  }

  lemma ConvertNext(b: nat, m: nat, src: seq<nat>, k: nat)
    requires b > 1 && k < |src|
    ensures Convert(b, m, src[..k + 1]) == MulAdd(b, m, Convert(b, m, src[..k]), src[k])
    ensures |Convert(b, m, src[..k + 1])| <= |Convert(b, m, src)|
  {
    assert src[..k + 1][..k] == src[..k];
    ConvertGrows(b, m, src, k + 1);
  }

  /** The text of a byte string. */
  method EncodeBase58(input: seq<nat>) returns (str: string)
    requires Below(256, input)
    ensures str == Encoded(input)
  {
    var zeroes: nat := 0;
    while zeroes < |input| && input[zeroes] == 0
      invariant zeroes <= LeadingZeros(input)
    {
      zeroes := zeroes + 1;
    }
    var rest := input[zeroes..];
    var b58 := new nat[|rest| * 138 / 100 + 1](_ => 0);
    CharactersFit(rest, |rest|, 58, 256);
    var length := Fill(b58, 58, 256, rest);
    ConvertNormal(58, 256, rest);
    str := WriteText(b58, length, zeroes, Convert(58, 256, rest));
  }

  method SkipZeros(a: array<nat>, start: nat) returns (it: nat)
    requires start <= a.Length
    ensures start <= it <= a.Length && (it < a.Length ==> a[it] != 0)
    ensures forall j :: start <= j < it ==> a[j] == 0
  {
    it := start;
    while it < a.Length && a[it] == 0
      invariant start <= it <= a.Length && forall j :: start <= j < it ==> a[j] == 0
    {
      it := it + 1;
    }
  }

  /** Write a '1' for each leading zero byte and the digits of the buffer from the first that is not zero. */
  method WriteText(a: array<nat>, length: nat, zeroes: nat, ghost d: seq<nat>) returns (str: string)
    requires Holds(a, d) && length == |d| && Normal(d) && Below(58, d)
    ensures str == Text(Zeros(zeroes) + Flip(d))
  {
    ghost var goal := Text(Zeros(zeroes) + Flip(d));
    var start := a.Length - length;
    var it := SkipZeros(a, start);
    assert d != [] ==> a[start] == d[|d| - 1];
    assert it == start;
    str := seq(zeroes, _ => '1');
    assert str == goal[..zeroes];
    while it < a.Length
      invariant start <= it <= a.Length && str == goal[..zeroes + (it - start)]
    {
      assert Flip(d)[it - start] == d[a.Length - 1 - it] == a[it];
      assert goal[zeroes + (it - start)] == Symbol(a[it]);
      str := str + [Symbol(a[it])];
      it := it + 1;
    }
  }

  // ----- Decoding -----

  /** Which strings decoding accepts. */
  ghost predicate Accepts(s: string, maxRetLen: int) {
    && NUL !in s
    && AllSymbols(Trim(s))
    && (Trim(s) == [] || |Decoded(Trim(s))| <= maxRetLen)
  }

  /** Decoding gives an encoded byte string back exactly if the limit leaves room for it. */
  lemma RoundTrip(b: seq<nat>, maxRetLen: int)
    requires Below(256, b)
    ensures Trim(Encoded(b)) == Encoded(b) && Decoded(Encoded(b)) == b
    ensures Accepts(Encoded(b), maxRetLen) <==> b == [] || |b| <= maxRetLen
  {
    var t := Encoded(b);
    DecodeEncoded(b);
    forall i | 0 <= i < |t| ensures !IsSpace(t[i]) && t[i] != NUL { SymbolOf(t[i]); }
    TrimFrontIs(t, 0);
    TrimBackIs(t, |t|);
    assert t == [] <==> b == [] by { RecodeEmpty(58, 256, b); }
  }

  lemma RecodeEmpty(b: nat, m: nat, d: seq<nat>)
    requires b > 1 && m > 1 && Below(m, d)
    ensures Recode(b, m, d) == [] <==> d == []
  {
    RecodeBack(b, m, d);
  }

  /** The first index from start on whose character is not a space. */
  method SkipSpaces(s: string, start: nat) returns (p: nat)
    requires start <= |s|
    ensures start <= p <= |s| && (forall i :: start <= i < p ==> IsSpace(s[i])) && (p < |s| ==> !IsSpace(s[p]))
  {
    p := start;
    while p < |s| && IsSpace(s[p])
      invariant start <= p <= |s| && forall i :: start <= i < p ==> IsSpace(s[i])
    {
      p := p + 1;
    }
  }

  /** The bytes, least significant first, of the characters from z up to p. */
  ghost function Body(s: string, z: nat, p: nat): seq<nat>
    requires z <= p <= |s| && AllSymbols(s[..p])
  {
    Convert(256, 58, Values(s[..p])[z..])
  }

  lemma BodyNext(s: string, z: nat, p: nat)
    requires z <= p < |s| && AllSymbols(s[..p]) && Digit(s[p]) != -1
    ensures AllSymbols(s[..p + 1])
    ensures Body(s, z, p + 1) == MulAdd(256, 58, Body(s, z, p), Digit(s[p]))
    ensures |Body(s, z, p + 1)| <= (|s| - z) * 733 / 1000 + 1
  {
    var next := Values(s[..p + 1])[z..];
    assert next[..p - z] == Values(s[..p])[z..];
    ConvertNext(256, 58, next, p - z);
    assert next[..p - z + 1] == next;
    BytesFit(next, |s| - z, 256, 58);
  }

  lemma DecodedSplit(s: string, z: nat, p: nat)
    requires z <= p <= |s| && AllSymbols(s[..p]) && (forall i :: 0 <= i < z ==> s[i] == '1') && (z < p ==> s[z] != '1')
    ensures Decoded(s[..p]) == Zeros(z) + Flip(Body(s, z, p))
  {
    var v := Values(s[..p]);
    assert forall i :: 0 <= i < z ==> v[i] == 0;
    assert z < p ==> v[z] == Digit(s[z]) != 0 by { if z < p { SymbolOf(s[z]); } }
    assert LeadingZeros(v) == z;
  }

  /** Why decoding stopped before the end of the digits: a bad character, or too many bytes. */
  ghost predicate Rejected(s: string, p: nat, maxRetLen: int) {
    || (p < |s| && !IsSpace(s[p]) && Digit(s[p]) == -1)
    || (0 < p <= |s| && AllSymbols(s[..p]) && |Decoded(s[..p])| > maxRetLen)
  }

  /** Count the leading '1's, as far as maxRetLen allows. */
  method CountOnes(s: string, maxRetLen: int) returns (zeroes: nat)
    ensures zeroes <= |s| && (forall i :: 0 <= i < zeroes ==> s[i] == '1')
    ensures (zeroes > 0 && zeroes > maxRetLen) || (zeroes < |s| ==> s[zeroes] != '1')
  {
    zeroes := 0;
    while zeroes < |s| && s[zeroes] == '1'
      invariant zeroes <= |s| && (forall i :: 0 <= i < zeroes ==> s[i] == '1')
    {
      zeroes := zeroes + 1;
      if zeroes > maxRetLen {
        return;
      }
    }
  }

  /** The buffer holds the number of the characters from z up to p. */
  ghost predicate Filled(a: array<nat>, s: string, z: nat, p: nat, length: nat)
    reads a
  {
    && z <= p <= |s| && AllSymbols(s[..p]) && a.Length == (|s| - z) * 733 / 1000 + 1
    && Holds(a, Body(s, z, p)) && length == |Body(s, z, p)|
  }

  /** Add the character at p to the number in the buffer. */
  method AddCharacter(a: array<nat>, s: string, z: nat, p: nat, next: nat, length: nat) returns (newLength: nat)
    requires Filled(a, s, z, p, length) && p < |s| && Digit(s[p]) != -1 && next == p + 1
    modifies a
    ensures Filled(a, s, z, next, newLength)
  {
    BodyNext(s, z, p);
    newLength := MulAddInPlace(a, 256, 58, Digit(s[p]), length, Body(s, z, p));
  }

  /** Decode the text in front of the first space; maxRetLen bounds the number of bytes. */
  method DecodeDigits(s: string, maxRetLen: int) returns (p: nat, r: Option<seq<nat>>)
    ensures p <= |s|
    ensures r.None? ==> Rejected(s, p, maxRetLen)
    ensures r.Some? ==> AllSymbols(s[..p]) && r.value == Decoded(s[..p]) && (p < |s| ==> IsSpace(s[p]))
    ensures r.Some? && p > 0 ==> |r.value| <= maxRetLen
  {
    p := CountOnes(s, maxRetLen);
    DecodedSplit(s, p, p);
    if p > 0 && p > maxRetLen {
      return p, None;
    }
    var zeroes := p;
    var b256 := new nat[(|s| - zeroes) * 733 / 1000 + 1](_ => 0);
    var length: nat := 0;
    while p < |s| && !IsSpace(s[p])
      invariant zeroes <= p && Filled(b256, s, zeroes, p, length)
      invariant p > 0 ==> length + zeroes <= maxRetLen
    {
      if Digit(s[p]) == -1 {
        return p, None;
      }
      var next := p + 1;
      length := AddCharacter(b256, s, zeroes, p, next, length);
      p := next;
      if length + zeroes > maxRetLen {
        DecodedSplit(s, zeroes, p);
        return p, None;
      }
    }
    DecodedSplit(s, zeroes, p);
    var bytes := ReadBytes(b256, length, zeroes, Body(s, zeroes, p));
    r := Some(bytes);
  }

  lemma RecodeGrows(b: nat, m: nat, v: seq<nat>, q: nat)
    requires b > 1 && q <= |v|
    ensures |Recode(b, m, v[..q])| <= |Recode(b, m, v)|
  {
    var z, u := LeadingZeros(v), v[..q];
    if z < q {
      assert LeadingZeros(u) == z;
      assert v[z..][..q - z] == u[z..];
      ConvertGrows(b, m, v[z..], q - z);
    } else {
      assert LeadingZeros(u) == q;
    }
  }

  lemma DecodedGrows(t: string, q: nat)
    requires q <= |t| && AllSymbols(t)
    ensures AllSymbols(t[..q]) && |Decoded(t[..q])| <= |Decoded(t)|
  {
    assert Values(t[..q]) == Values(t)[..q];
    RecodeGrows(256, 58, Values(t), q);
  }

  lemma BadCharacter(t: string, q: nat)
    requires q < |t| && !IsSpace(t[q]) && Digit(t[q]) == -1
    ensures !AllSymbols(TrimBack(t))
  {
    TrimBackKeeps(t, q);
    assert TrimBack(t)[q] == t[q];
  }

  lemma LongPrefix(t: string, q: nat)
    requires 0 < q <= |t| && AllSymbols(t[..q]) && AllSymbols(TrimBack(t))
    ensures TrimBack(t) != [] && |Decoded(TrimBack(t))| >= |Decoded(t[..q])|
  {
    var u := TrimBack(t);
    assert t[..q][q - 1] == t[q - 1];
    SymbolOf(t[q - 1]);
    TrimBackKeeps(t, q - 1);
    assert u[..q] == t[..q];
    DecodedGrows(u, q);
  }

  lemma RejectedText(t: string, q: nat, maxRetLen: int)
    requires Rejected(t, q, maxRetLen)
    ensures AllSymbols(TrimBack(t)) ==> TrimBack(t) != [] && |Decoded(TrimBack(t))| > maxRetLen
  {
    if AllSymbols(TrimBack(t)) {
      if q < |t| && !IsSpace(t[q]) && Digit(t[q]) == -1 {
        BadCharacter(t, q);
      } else {
        LongPrefix(t, q);
      }
    }
  }

  /** Decode a text with spaces around it. */
  method DecodeBase58(s: string, maxRetLen: int) returns (r: Option<seq<nat>>)
    ensures r.Some? <==> Accepts(s, maxRetLen)
    ensures r.Some? ==> r.value == Decoded(Trim(s))
  {
    if NUL in s {
      return None;
    }
    var p := SkipSpaces(s, 0);
    TrimFrontIs(s, p);
    var t := s[p..];
    var q;
    q, r := DecodeDigits(t, maxRetLen);
    if r.None? {
      RejectedText(t, q, maxRetLen);
      return;
    }
    var e := SkipSpaces(t, q);
    if e < |t| {
      TrimBackKeeps(t, e);
      assert Trim(s)[q] == t[q];
      return None;
    }
    assert q > 0 ==> t[..q][q - 1] == t[q - 1];
    if q > 0 { SymbolOf(t[q - 1]); }
    TrimBackIs(t, q);
  }

  method ReadBytes(a: array<nat>, length: nat, zeroes: nat, ghost d: seq<nat>) returns (bytes: seq<nat>)
    requires Holds(a, d) && length == |d|
    ensures bytes == Zeros(zeroes) + Flip(d)
  {
    ghost var goal := Zeros(zeroes) + Flip(d);
    var start := a.Length - length;
    var it := start;
    bytes := seq(zeroes, _ => 0);
    assert bytes == goal[..zeroes];
    while it < a.Length
      invariant start <= it <= a.Length && bytes == goal[..zeroes + (it - start)]
    {
      assert Flip(d)[it - start] == d[a.Length - 1 - it] == a[it];
      assert goal[zeroes + (it - start)] == a[it];
      bytes := bytes + [a[it]];
      it := it + 1;
    }
  }
}
