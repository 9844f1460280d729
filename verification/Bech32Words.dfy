/**
 * The code of Bech32 and Bech32m over 5-bit symbols, and its remainder packed into 30 bits, src/bech32.cpp. The source
 * keeps the 30 bits in a 32-bit word.
 */
module Bech32Words {

  import opened CheckCodes

  // ----- The code -----

  /** The generator less its leading term, times 1, 2, 4, 8 and 16. */
  const GEN1: Remainder<bv5> := Remainder(29, 22, 20, 21, 29, 18)
  const GEN2: Remainder<bv5> := Remainder(19, 5, 1, 3, 19, 13)
  const GEN4: Remainder<bv5> := Remainder(15, 10, 2, 6, 15, 26)
  const GEN8: Remainder<bv5> := Remainder(30, 20, 4, 12, 30, 29)
  const GEN16: Remainder<bv5> := Remainder(21, 1, 8, 24, 21, 19)
  const NOTHING: Remainder<bv5> := Remainder(0, 0, 0, 0, 0, 0)

  function Xor(x: bv5, y: bv5): bv5 {
    x ^ y
  }

  function Xors(s: Remainder<bv5>, t: Remainder<bv5>): Remainder<bv5> {
    Remainder(s.a ^ t.a, s.b ^ t.b, s.c ^ t.c, s.d ^ t.d, s.e ^ t.e, s.f ^ t.f)
  }

  function Tap(on: bool, gen: Remainder<bv5>): Remainder<bv5> {
    if on then gen else NOTHING
  }

  function Times(x: bv5): Remainder<bv5> {
    Xors(Xors(Xors(Xors(Tap(x & 1 != 0, GEN1), Tap(x & 2 != 0, GEN2)), Tap(x & 4 != 0, GEN4)), Tap(x & 8 != 0, GEN8)),
         Tap(x & 16 != 0, GEN16))
  }

  const CODE: Code<bv5> := Code((x, y) => Xor(x, y), 0, x => Times(x))

  function TapLow(on: bool, k: bv5): bv5 {
    if on then k else 0
  }

  function Product(x: bv5, k1: bv5, k2: bv5, k4: bv5, k8: bv5, k16: bv5): bv5 {
    TapLow(x & 1 != 0, k1) ^ TapLow(x & 2 != 0, k2) ^ TapLow(x & 4 != 0, k4) ^ TapLow(x & 8 != 0, k8)
    ^ TapLow(x & 16 != 0, k16)
  }

  lemma TimesLow(x: bv5)
    ensures Times(x).f == Product(x, 18, 13, 26, 29, 19)
  {
  }

  /** Seventeen times eighteen is one in GF(32). */
  lemma Divided(x: bv5)
    ensures Product(Product(x, 18, 13, 26, 29, 19), 17, 11, 22, 5, 10) == x
  {
  }

  lemma XorLaws(x: bv5, y: bv5, z: bv5)
    ensures (x ^ y) ^ z == (x ^ z) ^ y && x ^ y == y ^ x && x ^ 0 == x && x ^ x == 0
  {
  }

  lemma CodeLawful()
    ensures Lawful(CODE)
  {
    forall x: bv5, y: bv5, z: bv5 ensures Law(CODE, x, y, z) {
      LawHolds(x, y, z);
    }
  }

  lemma LowInjective(x: bv5, y: bv5)
    ensures Times(x).f == Times(y).f ==> x == y
  {
    TimesLow(x);
    TimesLow(y);
    Divided(x);
    Divided(y);
  }

  lemma LawHolds(x: bv5, y: bv5, z: bv5)
    ensures Law(CODE, x, y, z)
  {
    XorLaws(x, y, z);
    LowInjective(x, y);
  }

  // ----- Packed words -----

  function Pack(s: Remainder<bv5>): bv30 {
    ((s.a as bv30) << 25) | ((s.b as bv30) << 20) | ((s.c as bv30) << 15) | ((s.d as bv30) << 10)
    | ((s.e as bv30) << 5) | (s.f as bv30)
  }

  function Group(c: bv30): bv5 {
    (c & 31) as bv5
  }

  function Unpack(c: bv30): Remainder<bv5> {
    Remainder(Group(c >> 25), Group(c >> 20), Group(c >> 15), Group(c >> 10), Group(c >> 5), Group(c))
  }

  lemma PackUnpack(c: bv30)
    ensures Pack(Unpack(c)) == c
  {
  }

  lemma UnpackPack(s: Remainder<bv5>)
    ensures Unpack(Pack(s)) == s
  {
  }

  lemma PackXors(s: Remainder<bv5>, t: Remainder<bv5>)
    ensures Pack(Xors(s, t)) == Pack(s) ^ Pack(t)
  {
  }

  function TapWord(on: bool, k: bv30): bv30 {
    if on then k else 0
  }

  /** What a step adds for the top group c0 of the word. */
  function WordTimes(c0: bv30): bv30 {
    TapWord(c0 & 1 != 0, 0x3b6a57b2) ^ TapWord(c0 & 2 != 0, 0x26508e6d) ^ TapWord(c0 & 4 != 0, 0x1ea119fa)
    ^ TapWord(c0 & 8 != 0, 0x3d4233dd) ^ TapWord(c0 & 16 != 0, 0x2a1462b3)
  }

  function Top(c: bv30): bv30 {
    c >> 25
  }

  function WordShift(c: bv30, v: bv5): bv30 {
    ((c & 0x1ffffff) << 5) ^ (v as bv30)
  }

  function WordStep(c: bv30, v: bv5): bv30 {
    WordShift(c, v) ^ WordTimes(Top(c))
  }

  lemma PackTop(s: Remainder<bv5>)
    ensures Top(Pack(s)) == s.a as bv30
  {
  }

  lemma PackShift(s: Remainder<bv5>, v: bv5)
    ensures WordShift(Pack(s), v) == Pack(Shift(s, v))
  {
  }

  lemma Bits(x: bv5)
    ensures (x as bv30) & 1 == 0 <==> x & 1 == 0
    ensures (x as bv30) & 2 == 0 <==> x & 2 == 0
    ensures (x as bv30) & 4 == 0 <==> x & 4 == 0
    ensures (x as bv30) & 8 == 0 <==> x & 8 == 0
    ensures (x as bv30) & 16 == 0 <==> x & 16 == 0
  {
  }

  lemma PackGenerators()
    ensures Pack(GEN1) == 0x3b6a57b2 && Pack(GEN2) == 0x26508e6d && Pack(GEN4) == 0x1ea119fa
    ensures Pack(GEN8) == 0x3d4233dd && Pack(GEN16) == 0x2a1462b3 && Pack(NOTHING) == 0
  {
  }

  lemma PackTap(on: bool, gen: Remainder<bv5>)
    ensures Pack(Tap(on, gen)) == TapWord(on, Pack(gen))
  {
    PackGenerators();
  }

  lemma PackThree(p: Remainder<bv5>, q: Remainder<bv5>, r: Remainder<bv5>)
    ensures Pack(Xors(Xors(p, q), r)) == Pack(p) ^ Pack(q) ^ Pack(r)
  {
    PackXors(p, q);
    PackXors(Xors(p, q), r);
  }

  lemma PackFive(p: Remainder<bv5>, q: Remainder<bv5>, r: Remainder<bv5>, s: Remainder<bv5>, t: Remainder<bv5>)
    ensures Pack(Xors(Xors(Xors(Xors(p, q), r), s), t)) == Pack(p) ^ Pack(q) ^ Pack(r) ^ Pack(s) ^ Pack(t)
  {
    PackThree(Xors(Xors(p, q), r), s, t);
    PackThree(p, q, r);
  }

  lemma PackTimes(x: bv5)
    ensures Pack(Times(x)) == WordTimes(x as bv30)
  {
    Bits(x);
    PackGenerators();
    PackTap(x & 1 != 0, GEN1);
    PackTap(x & 2 != 0, GEN2);
    PackTap(x & 4 != 0, GEN4);
    PackTap(x & 8 != 0, GEN8);
    PackTap(x & 16 != 0, GEN16);
    PackFive(Tap(x & 1 != 0, GEN1), Tap(x & 2 != 0, GEN2), Tap(x & 4 != 0, GEN4), Tap(x & 8 != 0, GEN8),
             Tap(x & 16 != 0, GEN16));
  }

  lemma WordParts(s: Remainder<bv5>, v: bv5)
    ensures WordStep(Pack(s), v) == Pack(Shift(s, v)) ^ Pack(Times(s.a))
  {
    PackTop(s);
    PackTimes(s.a);
    PackShift(s, v);
  }

  lemma StepIs(s: Remainder<bv5>, v: bv5)
    ensures Step(CODE, s, v) == Xors(Shift(s, v), Times(s.a))
  {
    TimesIs(s.a);
    PlusIs(Shift(s, v), Times(s.a));
  }

  lemma TimesIs(x: bv5)
    ensures CODE.times(x) == Times(x)
  {
  }

  lemma PlusIs(s: Remainder<bv5>, t: Remainder<bv5>)
    ensures Plus(CODE, s, t) == Xors(s, t)
  {
  }

  /** The step on the word is the step on the remainder. */
  lemma PackStep(s: Remainder<bv5>, v: bv5)
    ensures WordStep(Pack(s), v) == Pack(Step(CODE, s, v))
  {
    calc {
      WordStep(Pack(s), v);
    == { WordParts(s, v); }
      Pack(Shift(s, v)) ^ Pack(Times(s.a));
    == { PackXors(Shift(s, v), Times(s.a)); }
      Pack(Xors(Shift(s, v), Times(s.a)));
    == { StepIs(s, v); }
      Pack(Step(CODE, s, v));
    }
  }

  /** Adding packed words adds the remainders. */
  lemma UnpackSum(r: Remainder<bv5>, k: bv30)
    ensures Unpack(Pack(r) ^ k) == Plus(CODE, r, Unpack(k))
  {
    calc {
      Unpack(Pack(r) ^ k);
    == { PackUnpack(k); }
      Unpack(Pack(r) ^ Pack(Unpack(k)));
    == { PackXors(r, Unpack(k)); }
      Unpack(Pack(Xors(r, Unpack(k))));
    == { UnpackPack(Xors(r, Unpack(k))); }
      Xors(r, Unpack(k));
    == { PlusIs(r, Unpack(k)); }
      Plus(CODE, r, Unpack(k));
    }
  }

  lemma PackedIs(r: Remainder<bv5>, k: bv30)
    ensures Pack(r) == k <==> r == Unpack(k)
  {
    PackUnpack(k);
    UnpackPack(r);
  }

  const ONE: Remainder<bv5> := Remainder(0, 0, 0, 0, 0, 1)

  /** The remainder, packed, of the symbols behind a leading one. */
  method PolyMod(v: seq<bv5>) returns (c: bv30)
    ensures c == Pack(Run(CODE, ONE, v))
  {
    c := 1;
    ghost var s := ONE;
    assert v[0..] == v;
    for i := 0 to |v|
      invariant c == Pack(s) && Run(CODE, ONE, v) == Run(CODE, s, v[i..])
    {
      PackStep(s, v[i]);
      RunOne(CODE, s, v, i);
      c := WordStep(c, v[i]);
      s := Step(CODE, s, v[i]);
    }
  }

  lemma RunOne(k: Code<bv5>, s: Remainder<bv5>, v: seq<bv5>, i: nat)
    requires i < |v|
    ensures Run(k, s, v[i..]) == Run(k, Step(k, s, v[i]), v[i + 1..])
  {
    assert v[i..][1..] == v[i + 1..];
  }
}
