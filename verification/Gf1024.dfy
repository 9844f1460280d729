/**
 * The field GF(1024) of src/bech32.cpp: pairs over GF(32), which is GF(2) with a root of x^5 + x^3 + 1, that stand for
 * hi e + lo with a root e of x^2 + 9 x + 23.
 */
module Gf1024 {

  import opened RootCodes

  datatype Elem = Elem(hi: bv5, lo: bv5)

  const ZERO: Elem := Elem(0, 0)
  const ONE: Elem := Elem(0, 1)

  // ----- GF(32) -----

  /** Times 2: what would be 32 is 9. */
  function Twice32(x: bv5): bv5 {
    ((x & 15) << 1) ^ ((x >> 4) & 1) ^ ((x >> 1) & 8)
  }

  /** Times 9, bit by bit. */
  function Nine(x: bv5): bv5 {
    x ^ (x >> 2) ^ ((x >> 4) & 1) ^ ((x & 3) << 3) ^ ((x & 12) << 1) ^ ((x >> 1) & 8)
  }

  /** Times 23, bit by bit. */
  function TwentyThree(x: bv5): bv5 {
    x ^ ((x >> 1) & 7) ^ ((x & 15) << 1) ^ ((x >> 4) & 1) ^ ((x & 1) << 2) ^ ((x & 1) << 4)
  }

  /** 9 is 8 + 1 and 23 is 16 + 4 + 2 + 1. */
  lemma Multiples(x: bv5)
    ensures Nine(x) == x ^ Twice32(Twice32(Twice32(x)))
    ensures TwentyThree(x) == x ^ Twice32(x) ^ Twice32(Twice32(x)) ^ Twice32(Twice32(Twice32(Twice32(x))))
  {
  }

  lemma TwiceAdds(x: bv5, y: bv5)
    ensures Twice32(x ^ y) == Twice32(x) ^ Twice32(y)
  {
  }

  lemma NineAdds(x: bv5, y: bv5)
    ensures Nine(x ^ y) == Nine(x) ^ Nine(y)
  {
  }

  lemma TwentyThreeAdds(x: bv5, y: bv5)
    ensures TwentyThree(x ^ y) == TwentyThree(x) ^ TwentyThree(y)
  {
  }

  lemma Reordered(a: bv5, b: bv5, c: bv5, d: bv5)
    ensures (a ^ b) ^ (c ^ d) == (a ^ c) ^ (b ^ d)
  {
  }

  // ----- GF(1024) -----

  function Add(x: Elem, y: Elem): Elem {
    Elem(x.hi ^ y.hi, x.lo ^ y.lo)
  }

  /** Times e. */
  function ByRoot(z: Elem): Elem {
    Elem(Nine(z.hi) ^ z.lo, TwentyThree(z.hi))
  }

  function Double(z: Elem): Elem {
    Elem(Twice32(z.hi), Twice32(z.lo))
  }

  const FIELD: Ring<Elem> := Ring((x, y) => Add(x, y), ZERO, z => ByRoot(z))

  const DOUBLE: Elem -> Elem := z => Double(z)

  lemma RootAdds(x: Elem, y: Elem)
    ensures ByRoot(Add(x, y)) == Add(ByRoot(x), ByRoot(y))
  {
    NineAdds(x.hi, y.hi);
    TwentyThreeAdds(x.hi, y.hi);
    Reordered(Nine(x.hi), Nine(y.hi), x.lo, y.lo);
  }

  lemma AddLaws(x: Elem, y: Elem, z: Elem)
    ensures Add(Add(x, y), z) == Add(Add(x, z), y) && Add(x, y) == Add(y, x) && Add(x, ZERO) == x && Add(x, x) == ZERO
  {
  }

  lemma LawHolds(x: Elem, y: Elem, z: Elem)
    ensures Law(FIELD, x, y, z)
  {
    AddLaws(x, y, z);
    RootAdds(x, y);
  }

  lemma FieldLinear()
    ensures Linear(FIELD)
  {
    forall x: Elem, y: Elem, z: Elem ensures Law(FIELD, x, y, z) { LawHolds(x, y, z); }
  }

  // ----- Powers of e -----

  function BitsOf(x: bv5): Bits {
    Bits(x & 1 != 0, x & 2 != 0, x & 4 != 0, x & 8 != 0, x & 16 != 0)
  }

  function OnElem(b: bool, z: Elem): Elem {
    if b then z else ZERO
  }

  function Scale(x: bv5, z: Elem): Elem {
    Add(Add(Add(Add(OnElem(x & 1 != 0, z), OnElem(x & 2 != 0, Double(z))), OnElem(x & 4 != 0, Double(Double(z)))),
            OnElem(x & 8 != 0, Double(Double(Double(z))))), OnElem(x & 16 != 0, Double(Double(Double(Double(z))))))
  }

  /** The product in GF(1024). */
  function Times(y: Elem, z: Elem): Elem {
    Add(Scale(z.lo, y), Scale(z.hi, ByRoot(y)))
  }

  lemma ScaleIs(x: bv5, z: Elem)
    ensures Scaled(FIELD, DOUBLE, BitsOf(x), z) == Scale(x, z)
  {
  }

  lemma TimesIs(y: Elem, z: Elem)
    ensures Product(FIELD, DOUBLE, y, BitsOf(z.hi), BitsOf(z.lo)) == Times(y, z)
  {
    ScaleIs(z.lo, y);
    ScaleIs(z.hi, ByRoot(y));
  }

  lemma ScaleOne(x: bv5)
    ensures Scale(x, ONE) == Elem(0, x)
  {
  }

  lemma ScaleRoot(x: bv5)
    ensures Scale(x, Elem(1, 0)) == Elem(x, 0)
  {
  }

  lemma TimesOne(z: Elem)
    ensures Times(ONE, z) == z
  {
    ScaleOne(z.lo);
    ScaleRoot(z.hi);
    assert ByRoot(ONE) == Elem(1, 0);
  }

  lemma TwiceExchange(x: bv5)
    ensures Nine(Twice32(x)) == Twice32(Nine(x)) && TwentyThree(Twice32(x)) == Twice32(TwentyThree(x))
  {
  }

  lemma DoubleMaps(y: Elem, z: Elem)
    ensures Maps(FIELD, DOUBLE, y, z)
  {
    TwiceAdds(y.hi, z.hi);
    TwiceAdds(y.lo, z.lo);
    TwiceExchange(z.hi);
    TwiceAdds(Nine(z.hi), z.lo);
  }

  lemma FieldDoubles()
    ensures Respects(FIELD, DOUBLE)
  {
    forall y: Elem, z: Elem ensures Maps(FIELD, DOUBLE, y, z) { DoubleMaps(y, z); }
  }

  function Power(n: nat): Elem {
    Iter(FIELD, n, ONE)
  }

  /** The n-th power of the operator multiplies by the n-th power of e. */
  lemma IterIs(n: nat, z: Elem)
    ensures Iter(FIELD, n, z) == Times(Power(n), z)
  {
    FieldLinear();
    FieldDoubles();
    TimesOne(z);
    TimesIs(ONE, z);
    IterProduct(FIELD, DOUBLE, n, ONE, BitsOf(z.hi), BitsOf(z.lo));
    TimesIs(Power(n), z);
  }

  lemma PowerSum(m: nat, n: nat)
    ensures Power(m + n) == Times(Power(m), Power(n))
  {
    IterIter(FIELD, m, n, ONE);
    IterIs(m, Power(n));
  }

  ghost predicate Is(n: nat, z: Elem) {
    Power(n) == z
  }

  /** e to the m + n from e to the m and e to the n. */
  lemma Both(m: nat, n: nat, x: Elem, y: Elem, z: Elem)
    requires Is(m, x) && Is(n, y) && Times(x, y) == z
    ensures Is(m + n, z)
  {
    PowerSum(m, n);
  }

  lemma FirstPowers(i: nat)
    requires i == 1
    ensures Is(2 * i, Elem(9, 23)) && Is(3 * i, Elem(4, 11)) && Is(31 * i, Elem(6, 30))
  {
    assert Power(i) == FIELD.step(Iter(FIELD, i - 1, ONE));
    Both(i, i, Elem(1, 0), Elem(1, 0), Elem(9, 23));
    Both(2 * i, i, Elem(9, 23), Elem(1, 0), Elem(4, 11));
    Both(3 * i, 3 * i, Elem(4, 11), Elem(4, 11), Elem(29, 6));
    Both(6 * i, 6 * i, Elem(29, 6), Elem(29, 6), Elem(14, 14));
    Both(12 * i, 12 * i, Elem(14, 14), Elem(14, 14), Elem(31, 15));
    Both(24 * i, i, Elem(31, 15), Elem(1, 0), Elem(30, 19));
    Both(25 * i, 6 * i, Elem(30, 19), Elem(29, 6), Elem(6, 30));
  }

  lemma MiddlePowers(i: nat)
    requires i == 1
    ensures Is(33 * i, Elem(0, 23)) && Is(93 * i, Elem(26, 22)) && Is(279 * i, Elem(18, 4)) && Is(341 * i, Elem(11, 13))
  {
    FirstPowers(i);
    Both(31 * i, 2 * i, Elem(6, 30), Elem(9, 23), Elem(0, 23));
    Both(31 * i, 31 * i, Elem(6, 30), Elem(6, 30), Elem(16, 3));
    Both(62 * i, 31 * i, Elem(16, 3), Elem(6, 30), Elem(26, 22));
    Both(93 * i, 93 * i, Elem(26, 22), Elem(26, 22), Elem(23, 28));
    Both(186 * i, 93 * i, Elem(23, 28), Elem(26, 22), Elem(18, 4));
    Both(279 * i, 62 * i, Elem(18, 4), Elem(16, 3), Elem(11, 13));
  }

  lemma LastPowers(i: nat)
    requires i == 1
    ensures Is(1023 * i, ONE) && Is(997 * i, Elem(13, 29)) && Is(998 * i, Elem(3, 5)) && Is(999 * i, Elem(30, 16))
  {
    FirstPowers(i);
    MiddlePowers(i);
    assert Power(i) == FIELD.step(Iter(FIELD, i - 1, ONE));
    Both(341 * i, 341 * i, Elem(11, 13), Elem(11, 13), Elem(11, 12));
    Both(682 * i, 341 * i, Elem(11, 12), Elem(11, 13), Elem(0, 1));
    Both(682 * i, 279 * i, Elem(11, 12), Elem(18, 4), Elem(16, 30));
    Both(961 * i, 33 * i, Elem(16, 30), Elem(0, 23), Elem(17, 4));
    Both(994 * i, 3 * i, Elem(17, 4), Elem(4, 11), Elem(13, 29));
    Both(997 * i, i, Elem(13, 29), Elem(1, 0), Elem(3, 5));
    Both(998 * i, i, Elem(3, 5), Elem(1, 0), Elem(30, 16));
  }

  // ----- The order of e -----

  /** No element but zero is left alone by the powers 341, 93 and 33 of e. */
  lemma MovedBy341(z: Elem)
    ensures Times(Elem(11, 13), z) == z ==> z == ZERO
  {
  }

  lemma MovedBy93(z: Elem)
    ensures Times(Elem(26, 22), z) == z ==> z == ZERO
  {
  }

  lemma MovedBy33(z: Elem)
    ensures Times(Elem(0, 23), z) == z ==> z == ZERO
  {
  }

  lemma FieldTurns(z: Elem)
    ensures Turns(FIELD, z)
  {
    MiddlePowers(1);
    LastPowers(1);
    IterIs(ORDER, z);
    TimesOne(z);
    IterIs(BY_3, z);
    IterIs(BY_11, z);
    IterIs(BY_31, z);
    MovedBy341(z);
    MovedBy93(z);
    MovedBy33(z);
  }

  /** The operator of the field has order 1023: e is primitive. */
  lemma FieldLawful()
    ensures Lawful(FIELD)
  {
    FieldLinear();
    forall z: Elem ensures Turns(FIELD, z) { FieldTurns(z); }
  }
}
