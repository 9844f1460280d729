/** Compact difficulty targets and the work of a block, src/arith_uint256.cpp:174-216 and src/chain.cpp:121-134. */
module Targets {

  import opened Digits
  import opened Limbs
  import opened Shifts
  import opened Bignums
  import opened Divisions

  // ----- What a compact number stands for -----

  function SizeOf(compact: nat): nat {
    compact / 0x100_0000
  }

  function Mantissa(compact: nat): (m: nat)
    ensures m < 0x80_0000
  {
    compact % 0x80_0000
  }

  predicate SignBit(compact: nat) {
    compact / 0x80_0000 % 2 == 1
  }

  /** Mantissa times 256^(size - 3), rounded down. */
  function Meaning(compact: nat): nat {
    var size, word := SizeOf(compact), Mantissa(compact);
    if size <= 3 then word / Pow(256, 3 - size) else (Times(word, 0, Pow(256, size - 3)); word * Pow(256, size - 3))
  }

  /** The number of bytes of v. */
  function ByteLength(v: nat): (n: nat)
    ensures v < Pow(256, n) && (v > 0 ==> n > 0 && Pow(256, n - 1) <= v) && (v == 0 ==> n == 0)
  {
    if v == 0 then 0 else 1 + ByteLength(v / 256)
  }

  /** The three leading bytes of v. */
  function Leading(v: nat): nat {
    var size := ByteLength(v);
    if size <= 3 then (Times(v, 0, Pow(256, 3 - size)); v * Pow(256, 3 - size)) else v / Pow(256, size - 3)
  }

  /** The compact form of v; a leading bit that would be the sign makes room for a byte. */
  function CompactOf(v: nat): nat {
    var size, m := ByteLength(v), Leading(v);
    if m >= 0x80_0000 then 0x100_0000 * (size + 1) + m / 256 else 0x100_0000 * size + m
  }

  /** The compact form with the sign bit, unless the mantissa is zero. */
  function Written(v: nat, negative: bool): nat {
    CompactOf(v) + if negative && Mantissa(CompactOf(v)) != 0 then 0x80_0000 else 0
  }

  // ----- The compact form of a number -----

  lemma LeadingBound(v: nat)
    ensures Leading(v) < 0x100_0000 && (v > 0 ==> Leading(v) >= 0x1_0000)
  {
    var s := ByteLength(v);
    assert Pow(256, 3) == 0x100_0000 && Pow(256, 2) == 0x1_0000;
    if s <= 3 {
      var p := Pow(256, 3 - s);
      PowAdd(256, s, 3 - s);
      Times(p, v + 1, Pow(256, s));
      if v > 0 {
        PowAdd(256, s - 1, 3 - s);
        Times(p, Pow(256, s - 1), v);
      }
    } else {
      var p := Pow(256, s - 3);
      PowAdd(256, s - 3, 3);
      PowAdd(256, s - 3, 2);
      QuotientBounds(v, p, 0x1_0000, 0x100_0000);
    }
  }

  lemma QuotientBounds(v: nat, p: nat, lo: nat, hi: nat)
    requires p > 0 && p * lo <= v < p * hi
    ensures lo <= v / p < hi
  {
    assert v == p * (v / p) + v % p;
    if v / p < lo { Times(p, v / p + 1, lo); }
    if v / p >= hi { Times(p, hi, v / p); }
  }

  /** What the compact form of v holds; its sign bit is never set. */
  lemma CompactParts(v: nat)
    ensures var c, s, m := CompactOf(v), ByteLength(v), Leading(v);
      !SignBit(c) && if m >= 0x80_0000 then SizeOf(c) == s + 1 && Mantissa(c) == m / 256
        else SizeOf(c) == s && Mantissa(c) == m
  {
    var s, m := ByteLength(v), Leading(v);
    LeadingBound(v);
    if m >= 0x80_0000 { Parts(s + 1, m / 256); } else { Parts(s, m); }
  }

  lemma Parts(size: nat, m: nat)
    requires m < 0x80_0000
    ensures var c := 0x100_0000 * size + m; SizeOf(c) == size && Mantissa(c) == m && !SignBit(c)
  {
    var c := 0x100_0000 * size + m;
    Remainder(c, 0x100_0000, size, m);
    Remainder(c, 0x80_0000, 2 * size, m);
  }

  /** What a compact form leaves out of the number. */
  ghost function Unit(compact: nat): (u: nat)
    ensures u > 0
  {
    if SizeOf(compact) <= 3 then 1 else Pow(256, SizeOf(compact) - 3)
  }

  ghost function RoundDown(v: nat, u: nat): nat
    requires u > 0
  {
    Times(u, 0, v / u);
    v / u * u
  }

  lemma Rounded(v: nat, u: nat)
    requires u > 0
    ensures RoundDown(v, u) <= v < RoundDown(v, u) + u && RoundDown(v, u) / u == v / u
  {
    assert v == u * (v / u) + v % u;
    assert u * (v / u) == v / u * u;
    Remainder(RoundDown(v, u), u, v / u, 0);
  }

  lemma ExactQuotient(v: nat, p: nat)
    requires p > 0
    ensures v * p >= 0 && v * p / p == v
  {
    Times(v, 0, p);
    Remainder(v * p, p, v, 0);
  }

  /** Back from the compact form, v is rounded down to the unit of that form. */
  lemma MeaningOfCompact(v: nat)
    ensures Meaning(CompactOf(v)) == RoundDown(v, Unit(CompactOf(v)))
  {
    var s, m := ByteLength(v), Leading(v);
    CompactParts(v);
    if s <= 3 {
      var p := Pow(256, 3 - s);
      ExactQuotient(v, p);
      if m >= 0x80_0000 && s < 3 { QuotientTwice(m, 256, Pow(256, 2 - s)); }
    } else if m >= 0x80_0000 {
      QuotientTwice(v, Pow(256, s - 3), 256);
      assert Pow(256, s - 2) == 256 * Pow(256, s - 3);
    }
  }

  // ----- Rounding keeps the length -----

  /** What v reaches and u divides, v rounded down to u reaches too. */
  lemma RoundDownReaches(v: nat, u: nat, k: nat)
    requires u > 0 && u * k <= v
    ensures u * k <= RoundDown(v, u)
  {
    assert v == u * (v / u) + v % u;
    if v / u < k { Times(u, v / u + 1, k); }
    Times(u, k, v / u);
    assert u * (v / u) == v / u * u;
  }

  lemma RoundedBits(v: nat, k: nat, n: nat)
    requires HasBits(v, n) && Pow(2, k) <= v
    ensures HasBits(RoundDown(v, Pow(2, k)), n)
  {
    var u := Pow(2, k);
    if k >= n { PowMonotone(2, n, k); }
    PowAdd(2, k, n - 1 - k);
    RoundDownReaches(v, u, Pow(2, n - 1 - k));
    Rounded(v, u);
  }

  lemma UnitIsPower(v: nat) returns (k: nat)
    requires v > 0
    ensures Unit(CompactOf(v)) == Pow(2, k) <= v
  {
    var s := ByteLength(v);
    CompactParts(v);
    var e := if SizeOf(CompactOf(v)) <= 3 then 0 else SizeOf(CompactOf(v)) - 3;
    k := 8 * e;
    assert Pow(2, 8) == 256;
    PowPow(2, 8, e);
    PowMonotone(256, e, s - 1);
  }

  /**
   * The number read back from a compact form is as long as the one written, no greater, and less than a unit smaller.
   */
  lemma CompactKeepsBits(v: nat, n: nat)
    requires HasBits(v, n)
    ensures var w := Meaning(CompactOf(v)); HasBits(w, n) && w <= v < w + Unit(CompactOf(v))
  {
    MeaningOfCompact(v);
    Rounded(v, Unit(CompactOf(v)));
    if v > 0 {
      var k := UnitIsPower(v);
      RoundedBits(v, k, n);
    }
  }

  lemma {:induction false} ByteLengthIs(v: nat, n: nat)
    requires v < Pow(256, n) && (n > 0 ==> Pow(256, n - 1) <= v)
    ensures ByteLength(v) == n
  {
    if ByteLength(v) < n {
      PowMonotone(256, ByteLength(v), n - 1);
    } else if ByteLength(v) > n {
      PowMonotone(256, n, ByteLength(v) - 1);
    }
  }

  lemma RoundedLength(v: nat, e: nat)
    requires v > 0 && e < ByteLength(v)
    ensures ByteLength(RoundDown(v, Pow(256, e))) == ByteLength(v)
  {
    var s := ByteLength(v);
    PowAdd(256, e, s - 1 - e);
    RoundDownReaches(v, Pow(256, e), Pow(256, s - 1 - e));
    Rounded(v, Pow(256, e));
    ByteLengthIs(RoundDown(v, Pow(256, e)), s);
  }

  /** A number read back from a compact form has that same compact form. */
  lemma CompactAgain(v: nat)
    ensures CompactOf(Meaning(CompactOf(v))) == CompactOf(v)
  {
    var s, m, c := ByteLength(v), Leading(v), CompactOf(v);
    MeaningOfCompact(v);
    CompactParts(v);
    if SizeOf(c) <= 3 {
      ExactQuotient(v, 1);
      assert RoundDown(v, 1) == v;
    } else {
      LeadingAgain(v);
    }
  }

  lemma LeadingAgain(v: nat)
    requires SizeOf(CompactOf(v)) > 3
    ensures var w := RoundDown(v, Unit(CompactOf(v)));
      ByteLength(w) == ByteLength(v) && Leading(w) ==
        if Leading(v) >= 0x80_0000 then Leading(v) / 256 * 256 else Leading(v)
  {
    CompactParts(v);
    if Leading(v) >= 0x80_0000 { TwoBytesAgain(v, ByteLength(v)); } else { ThreeBytesAgain(v, ByteLength(v)); }
  }

  lemma ThreeBytesAgain(v: nat, s: nat)
    requires s == ByteLength(v) > 3
    ensures var w := RoundDown(v, Pow(256, s - 3)); ByteLength(w) == s && Leading(w) == Leading(v)
  {
    RoundedLength(v, s - 3);
    Rounded(v, Pow(256, s - 3));
  }

  lemma TwoBytesAgain(v: nat, s: nat)
    requires s == ByteLength(v) >= 3
    ensures var w := RoundDown(v, Pow(256, s - 2)); ByteLength(w) == s && Leading(w) == Leading(v) / 256 * 256
  {
    var p := Pow(256, s - 3);
    assert Pow(256, s - 2) == 256 * p;
    RoundedLength(v, s - 2);
    LeadingQuotient(v, s, p);
    LeadingQuotient(RoundDown(v, 256 * p), s, p);
    SplitUnit(v, p);
  }

  lemma LeadingQuotient(v: nat, s: nat, p: nat)
    requires s == ByteLength(v) >= 3 && p == Pow(256, s - 3)
    ensures Leading(v) == v / p
  {
    if s == 3 { Remainder(v, 1, v, 0); }
  }

  lemma SplitUnit(v: nat, p: nat)
    requires p > 0
    ensures RoundDown(v, 256 * p) / p == v / p / 256 * 256
  {
    QuotientTwice(v, p, 256);
    var h := v / p / 256;
    assert p * 256 == 256 * p;
    assert RoundDown(v, 256 * p) == h * (256 * p) == h * 256 * p;
    ExactQuotient(h * 256, p);
  }

  // ----- Reading a compact number -----

  predicate OverflowFlag(compact: nat) {
    var size, word := SizeOf(compact), Mantissa(compact);
    word != 0 && (size > 34 || (word > 0xff && size > 33) || (word > 0xffff && size > 32))
  }

  lemma WidthIsPower()
    ensures Modulus(8) == Pow(256, 32)
  {
    assert Pow(256, 4) == 0x1_0000_0000;
    PowPow(256, 4, 8);
  }

  lemma FitsExactly(word: nat, size: nat)
    requires 3 < size <= 34
    ensures word * Pow(256, size - 3) >= Pow(256, 32) <==> word >= Pow(256, 35 - size)
  {
    PowAdd(256, size - 3, 35 - size);
    ProductReaches(word, Pow(256, size - 3), Pow(256, 35 - size));
  }

  lemma ProductReaches(x: nat, p: nat, r: nat)
    requires p > 0
    ensures x * p >= p * r <==> x >= r
  {
    if x >= r { Times(p, r, x); } else { Times(p, x + 1, r); }
  }

  lemma NeverFits(word: nat, size: nat)
    requires size > 34
    ensures word * Pow(256, size - 3) >= Pow(256, 32) <==> word > 0
  {
    PowMonotone(256, 32, size - 3);
    if word > 0 { Times(Pow(256, size - 3), 1, word); }
  }

  lemma AlwaysFits(word: nat, size: nat)
    requires size <= 3 && word < 0x80_0000
    ensures word / Pow(256, 3 - size) < Pow(256, 32)
  {
    assert Pow(256, 3) == 0x100_0000;
    PowMonotone(256, 3, 32);
    QuotientAtMost(word, Pow(256, 3 - size));
  }

  /** The flag is set exactly if the number takes more than 256 bits. */
  lemma OverflowExact(compact: nat)
    ensures OverflowFlag(compact) <==> Meaning(compact) >= Modulus(8)
  {
    var size, word := SizeOf(compact), Mantissa(compact);
    WidthIsPower();
    if size <= 3 {
      AlwaysFits(word, size);
    } else if size > 34 {
      NeverFits(word, size);
    } else {
      FitsExactly(word, size);
      RoomLeft(size);
    }
  }

  lemma QuotientAtMost(x: nat, p: nat)
    requires p > 0
    ensures x / p <= x
  {
    assert x == p * (x / p) + x % p;
    Times(x / p, 1, p);
  }

  lemma RoomLeft(size: nat)
    requires 3 < size <= 34
    ensures size == 34 ==> Pow(256, 35 - size) == 0x100
    ensures size == 33 ==> Pow(256, 35 - size) == 0x1_0000
    ensures size <= 32 ==> Pow(256, 35 - size) >= 0x100_0000
  {
    assert Pow(256, 1) == 0x100 && Pow(256, 2) == 0x1_0000 && Pow(256, 3) == 0x100_0000;
    if size <= 32 { PowMonotone(256, 3, 35 - size); }
  }

  lemma ByteShift(e: nat)
    ensures Pow(2, 8 * e) == Pow(256, e)
  {
    assert Pow(2, 8) == 256;
    PowPow(2, 8, e);
  }

  /** A number of one limb. */
  method FromWord(word: nat, width: nat) returns (pn: array<nat>)
    requires word < 0x1_0000_0000 && width > 0
    ensures fresh(pn) && pn.Length == width && Limbed(pn[..]) && Number(pn[..]) == word
  {
    pn := new nat[width](i => 0);
    pn[0] := word;
    ZeroLimbsNumber(width - 1);
    assert pn[..][1..] == ZeroLimbs(width - 1);
  }

  method SetCompact(compact: nat) returns (pn: array<nat>, negative: bool, overflow: bool)
    requires compact < 0x1_0000_0000
    ensures fresh(pn) && pn.Length == 8 && Limbed(pn[..])
    ensures overflow <==> Meaning(compact) >= Modulus(8)
    ensures negative <==> Meaning(compact) != 0 && SignBit(compact)
    ensures Number(pn[..]) == Meaning(compact) % Modulus(8)
  {
    var size, word := SizeOf(compact), Mantissa(compact);
    OverflowExact(compact);
    if size <= 3 {
      ByteShift(3 - size);
      QuotientAtMost(word, Pow(256, 3 - size));
      word := word / Pow(2, 8 * (3 - size));
      pn := FromWord(word, 8);
      Remainder(word, Modulus(8), 0, word);
    } else {
      ByteShift(size - 3);
      pn := FromWord(word, 8);
      ShiftLeft(pn, 8 * (size - 3));
      NonZeroProduct(word, Pow(256, size - 3));
    }
    negative := word != 0 && SignBit(compact);
    overflow := word != 0 && (size > 34 || (word > 0xff && size > 33) || (word > 0xffff && size > 32));
  }

  lemma NonZeroProduct(x: nat, p: nat)
    requires p > 0
    ensures x * p == 0 <==> x == 0
  {
    if x > 0 { Times(x, 1, p); }
  }

  // ----- Writing a compact number -----

  method Low64(pn: seq<nat>) returns (r: nat)
    requires |pn| >= 2 && Limbed(pn)
    ensures r == Number(pn) % 0x1_0000_0000_0000_0000
  {
    r := pn[0] + 0x1_0000_0000 * pn[1];
    assert pn == pn[..2] + pn[2..] && pn[..2][1..][1..] == [] && Number([]) == 0;
    NumberConcat(pn[..2], pn[2..]);
    assert Number(pn[..2][1..]) == pn[1] && Number(pn[..2]) == r;
    assert Modulus(2) == 0x1_0000_0000_0000_0000;
    Remainder(Number(pn), 0x1_0000_0000_0000_0000, Number(pn[2..]), r);
  }

  /** The number of bytes, from the number of bits. */
  lemma BytesOfBits(v: nat, n: nat)
    requires HasBits(v, n)
    ensures ByteLength(v) == (n + 7) / 8
  {
    var k := (n + 7) / 8;
    ByteShift(k);
    PowMonotone(2, n, 8 * k);
    if n > 0 {
      ByteShift(k - 1);
      PowMonotone(2, 8 * (k - 1), n - 1);
    }
    ByteLengthIs(v, k);
  }

  lemma TopBit(m: nat)
    requires m < 0x100_0000
    ensures m / 0x80_0000 % 2 == 1 <==> m >= 0x80_0000
  {
  }

  /** Neither assertion of the source fails. */
  method GetCompact(pn: seq<nat>, negative: bool) returns (compact: nat)
    requires |pn| == 8 && Limbed(pn)
    ensures compact == Written(Number(pn), negative)
  {
    var bits := Bits(pn);
    var size := (bits + 7) / 8;
    BytesOfBits(Number(pn), bits);
    LeadingBound(Number(pn));
    compact := LeadingOf(pn, size);
    TopBit(compact);
    if compact / 0x80_0000 % 2 == 1 {
      compact := compact / 256;
      size := size + 1;
    }
    assert compact < 0x80_0000 && size < 256;
    compact := compact + 0x100_0000 * size;
    assert compact == CompactOf(Number(pn));
    if negative && Mantissa(compact) != 0 { compact := compact + 0x80_0000; }
  }

  method LeadingOf(pn: seq<nat>, size: nat) returns (m: nat)
    requires |pn| == 8 && Limbed(pn) && size == ByteLength(Number(pn))
    ensures m == Leading(Number(pn))
  {
    LeadingBound(Number(pn));
    if size <= 3 {
      m := ShortLeading(pn, size);
    } else {
      m := LongLeading(pn, size);
    }
  }

  method ShortLeading(pn: seq<nat>, size: nat) returns (m: nat)
    requires |pn| == 8 && Limbed(pn) && size == ByteLength(Number(pn)) <= 3 && Leading(Number(pn)) < 0x100_0000
    ensures m == Leading(Number(pn))
  {
    PowMonotone(256, size, 3);
    assert Pow(256, 3) == 0x100_0000;
    ByteShift(3 - size);
    m := Low64(pn);
    assert m == Number(pn);
    m := m * Pow(2, 8 * (3 - size));
    assert m == Leading(Number(pn));
    m := m % 0x1_0000_0000;
  }

  method ShiftedRight(a: seq<nat>, shift: nat) returns (r: seq<nat>)
    requires Limbed(a)
    ensures |r| == |a| && Limbed(r) && Number(r) == Number(a) / Pow(2, shift)
  {
    var bn := new nat[|a|];
    forall i | 0 <= i < |a| { bn[i] := a[i]; }
    assert bn[..] == a;
    ShiftRight(bn, shift);
    r := bn[..];
  }

  lemma LongIs(v: nat, size: nat)
    requires size == ByteLength(v) > 3
    ensures v / Pow(2, 8 * (size - 3)) == Leading(v)
  {
    ByteShift(size - 3);
  }

  method LongLeading(pn: seq<nat>, size: nat) returns (m: nat)
    requires |pn| == 8 && Limbed(pn) && size == ByteLength(Number(pn)) > 3 && Leading(Number(pn)) < 0x100_0000
    ensures m == Leading(Number(pn))
  {
    LongIs(Number(pn), size);
    var bn := ShiftedRight(pn, 8 * (size - 3));
    m := Low32(bn, Leading(Number(pn)));
  }

  method Low32(pn: seq<nat>, ghost v: nat) returns (m: nat)
    requires |pn| >= 2 && Limbed(pn) && Number(pn) == v < 0x100_0000
    ensures m == v
  {
    m := Low64(pn);
    m := m % 0x1_0000_0000;
  }

  /** The sign bit changes neither size nor mantissa. */
  lemma SignedParts(size: nat, m: nat)
    requires m < 0x80_0000
    ensures var c := 0x100_0000 * size + m + 0x80_0000; SizeOf(c) == size && Mantissa(c) == m && SignBit(c)
  {
    var c := 0x100_0000 * size + m + 0x80_0000;
    Remainder(c, 0x100_0000, size, m + 0x80_0000);
    Remainder(c, 0x80_0000, 2 * size + 1, m);
  }

  lemma WrittenParts(v: nat, negative: bool)
    ensures Meaning(Written(v, negative)) == Meaning(CompactOf(v))
    ensures SignBit(Written(v, negative)) <==> negative && v != 0
  {
    var c := CompactOf(v);
    CompactParts(v);
    LeadingBound(v);
    if negative && v != 0 { SignedParts(SizeOf(c), Mantissa(c)); }
  }

  /**
   * For every 256-bit number, with either sign: its compact form is read back without overflow, with the sign it was
   * written with unless it is zero, and as a number that is no greater, has as many bits, and has the same compact
   * form.
   */
  lemma CompactRoundTrip(v: nat, n: nat, negative: bool)
    requires v < Modulus(8) && HasBits(v, n)
    ensures var c := Written(v, negative);
      && c < 0x1_0000_0000 && Meaning(c) <= v && Meaning(c) < Modulus(8) && HasBits(Meaning(c), n)
      && (Meaning(c) != 0 && SignBit(c) <==> negative && v != 0) && Written(Meaning(c), negative) == c
  {
    CompactParts(v);
    LeadingBound(v);
    CompactKeepsBits(v, n);
    CompactAgain(v);
    WrittenParts(v, negative);
    WidthIsPower();
    if ByteLength(v) > 32 { PowMonotone(256, 32, ByteLength(v) - 1); }
  }

  // ----- The work of a block -----

  lemma WorkQuotient(m: nat, t: nat)
    requires t + 1 < m
    ensures (m - 1 - t) / (t + 1) + 1 == m / (t + 1)
  {
    var d := t + 1;
    var x := m - d;
    assert x == d * (x / d) + x % d;
    assert d * (x / d + 1) == d * (x / d) + d;
    Remainder(m, d, x / d + 1, x % d);
  }

  /** A target that was read from a compact form is not the greatest number. */
  lemma TargetBelow(compact: nat)
    requires Meaning(compact) < Modulus(8)
    ensures Meaning(compact) + 1 < Modulus(8)
  {
    var size, word := SizeOf(compact), Mantissa(compact);
    WidthIsPower();
    if size <= 3 {
      ShortBelow(word, size);
    } else {
      var x := WholeBytes(word, size);
      assert Pow(256, 32) == 256 * Pow(256, 31);
    }
  }

  lemma ShortBelow(word: nat, size: nat)
    requires size <= 3 && word < 0x80_0000
    ensures word / Pow(256, 3 - size) + 1 < Pow(256, 32)
  {
    assert Pow(256, 3) == 0x100_0000;
    PowMonotone(256, 3, 32);
    QuotientAtMost(word, Pow(256, 3 - size));
  }

  lemma WholeBytes(word: nat, size: nat) returns (x: int)
    requires size > 3
    ensures word * Pow(256, size - 3) == 256 * x
  {
    x := word * Pow(256, size - 4);
    assert Pow(256, size - 3) == 256 * Pow(256, size - 4);
    assert word * (256 * Pow(256, size - 4)) == 256 * x;
  }

  /** Is the number b? */
  method EqualTo(a: seq<nat>, b: nat) returns (same: bool)
    requires |a| >= 2 && Limbed(a) && b < 0x1_0000_0000_0000_0000
    ensures same <==> Number(a) == b
  {
    var i := |a|;
    assert a[..i] == a;
    while i > 2
      invariant 2 <= i <= |a| && Limbed(a[..i]) && Number(a) == Number(a[..i])
    {
      i := i - 1;
      LastLimb(a[..i + 1]);
      assert a[..i + 1][..i] == a[..i];
      if a[i] != 0 {
        PowMonotone(0x1_0000_0000, 2, i);
        assert Pow(0x1_0000_0000, 2) == 0x1_0000_0000_0000_0000;
        Times(Modulus(i), 1, a[i]);
        return false;
      }
    }
    assert a[..2][1..][1..] == [] && Number([]) == 0;
    assert Number(a[..2][1..]) == a[1] && Number(a[..2]) == a[0] + 0x1_0000_0000 * a[1];
    same := a[1] == b / 0x1_0000_0000 && a[0] == b % 0x1_0000_0000;
  }

  /** The work of a block: nothing for a bad target, or else how many times the target plus one goes into 2^256. */
  method GetBlockProof(compact: nat) returns (work: seq<nat>, thrown: bool)
    requires compact < 0x1_0000_0000
    ensures !thrown && |work| == 8 && Limbed(work)
    ensures var t := Meaning(compact);
      Number(work) == if (t != 0 && SignBit(compact)) || t >= Modulus(8) || t == 0 then 0 else Modulus(8) / (t + 1)
  {
    var target, negative, overflow := SetCompact(compact);
    var zero := EqualTo(target[..], 0);
    if negative || overflow || zero {
      ZeroLimbsNumber(8);
      return ZeroLimbs(8), false;
    }
    TargetBelow(compact);
    Remainder(Meaning(compact), Modulus(8), 0, Meaning(compact));
    work, thrown := WorkOf(target, Meaning(compact));
  }

  /** ~target / (target + 1) + 1. */
  method WorkOf(target: array<nat>, ghost t: nat) returns (work: seq<nat>, thrown: bool)
    requires target.Length == 8 && Limbed(target[..]) && Number(target[..]) == t && 0 < t && t + 1 < Modulus(8)
    modifies target
    ensures !thrown && |work| == 8 && Limbed(work) && Number(work) == Modulus(8) / (t + 1)
  {
    var r := Complemented(target[..]);
    ComplementNumber(target[..]);
    AddOne(target);
    thrown := Divide(r, target[..]);
    WorkQuotient(Modulus(8), t);
    WorkFits(Modulus(8), t);
    AddOne(r);
    work := r[..];
  }

  method AddOne(a: array<nat>)
    requires a.Length == 8 && Limbed(a[..]) && Number(a[..]) + 1 < Modulus(8)
    modifies a
    ensures Limbed(a[..]) && Number(a[..]) == old(Number(a[..])) + 1
  {
    var one := FromWord(1, 8);
    SumNumber(a[..], one[..]);
    Remainder(Number(a[..]) + 1, Modulus(8), 0, Number(a[..]) + 1);
    Add(a, one[..]);
  }

  lemma WorkFits(m: nat, t: nat)
    requires 0 < t && t + 1 < m
    ensures m / (t + 1) < m && m / (t + 1) % m == m / (t + 1)
  {
    var d := t + 1;
    assert m == d * (m / d) + m % d;
    if m / d >= m { Times(m / d, 2, d); }
    Remainder(m / d, m, 0, m / d);
  }
}
