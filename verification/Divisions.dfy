/** Bit lengths and shift-and-subtract division, src/arith_uint256.cpp:75-111 and 155-168. */
module Divisions {

  import opened Digits
  import opened Limbs
  import opened Shifts
  import opened Bignums

  // ----- Bit lengths -----

  /** The position of the highest bit plus one, or zero. */
  ghost predicate HasBits(v: nat, n: nat) {
    if v == 0 then n == 0 else n > 0 && Pow(2, n - 1) <= v < Pow(2, n)
  }

  method LimbBits(x: nat) returns (n: nat)
    requires 0 < x < 0x1_0000_0000
    ensures HasBits(x, n) && n <= 32
  {
    LimbIsPower();
    n := 31;
    while n > 0
      invariant 0 <= n <= 31 && x < Pow(2, n + 1)
    {
      BitTest(x, n);
      if x / Pow(2, n) % 2 == 1 { return n + 1; }
      n := n - 1;
    }
    n := 1;
  }

  /** Bit n is set exactly if x, which has none above, is at least 2^n. */
  lemma BitTest(x: nat, n: nat)
    requires x < Pow(2, n + 1)
    ensures x / Pow(2, n) % 2 == 1 <==> x >= Pow(2, n)
  {
    var p := Pow(2, n);
    if x >= p { Remainder(x, p, 1, x - p); } else { Remainder(x, p, 0, x); }
  }

  lemma BitsAbove(low: nat, x: nat, k: nat, n: nat)
    requires low < Modulus(k) && x > 0 && HasBits(x, n)
    ensures HasBits(low + Modulus(k) * x, 32 * k + n)
  {
    var m := Modulus(k);
    ModulusIsPower(k);
    PowAdd(2, 32 * k, n - 1);
    PowAdd(2, 32 * k, n);
    Times(m, Pow(2, n - 1), x);
    Times(m, x + 1, Pow(2, n));
  }

  method Bits(a: seq<nat>) returns (n: nat)
    requires Limbed(a)
    ensures HasBits(Number(a), n) && n <= 32 * |a|
  {
    var pos := |a|;
    assert a[..pos] == a;
    while pos > 0
      invariant 0 <= pos <= |a| && Limbed(a[..pos]) && Number(a) == Number(a[..pos])
    {
      pos := pos - 1;
      LastLimb(a[..pos + 1]);
      assert a[..pos + 1][..pos] == a[..pos];
      if a[pos] != 0 {
        n := LimbBits(a[pos]);
        BitsAbove(Number(a[..pos]), a[pos], pos, n);
        return 32 * pos + n;
      }
    }
    n := 0;
  }

  // ----- Setting a bit of the quotient -----

  lemma {:induction false} NumberUpdate(a: seq<nat>, j: nat, x: nat)
    requires j < |a| && x >= a[j]
    ensures Number(a[j := x]) == Number(a) + Modulus(j) * (x - a[j])
  {
    if j == 0 {
      assert a[j := x][1..] == a[1..];
    } else {
      NumberUpdate(a[1..], j - 1, x);
      assert a[j := x][1..] == a[1..][j - 1 := x];
      Associates(0x1_0000_0000, Modulus(j - 1), x - a[j]);
    }
  }

  /** A limb of a multiple of 2^(32 j + r) is a multiple of 2^r. */
  lemma LimbMultiple(a: seq<nat>, j: nat, p: nat, q: nat, h: nat) returns (g: nat)
    requires j < |a| && Limbed(a) && Factors(p, q) && Number(a) == Modulus(j) * (p * h)
    ensures a[j] == p * g && g < q
  {
    var hi := Number(a[j + 1..]);
    assert a == a[..j] + a[j..] && a[j..][1..] == a[j + 1..] && Limbed(a[..j]);
    NumberConcat(a[..j], a[j..]);
    NumberBelow(a[..j]);
    SplitDigit(Modulus(j), Number(a[..j]), Number(a[j..]), 0, p * h);
    Associates(p, q, hi);
    assert a[j] + p * (q * hi) == p * h;
    g := Cofactor(p, h, q * hi, a[j]);
    if g >= q { Times(p, q, g); }
  }

  lemma Cofactor(p: nat, h: nat, k: int, x: nat) returns (g: nat)
    requires p > 0 && x + p * k == p * h
    ensures x == p * g && g == h - k
  {
    assert p * (h - k) == p * h - p * k;
    if h < k { Times(p, 1, k - h); }
    g := h - k;
  }

  lemma BitSet(a: seq<nat>, j: nat, r: nat, h: nat)
    requires j < |a| && r < 32 && Limbed(a) && Number(a) == Pow(2, 32 * j + r + 1) * h
    ensures Or(a[j], Pow(2, r)) == a[j] + Pow(2, r) < 0x1_0000_0000
  {
    var p, q := Pow(2, r + 1), Pow(2, 32 - (r + 1));
    BitPlace(j, r, h);
    PowersFactor(r + 1);
    var g := LimbMultiple(a, j, p, q, h);
    OrAdds(g, Pow(2, r), r + 1);
    RoomForBit(p, q, g, Pow(2, r));
  }

  lemma RoomForBit(p: nat, q: nat, g: nat, t: nat)
    requires Factors(p, q) && g < q && t < p
    ensures p * g + t < 0x1_0000_0000
  {
    Times(p, g + 1, q);
    assert p * (g + 1) == p * g + p;
  }

  /** Set the bit at position s of a number that is a multiple of 2^(s + 1). */
  method SetBit(a: array<nat>, s: nat, ghost h: nat)
    requires s < 32 * a.Length && Limbed(a[..]) && Number(a[..]) == Pow(2, s + 1) * h
    modifies a
    ensures Limbed(a[..]) && Number(a[..]) == old(Number(a[..])) + Pow(2, s)
  {
    var j, r := s / 32, s % 32;
    ghost var was := a[..];
    BitSet(was, j, r, h);
    BitPlace(j, r, h);
    a[j] := Or(a[j], Pow(2, r));
    assert a[..] == was[j := was[j] + Pow(2, r)];
    NumberUpdate(was, j, was[j] + Pow(2, r));
  }

  lemma BitPlace(j: nat, r: nat, h: nat)
    ensures Pow(2, 32 * j + r + 1) * h == Modulus(j) * (Pow(2, r + 1) * h)
    ensures Modulus(j) * Pow(2, r) == Pow(2, 32 * j + r)
  {
    ModulusIsPower(j);
    PowAdd(2, 32 * j, r + 1);
    PowAdd(2, 32 * j, r);
    Associates(Modulus(j), Pow(2, r + 1), h);
  }

  // ----- Division -----

  /** Before the bit s - 1 of the quotient is found: the quotient so far is 2^s h. */
  ghost predicate Divided(n: nat, d: nat, quotient: nat, rest: nat, s: nat, h: nat) {
    n == quotient * d + rest && rest < d * Pow(2, s) && quotient == Pow(2, s) * h
  }

  lemma DividedStep(n: nat, d: nat, quotient: nat, rest: nat, s: nat, h: nat)
    requires s > 0 && Divided(n, d, quotient, rest, s, h)
    ensures var e := d * Pow(2, s - 1);
      if rest >= e then Divided(n, d, quotient + Pow(2, s - 1), rest - e, s - 1, 2 * h + 1)
      else Divided(n, d, quotient, rest, s - 1, 2 * h)
  {
    var p := Pow(2, s - 1);
    assert Pow(2, s) == 2 * p;
    assert d * (2 * p) == d * p + d * p;
    assert (quotient + p) * d == quotient * d + d * p;
    assert (2 * p) * h == p * (2 * h) && p * (2 * h + 1) == p * (2 * h) + p;
  }

  lemma AlignedStart(n: nat, d: nat, nb: nat, db: nat)
    requires HasBits(n, nb) && HasBits(d, db) && 0 < db <= nb
    ensures Divided(n, d, 0, n, nb - db + 1, 0)
  {
    PowAdd(2, db - 1, nb - db + 1);
    Times(Pow(2, nb - db + 1), Pow(2, db - 1), d);
  }

  lemma AlignedBelow(d: nat, nb: nat, db: nat)
    requires HasBits(d, db) && 0 < db <= nb
    ensures d * Pow(2, nb - db) < Pow(2, nb)
  {
    PowAdd(2, db, nb - db);
    Times(Pow(2, nb - db), d + 1, Pow(2, db));
  }

  /** The aligned divisor fits. */
  lemma AlignedFits(d: nat, nb: nat, db: nat, w: nat)
    requires 0 < db <= nb <= 32 * w && d * Pow(2, nb - db) < Pow(2, nb)
    ensures d * Pow(2, nb - db) % Modulus(w) == d * Pow(2, nb - db)
  {
    ModulusIsPower(w);
    PowMonotone(2, nb, 32 * w);
    Times(d, 0, Pow(2, nb - db));
    Remainder(d * Pow(2, nb - db), Modulus(w), 0, d * Pow(2, nb - db));
  }

  lemma SmallerBits(n: nat, d: nat, nb: nat, db: nat)
    requires HasBits(n, nb) && HasBits(d, db) && db > nb
    ensures n / d == 0
  {
    PowMonotone(2, nb, db - 1);
    Remainder(n, d, 0, n);
  }

  lemma HalvedDivisor(d: nat, s: nat)
    requires s > 0
    ensures d * Pow(2, s) / Pow(2, 1) == d * Pow(2, s - 1)
  {
    assert Pow(2, 1) == 2;
    assert d * Pow(2, s) == 2 * (d * Pow(2, s - 1));
  }

  /** Divide in place; dividing by zero throws. */
  method Divide(a: array<nat>, b: seq<nat>) returns (thrown: bool)
    requires a.Length == |b| && Limbed(a[..]) && Limbed(b)
    modifies a
    ensures thrown <==> Number(b) == 0
    ensures Limbed(a[..]) && Number(a[..]) == if thrown then 0 else old(Number(a[..])) / Number(b)
  {
    var num, div := new nat[a.Length], new nat[a.Length];
    forall i | 0 <= i < a.Length { num[i] := a[i]; }
    forall i | 0 <= i < a.Length { div[i] := b[i]; }
    ghost var was := a[..];
    assert was == old(a[..]);
    forall i | 0 <= i < a.Length { a[i] := 0; }
    assert num[..] == was && div[..] == b;
    ZeroLimbsNumber(a.Length);
    assert a[..] == ZeroLimbs(a.Length);
    thrown := DivideCopies(a, num, div, Number(was), Number(b));
  }

  method DivideCopies(a: array<nat>, num: array<nat>, div: array<nat>, ghost n: nat, ghost d: nat)
    returns (thrown: bool)
    requires a != num && a != div && num != div && a.Length == num.Length == div.Length
    requires Limbed(a[..]) && Limbed(num[..]) && Limbed(div[..])
    requires Number(a[..]) == 0 && Number(num[..]) == n && Number(div[..]) == d
    modifies a, num, div
    ensures thrown <==> d == 0
    ensures Limbed(a[..]) && Number(a[..]) == if thrown then 0 else n / d
  {
    var numBits := Bits(num[..]);
    var divBits := Bits(div[..]);
    thrown := divBits == 0;
    if !thrown {
      if divBits > numBits {
        SmallerBits(n, d, numBits, divBits);
      } else {
        var shift := numBits - divBits;
        AlignedStart(n, d, numBits, divBits);
        AlignedBelow(d, numBits, divBits);
        AlignedFits(d, numBits, divBits, a.Length);
        ShiftLeft(div, shift);
        Quotient(a, num, div, shift, n, d);
      }
    }
  }

  /** The loop of the division. */
  method Quotient(a: array<nat>, num: array<nat>, div: array<nat>, top: nat, ghost n: nat, ghost d: nat)
    requires a != num && a != div && num != div && a.Length == num.Length == div.Length && top < 32 * a.Length && d > 0
    requires Limbed(a[..]) && Limbed(num[..]) && Limbed(div[..])
    requires Divided(n, d, Number(a[..]), Number(num[..]), top + 1, 0) && Number(div[..]) == d * Pow(2, top)
    modifies a, num, div
    ensures Limbed(a[..]) && Number(a[..]) == n / d
  {
    ghost var h := 0;
    var shift: int := top;
    while shift >= 0
      invariant -1 <= shift <= top && h >= 0 && Limbed(a[..]) && Limbed(num[..]) && Limbed(div[..])
      invariant Divided(n, d, Number(a[..]), Number(num[..]), shift + 1, h)
      invariant shift >= 0 ==> Number(div[..]) == d * Pow(2, shift)
    {
      h := QuotientBit(a, num, div, shift, n, d, h);
      shift := shift - 1;
    }
    Remainder(n, d, Number(a[..]), Number(num[..]));
  }

  /** Find one bit of the quotient. */
  method QuotientBit(a: array<nat>, num: array<nat>, div: array<nat>, shift: nat, ghost n: nat, ghost d: nat,
                     ghost h: nat)
    returns (ghost h': nat)
    requires a != num && a != div && num != div && a.Length == num.Length == div.Length && shift < 32 * a.Length
    requires Limbed(a[..]) && Limbed(num[..]) && Limbed(div[..])
    requires Divided(n, d, Number(a[..]), Number(num[..]), shift + 1, h) && Number(div[..]) == d * Pow(2, shift)
    modifies a, num, div
    ensures Limbed(a[..]) && Limbed(num[..]) && Limbed(div[..])
    ensures Divided(n, d, Number(a[..]), Number(num[..]), shift, h')
            && (shift > 0 ==> Number(div[..]) == d * Pow(2, shift - 1))
  {
    DividedStep(n, d, Number(a[..]), Number(num[..]), shift + 1, h);
    h' := 2 * h;
    var c := CompareTo(num[..], div[..]);
    if c >= 0 {
      DifferenceNumber(num[..], div[..]);
      Subtract(num, div[..]);
      SetBit(a, shift, h);
      h' := 2 * h + 1;
    }
    ShiftRight(div, 1);
    if shift > 0 { HalvedDivisor(d, shift); }
  }
}
