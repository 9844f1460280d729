/** Numbers as 32-bit limbs, least significant first, src/arith_uint256.h:25-252: what the loops compute. */
module Limbs {

  import opened Digits

  ghost predicate Limbed(a: seq<nat>) {
    Below(0x1_0000_0000, a)
  }

  ghost function Number(a: seq<nat>): nat {
    Val(0x1_0000_0000, a)
  }

  /** One more than the greatest number that n limbs hold. */
  ghost function Modulus(n: nat): (m: nat)
    ensures m > 0
  {
    Pow(0x1_0000_0000, n)
  }

  lemma NumberBelow(a: seq<nat>)
    requires Limbed(a)
    ensures Number(a) < Modulus(|a|)
  {
    ValueBelow(0x1_0000_0000, a);
  }

  lemma {:induction false} NumberConcat(a: seq<nat>, b: seq<nat>)
    ensures Number(a + b) == Number(a) + Modulus(|a|) * Number(b)
  {
    if a == [] {
      assert a + b == b;
    } else {
      NumberConcat(a[1..], b);
      assert (a + b)[1..] == a[1..] + b;
      Associates(0x1_0000_0000, Modulus(|a| - 1), Number(b));
    }
  }

  // ----- Addition -----

  function SumFrom(a: seq<nat>, b: seq<nat>, c: nat): (r: seq<nat>)
    requires |a| == |b|
    ensures |r| == |a| && Limbed(r)
  {
    if a == [] then [] else
      var n := c + a[0] + b[0];
      [n % 0x1_0000_0000] + SumFrom(a[1..], b[1..], n / 0x1_0000_0000)
  }

  ghost function CarryFrom(a: seq<nat>, b: seq<nat>, c: nat): nat
    requires |a| == |b|
  {
    if a == [] then c else CarryFrom(a[1..], b[1..], (c + a[0] + b[0]) / 0x1_0000_0000)
  }

  lemma {:induction false} SumCarry(a: seq<nat>, b: seq<nat>, c: nat)
    requires |a| == |b|
    ensures Number(SumFrom(a, b, c)) + Modulus(|a|) * CarryFrom(a, b, c) == Number(a) + Number(b) + c
  {
    if a != [] {
      var n := c + a[0] + b[0];
      var rest := SumFrom(a[1..], b[1..], n / 0x1_0000_0000);
      SumCarry(a[1..], b[1..], n / 0x1_0000_0000);
      assert SumFrom(a, b, c)[1..] == rest;
      Associates(0x1_0000_0000, Modulus(|a| - 1), CarryFrom(a, b, c));
    }
  }

  /** Addition is modulo the width. */
  lemma SumNumber(a: seq<nat>, b: seq<nat>)
    requires |a| == |b|
    ensures Number(SumFrom(a, b, 0)) == (Number(a) + Number(b)) % Modulus(|a|)
  {
    SumCarry(a, b, 0);
    NumberBelow(SumFrom(a, b, 0));
    Remainder(Number(a) + Number(b), Modulus(|a|), CarryFrom(a, b, 0), Number(SumFrom(a, b, 0)));
  }

  lemma Remainder(x: nat, m: nat, q: nat, r: nat)
    requires r < m && x == r + m * q
    ensures x % m == r && x / m == q
  {
    SplitDigit(m, r, q, x % m, x / m);
  }

  // ----- Complement and negation -----

  function Complement(a: seq<nat>): (r: seq<nat>)
    requires Limbed(a)
    ensures |r| == |a| && Limbed(r) && forall i :: 0 <= i < |a| ==> r[i] == 0xffff_ffff - a[i]
  {
    seq(|a|, i requires 0 <= i < |a| => 0xffff_ffff - a[i])
  }

  lemma {:induction false} ComplementNumber(a: seq<nat>)
    requires Limbed(a)
    ensures Number(Complement(a)) == Modulus(|a|) - 1 - Number(a)
  {
    if a != [] {
      assert Limbed(a[1..]);
      ComplementNumber(a[1..]);
      assert Complement(a)[1..] == Complement(a[1..]);
    }
  }

  /** Add one: limbs turn over to zero up to the first that does not. */
  function Next(a: seq<nat>): (r: seq<nat>)
    requires Limbed(a)
    ensures |r| == |a| && Limbed(r)
  {
    if a == [] then [] else
      assert Limbed(a[1..]);
      if a[0] == 0xffff_ffff then [0] + Next(a[1..]) else [a[0] + 1] + a[1..]
  }

  /** The first i limbs turn over. */
  lemma {:induction false} NextAt(a: seq<nat>, i: nat, j: nat)
    requires Limbed(a) && i <= |a| && j < |a|
    requires (forall k :: 0 <= k < i ==> a[k] == 0xffff_ffff) && (i < |a| ==> a[i] != 0xffff_ffff)
    ensures Next(a)[j] == if j < i then 0 else if j == i then a[i] + 1 else a[j]
  {
    if i > 0 && j > 0 {
      assert Limbed(a[1..]);
      NextAt(a[1..], i - 1, j - 1);
    }
  }

  lemma {:induction false} NextNumber(a: seq<nat>)
    requires Limbed(a)
    ensures Number(Next(a)) == if Number(a) == Modulus(|a|) - 1 then 0 else Number(a) + 1
  {
    NumberBelow(a);
    if a != [] {
      assert Limbed(a[1..]);
      NumberBelow(a[1..]);
      NextNumber(a[1..]);
      assert a[0] == 0xffff_ffff ==> Next(a)[1..] == Next(a[1..]);
      assert a[0] != 0xffff_ffff ==> Next(a)[1..] == a[1..];
    }
  }

  function Negated(a: seq<nat>): (r: seq<nat>)
    requires Limbed(a)
    ensures |r| == |a| && Limbed(r)
  {
    Next(Complement(a))
  }

  lemma NegatedNumber(a: seq<nat>)
    requires Limbed(a)
    ensures Number(Negated(a)) == if Number(a) == 0 then 0 else Modulus(|a|) - Number(a)
  {
    ComplementNumber(a);
    NextNumber(Complement(a));
  }

  /** Adding the negation of a smaller number subtracts it. */
  lemma DifferenceNumber(a: seq<nat>, b: seq<nat>)
    requires |a| == |b| && Limbed(a) && Limbed(b) && Number(b) <= Number(a)
    ensures Number(SumFrom(a, Negated(b), 0)) == Number(a) - Number(b)
  {
    NegatedNumber(b);
    SumNumber(a, Negated(b));
    NumberBelow(a);
    var m := Modulus(|a|);
    if Number(b) == 0 { Remainder(Number(a), m, 0, Number(a)); } else {
      Remainder(Number(a) + m - Number(b), m, 1, Number(a) - Number(b));
    }
  }

  // ----- Comparison -----

  /** Compare from the most significant limb on. */
  function Compare(a: seq<nat>, b: seq<nat>): int
    requires |a| == |b|
  {
    if a == [] then 0
    else
      var n := |a| - 1;
      if a[n] < b[n] then -1 else if a[n] > b[n] then 1 else Compare(a[..n], b[..n])
  }

  lemma {:induction false} CompareNumber(a: seq<nat>, b: seq<nat>)
    requires |a| == |b| && Limbed(a) && Limbed(b)
    ensures Compare(a, b) == if Number(a) < Number(b) then -1 else if Number(a) > Number(b) then 1 else 0
  {
    if a != [] {
      var n := |a| - 1;
      LastLimb(a);
      LastLimb(b);
      CompareNumber(a[..n], b[..n]);
      TopDecides(Modulus(n), Number(a[..n]), a[n], Number(b[..n]), b[n]);
    }
  }

  lemma TopDecides(m: nat, x: nat, v: nat, y: nat, w: nat)
    requires x < m && y < m
    ensures v < w ==> x + m * v < y + m * w
    ensures v > w ==> x + m * v > y + m * w
  {
    if v < w { Times(m, v + 1, w); }
    if v > w { Times(m, w + 1, v); }
  }

  lemma LastLimb(a: seq<nat>)
    requires a != [] && Limbed(a)
    ensures var n := |a| - 1;
      Limbed(a[..n]) && Number(a) == Number(a[..n]) + Modulus(n) * a[n] && Number(a[..n]) < Modulus(n)
  {
    var n := |a| - 1;
    assert Limbed(a[..n]);
    assert a == a[..n] + [a[n]];
    NumberConcat(a[..n], [a[n]]);
    NumberBelow(a[..n]);
    assert [a[n]][1..] == [] && Number([]) == 0;
    assert Number([a[n]]) == a[n];
  }
}
