/**
 * The in-place operations on 256-bit and wider numbers, src/arith_uint256.cpp:14-168 and src/arith_uint256.h:25-252.
 */
module Bignums {

  import opened Digits
  import opened Limbs
  import opened Shifts

  method Complemented(b: seq<nat>) returns (ret: array<nat>)
    requires Limbed(b)
    ensures fresh(ret) && ret[..] == Complement(b)
  {
    ret := new nat[|b|](_ => 0);
    for i := 0 to |b|
      invariant forall j :: 0 <= j < i ==> ret[j] == Complement(b)[j]
    {
      ret[i] := 0xffff_ffff - b[i];
    }
  }

  method Increment(a: array<nat>)
    requires Limbed(a[..])
    modifies a
    ensures a[..] == Next(old(a[..]))
  {
    ghost var was := a[..];
    var i := 0;
    var more := true;
    while i < a.Length && more
      invariant 0 <= i <= a.Length && (forall j :: 0 <= j < i ==> was[j] == 0xffff_ffff && a[j] == 0)
      invariant forall j :: i < j < a.Length ==> a[j] == was[j]
      invariant i < a.Length ==> if more then a[i] == was[i] else was[i] != 0xffff_ffff && a[i] == was[i] + 1
      decreases a.Length - i, more
    {
      a[i] := (a[i] + 1) % 0x1_0000_0000;
      more := a[i] == 0;
      if more { i := i + 1; }
    }
    forall j | 0 <= j < a.Length ensures a[j] == Next(was)[j] { NextAt(was, i, j); }
  }

  method Negate(b: seq<nat>) returns (ret: array<nat>)
    requires Limbed(b)
    ensures fresh(ret) && ret[..] == Negated(b)
  {
    ret := Complemented(b);
    Increment(ret);
  }

  method Add(a: array<nat>, b: seq<nat>)
    requires a.Length == |b|
    modifies a
    ensures a[..] == SumFrom(old(a[..]), b, 0)
  {
    ghost var was, goal := a[..], SumFrom(a[..], b, 0);
    var carry: nat := 0;
    for i := 0 to a.Length
      invariant goal[i..] == SumFrom(was[i..], b[i..], carry)
      invariant forall j :: 0 <= j < a.Length ==> a[j] == if j < i then goal[j] else was[j]
    {
      var n := carry + a[i] + b[i];
      SumStep(was, b, i, carry, goal);
      a[i] := n % 0x1_0000_0000;
      carry := n / 0x1_0000_0000;
    }
  }

  lemma SumStep(a: seq<nat>, b: seq<nat>, i: nat, c: nat, goal: seq<nat>)
    requires i < |a| == |b| == |goal| && goal[i..] == SumFrom(a[i..], b[i..], c)
    ensures goal[i] == (c + a[i] + b[i]) % 0x1_0000_0000
    ensures goal[i + 1..] == SumFrom(a[i + 1..], b[i + 1..], (c + a[i] + b[i]) / 0x1_0000_0000)
  {
    assert a[i..][1..] == a[i + 1..] && b[i..][1..] == b[i + 1..] && goal[i..][1..] == goal[i + 1..];
    assert goal[i] == goal[i..][0];
  }

  method Subtract(a: array<nat>, b: seq<nat>)
    requires a.Length == |b| && Limbed(b)
    modifies a
    ensures a[..] == SumFrom(old(a[..]), Negated(b), 0)
  {
    var n := Negate(b);
    Add(a, n[..]);
  }

  method CompareTo(a: seq<nat>, b: seq<nat>) returns (c: int)
    requires |a| == |b| && Limbed(a) && Limbed(b)
    ensures c == if Number(a) < Number(b) then -1 else if Number(a) > Number(b) then 1 else 0
  {
    CompareNumber(a, b);
    assert a[..|a|] == a && b[..|b|] == b;
    var i := |a|;
    while i > 0
      invariant 0 <= i <= |a| && Compare(a, b) == Compare(a[..i], b[..i])
    {
      i := i - 1;
      assert a[..i + 1][..i] == a[..i] && b[..i + 1][..i] == b[..i];
      if a[i] < b[i] { return -1; }
      if a[i] > b[i] { return 1; }
    }
    c := 0;
  }

  // ----- Shifts -----

  /** The limbs when the first i have been shifted to the left. */
  ghost predicate LeftDone(r: seq<nat>, a: seq<nat>, p: nat, q: nat, k: nat, i: nat)
    requires q > 0 && i <= |a| == |r|
  {
    forall j :: 0 <= j < |r| ==>
      r[j] == if j < i + k then LeftLimb(a, p, q, k, j) else if j == i + k && i > 0 then a[i - 1] / q else 0
  }

  method ShiftLeft(pn: array<nat>, shift: nat)
    requires Limbed(pn[..])
    modifies pn
    ensures Limbed(pn[..]) && Number(pn[..]) == old(Number(pn[..])) * Pow(2, shift) % Modulus(pn.Length)
  {
    var a := pn[..];
    for i := 0 to pn.Length
      invariant forall j :: 0 <= j < i ==> pn[j] == 0
    {
      pn[i] := 0;
    }
    var k, s := shift / 32, shift % 32;
    var p, q := Pow(2, s), Pow(2, 32 - s);
    PowersFactor(s);
    for i := 0 to pn.Length
      invariant LeftDone(pn[..], a, p, q, k, i)
    {
      LeftTurn(pn, a, p, q, s, k, i);
    }
    LeftNumber(a, p, q, k, pn[..]);
    ShiftFactor(Number(a), k, s);
  }

  lemma ShiftFactor(v: nat, k: nat, s: nat)
    ensures Modulus(k) * (Pow(2, s) * v) == v * Pow(2, 32 * k + s)
  {
    ModulusIsPower(k);
    PowAdd(2, 32 * k, s);
    Associates(Pow(2, 32 * k), Pow(2, s), v);
  }

  /** One turn: the high bits of limb i go to the place above that of its low bits. */
  method LeftTurn(pn: array<nat>, a: seq<nat>, p: nat, q: nat, s: nat, k: nat, i: nat)
    requires i < |a| == pn.Length && Limbed(a) && s < 32 && p == Pow(2, s) && q == Pow(2, 32 - s) && Factors(p, q)
    requires LeftDone(pn[..], a, p, q, k, i)
    modifies pn
    ensures LeftDone(pn[..], a, p, q, k, i + 1)
  {
    ghost var was := pn[..];
    LeftStep(p, q, a[i], 0);
    LimbShifted(p, q, a[i]);
    if i > 0 { LeftStep(p, q, a[i - 1], 0); }
    if i + k + 1 < pn.Length && s != 0 {
      assert was[i + k + 1] == 0;
      pn[i + k + 1] := Or(pn[i + k + 1], a[i] / q);
    }
    if i + k < pn.Length {
      assert was[i + k] == (if i > 0 then a[i - 1] / q else 0);
      OrAdds(a[i] % q, pn[i + k], s);
      OrCommutes(pn[i + k], p * (a[i] % q));
      pn[i + k] := Or(pn[i + k], a[i] * p % 0x1_0000_0000);
    }
  }

  /** The limbs when the first i have been shifted to the right. */
  ghost predicate RightDone(r: seq<nat>, a: seq<nat>, p: nat, q: nat, k: nat, i: nat)
    requires p > 0 && i <= |a| == |r|
  {
    forall j :: 0 <= j < |r| ==>
      r[j] == if j + k + 1 < i then RightLimb(a, p, q, k, j) else if j + k + 1 == i then a[j + k] / p else 0
  }

  method ShiftRight(pn: array<nat>, shift: nat)
    requires Limbed(pn[..])
    modifies pn
    ensures Limbed(pn[..]) && Number(pn[..]) == old(Number(pn[..])) / Pow(2, shift)
  {
    var a := pn[..];
    for i := 0 to pn.Length
      invariant forall j :: 0 <= j < i ==> pn[j] == 0
    {
      pn[i] := 0;
    }
    var k, s := shift / 32, shift % 32;
    var p, q := Pow(2, s), Pow(2, 32 - s);
    PowersFactor(s);
    for i := 0 to pn.Length
      invariant RightDone(pn[..], a, p, q, k, i)
    {
      RightTurn(pn, a, p, q, s, k, i);
    }
    RightNumber(a, p, q, k, pn[..]);
    ShiftQuotient(a, k, s);
  }

  /** One turn: the low bits of limb i go to the place below that of its high bits. */
  method RightTurn(pn: array<nat>, a: seq<nat>, p: nat, q: nat, s: nat, k: nat, i: nat)
    requires i < |a| == pn.Length && Limbed(a) && s < 32 && p == Pow(2, s) && q == Pow(2, 32 - s) && Factors(p, q)
    requires RightDone(pn[..], a, p, q, k, i)
    modifies pn
    ensures RightDone(pn[..], a, p, q, k, i + 1)
  {
    RightNext(pn[..], a, p, q, s, k, i);
    if i - k - 1 >= 0 && s != 0 {
      pn[i - k - 1] := Or(pn[i - k - 1], a[i] * q % 0x1_0000_0000);
    }
    if i - k >= 0 {
      pn[i - k] := Or(pn[i - k], a[i] / p);
    }
  }

  /** What a turn makes of the limbs. */
  ghost function RightTurned(r: seq<nat>, a: seq<nat>, p: nat, q: nat, s: nat, k: nat, i: nat): seq<nat>
    requires i < |a| == |r| && p > 0
  {
    var r1 := if i - k - 1 >= 0 && s != 0 then r[i - k - 1 := Or(r[i - k - 1], a[i] * q % 0x1_0000_0000)] else r;
    if i - k >= 0 then r1[i - k := Or(r1[i - k], a[i] / p)] else r1
  }

  lemma RightNext(r: seq<nat>, a: seq<nat>, p: nat, q: nat, s: nat, k: nat, i: nat)
    requires i < |a| == |r| && Limbed(a) && s < 32 && p == Pow(2, s) && q == Pow(2, 32 - s) && Factors(p, q)
    requires RightDone(r, a, p, q, k, i)
    ensures RightDone(RightTurned(r, a, p, q, s, k, i), a, p, q, k, i + 1)
  {
    RightParts(a, p, q, s, i);
    if i - k - 1 >= 0 { assert r[i - k - 1] == a[i - 1] / p; }
    if i - k >= 0 { assert r[i - k] == 0; }
  }

  lemma RightParts(a: seq<nat>, p: nat, q: nat, s: nat, i: nat)
    requires i < |a| && Limbed(a) && s < 32 && p == Pow(2, s) && q == Pow(2, 32 - s) && Factors(p, q)
    ensures i > 0 ==> Or(a[i - 1] / p, a[i] * q % 0x1_0000_0000) == a[i - 1] / p + q * (a[i] % p)
    ensures s == 0 ==> q * (a[i] % p) == 0
  {
    assert Factors(q, p) by { assert q * p == p * q; }
    LimbShifted(q, p, a[i]);
    if i > 0 {
      LeftStep(q, p, a[i - 1], 0);
      OrAdds(a[i] % p, a[i - 1] / p, 32 - s);
      OrCommutes(a[i - 1] / p, q * (a[i] % p));
    }
  }

  lemma ShiftQuotient(a: seq<nat>, k: nat, s: nat)
    requires Limbed(a)
    ensures (if k <= |a| then Number(a) / Modulus(k) / Pow(2, s) else 0) == Number(a) / Pow(2, 32 * k + s)
  {
    ModulusIsPower(k);
    PowAdd(2, 32 * k, s);
    QuotientTwice(Number(a), Modulus(k), Pow(2, s));
    if k > |a| {
      NumberBelow(a);
      PowMonotone(0x1_0000_0000, |a|, k);
      Remainder(Number(a), Modulus(k), 0, Number(a));
      Remainder(0, Pow(2, s), 0, 0);
    }
  }

  lemma QuotientTwice(v: nat, m: nat, p: nat)
    requires m > 0 && p > 0
    ensures m * p > 0 && v / m / p == v / (m * p)
  {
    var x, y := v / m, v / m / p;
    TwoQuotients(m, p, x, y, x % p, v % m);
    Remainder(v, m * p, y, m * (x % p) + v % m);
  }

  lemma TwoQuotients(m: nat, p: nat, x: nat, y: nat, r: nat, s: nat)
    requires x == p * y + r && r < p && s < m
    ensures 0 <= m * r + s < m * p && m * x + s == (m * r + s) + m * p * y
  {
    Associates(m, p, y);
    assert m * x == m * (p * y) + m * r;
    Times(m, 0, r);
    Times(m, r + 1, p);
  }
}
