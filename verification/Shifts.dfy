/**
 * Shifting limbs, src/arith_uint256.cpp:14-45: a shift by whole limbs and by p = 2^s within the limbs, q = 2^(32 - s).
 */
module Shifts {

  import opened Digits
  import opened Limbs

  ghost predicate Factors(p: nat, q: nat) {
    p > 0 && q > 0 && p * q == 0x1_0000_0000
  }

  // ----- Bits -----

  /** Bitwise or. */
  function Or(x: nat, y: nat): nat {
    if x == 0 then y else if y == 0 then x
    else 2 * Or(x / 2, y / 2) + (if x % 2 == 1 || y % 2 == 1 then 1 else 0)
  }

  /** Numbers without a common bit are added: the bits of y are below p = 2^n, and those of x are not. */
  lemma {:induction false} OrAdds(x: nat, y: nat, n: nat)
    requires y < Pow(2, n)
    ensures Or(Pow(2, n) * x, y) == Pow(2, n) * x + y
  {
    if n > 0 && x > 0 && y > 0 {
      Associates(2, Pow(2, n - 1), x);
      OrAdds(x, y / 2, n - 1);
    }
  }

  lemma {:induction false} OrCommutes(x: nat, y: nat)
    ensures Or(x, y) == Or(y, x)
  {
    if x > 0 && y > 0 { OrCommutes(x / 2, y / 2); }
  }

  lemma LimbIsPower()
    ensures Pow(2, 32) == 0x1_0000_0000
  {
    assert Pow(2, 8) == 256;
    PowAdd(2, 8, 8);
    PowAdd(2, 16, 16);
  }

  lemma PowersFactor(s: nat)
    requires s <= 32
    ensures Factors(Pow(2, s), Pow(2, 32 - s))
  {
    PowAdd(2, s, 32 - s);
    LimbIsPower();
  }

  lemma ModulusIsPower(k: nat)
    ensures Modulus(k) == Pow(2, 32 * k)
  {
    LimbIsPower();
    PowPow(2, 32, k);
  }

  /** Multiplying a limb by p keeps the bits below q. */
  lemma LimbShifted(p: nat, q: nat, x: nat)
    requires Factors(p, q)
    ensures x * p % 0x1_0000_0000 == p * (x % q) && x % q < q
  {
    var h, l := x / q, x % q;
    assert x == q * h + l;
    assert x * p == p * (q * h) + p * l;
    Associates(p, q, h);
    Times(p, l + 1, q);
    Remainder(x * p, 0x1_0000_0000, h, p * l);
  }

  // ----- To the left -----

  /** Limb j of the limbs of a shifted to the left by k limbs and s bits. */
  function LeftLimb(a: seq<nat>, p: nat, q: nat, k: nat, j: nat): nat
    requires q > 0
  {
    (if k <= j < k + |a| then p * (a[j - k] % q) else 0) + (if k < j <= k + |a| then a[j - k - 1] / q else 0)
  }

  /** All of them, with one more limb at the end. */
  function Lefts(a: seq<nat>, p: nat, q: nat, c: nat): (r: seq<nat>)
    requires q > 0
    ensures |r| == |a| + 1
  {
    if a == [] then [c] else [p * (a[0] % q) + c] + Lefts(a[1..], p, q, a[0] / q)
  }

  lemma LeftStep(p: nat, q: nat, x: nat, c: nat)
    requires Factors(p, q) && x < 0x1_0000_0000 && c < p
    ensures p * (x % q) + c < 0x1_0000_0000 && x / q < p
    ensures p * (x % q) + 0x1_0000_0000 * (x / q) == p * x
  {
    var h, l := x / q, x % q;
    assert x == q * h + l;
    assert p * x == p * (q * h) + p * l;
    Associates(p, q, h);
    Times(p, l + 1, q);
    if h >= p { Times(q, p, h); }
  }

  lemma {:induction false} LeftsNumber(a: seq<nat>, p: nat, q: nat, c: nat)
    requires Factors(p, q) && Limbed(a) && c < p
    ensures Limbed(Lefts(a, p, q, c)) && Number(Lefts(a, p, q, c)) == p * Number(a) + c
  {
    if a == [] {
      Times(p, 1, q);
      assert [c][1..] == [] && Number([]) == 0;
    } else {
      assert Limbed(a[1..]);
      LeftStep(p, q, a[0], c);
      LeftsNumber(a[1..], p, q, a[0] / q);
      assert Lefts(a, p, q, c)[1..] == Lefts(a[1..], p, q, a[0] / q);
      Distribute(p, a[0], Number(a[1..]));
    }
  }

  lemma Distribute(p: nat, x: nat, v: nat)
    ensures p * (x + 0x1_0000_0000 * v) == p * x + 0x1_0000_0000 * (p * v)
  {
  }

  lemma {:induction false} LeftsAt(a: seq<nat>, p: nat, q: nat, c: nat, j: nat)
    requires q > 0 && j <= |a|
    ensures Lefts(a, p, q, c)[j] == LeftLimb(a, p, q, 0, j) + (if j == 0 then c else 0)
  {
    if j > 0 { LeftsAt(a[1..], p, q, a[0] / q, j - 1); }
  }

  function ZeroLimbs(k: nat): (r: seq<nat>)
    ensures |r| == k && forall i :: 0 <= i < k ==> r[i] == 0
  {
    seq(k, _ => 0)
  }

  lemma {:induction false} ZeroLimbsNumber(k: nat)
    ensures Limbed(ZeroLimbs(k)) && Number(ZeroLimbs(k)) == 0
  {
    if k > 0 {
      ZeroLimbsNumber(k - 1);
      assert ZeroLimbs(k)[1..] == ZeroLimbs(k - 1);
    }
  }

  /** Cutting off limbs takes the number modulo the width that is left. */
  lemma CutNumber(a: seq<nat>, n: nat)
    requires Limbed(a) && n <= |a|
    ensures Number(a[..n]) == Number(a) % Modulus(n) && Number(a[n..]) == Number(a) / Modulus(n)
  {
    assert a == a[..n] + a[n..];
    NumberConcat(a[..n], a[n..]);
    assert Limbed(a[..n]);
    NumberBelow(a[..n]);
    Remainder(Number(a), Modulus(n), Number(a[n..]), Number(a[..n]));
  }

  /** A shift to the left multiplies, modulo the width. */
  lemma LeftNumber(a: seq<nat>, p: nat, q: nat, k: nat, r: seq<nat>)
    requires Factors(p, q) && Limbed(a) && |r| == |a|
    requires forall j :: 0 <= j < |r| ==> r[j] == LeftLimb(a, p, q, k, j)
    ensures Limbed(r) && Number(r) == Modulus(k) * (p * Number(a)) % Modulus(|a|)
  {
    var full := ZeroLimbs(k) + Lefts(a, p, q, 0);
    LeftsNumber(a, p, q, 0);
    ZeroLimbsNumber(k);
    NumberConcat(ZeroLimbs(k), Lefts(a, p, q, 0));
    assert Limbed(full);
    forall j | 0 <= j < |r| ensures r[j] == full[j] {
      if j >= k { LeftsAt(a, p, q, 0, j - k); }
    }
    assert r == full[..|a|];
    CutNumber(full, |a|);
  }

  // ----- To the right -----

  /** Limb j of the limbs of a shifted to the right by k limbs and s bits. */
  function RightLimb(a: seq<nat>, p: nat, q: nat, k: nat, j: nat): nat
    requires p > 0
  {
    (if j + k < |a| then a[j + k] / p else 0) + (if j + k + 1 < |a| then q * (a[j + k + 1] % p) else 0)
  }

  function Rights(a: seq<nat>, p: nat, q: nat): (r: seq<nat>)
    requires p > 0
    ensures |r| == |a|
  {
    if a == [] then [] else [a[0] / p + (if |a| > 1 then q * (a[1] % p) else 0)] + Rights(a[1..], p, q)
  }

  lemma RightStep(p: nat, q: nat, x: nat, y: nat)
    requires Factors(p, q) && x < 0x1_0000_0000 && y < 0x1_0000_0000
    ensures x / p + q * (y % p) < 0x1_0000_0000
  {
    assert x == p * (x / p) + x % p;
    if x / p >= q { Times(p, q, x / p); }
    Times(q, y % p + 1, p);
    assert q * p == p * q;
  }

  /** (x + p q v) / p in terms of v / p and v % p. */
  lemma RightQuotient(p: nat, q: nat, x: nat, v: nat)
    requires Factors(p, q)
    ensures (x + 0x1_0000_0000 * v) / p == x / p + q * (v % p) + 0x1_0000_0000 * (v / p)
    ensures (x + 0x1_0000_0000 * v) % p == x % p
  {
    assert x == p * (x / p) + x % p && v == p * (v / p) + v % p;
    Associates(p, q, v);
    Associates(q, p, v / p);
    assert q * p == p * q;
    assert q * v == q * (p * (v / p)) + q * (v % p);
    assert p * (x / p + q * v) == p * (x / p) + p * (q * v);
    Remainder(x + 0x1_0000_0000 * v, p, x / p + q * v, x % p);
  }

  lemma {:induction false} RightsNumber(a: seq<nat>, p: nat, q: nat)
    requires Factors(p, q) && Limbed(a)
    ensures Limbed(Rights(a, p, q)) && Number(Rights(a, p, q)) == Number(a) / p
    ensures Number(a) % p == if a == [] then 0 else a[0] % p
  {
    if a != [] {
      var b := a[1..];
      assert Limbed(b);
      RightsNumber(b, p, q);
      RightStep(p, q, a[0], if b == [] then 0 else b[0]);
      assert Rights(a, p, q)[1..] == Rights(b, p, q);
      RightQuotient(p, q, a[0], Number(b));
    }
  }

  lemma {:induction false} RightsAt(a: seq<nat>, p: nat, q: nat, j: nat)
    requires p > 0 && j < |a|
    ensures Rights(a, p, q)[j] == RightLimb(a, p, q, 0, j)
  {
    if j > 0 { RightsAt(a[1..], p, q, j - 1); }
  }

  /** A shift to the right divides. */
  lemma RightNumber(a: seq<nat>, p: nat, q: nat, k: nat, r: seq<nat>)
    requires Factors(p, q) && Limbed(a) && |r| == |a|
    requires forall j :: 0 <= j < |r| ==> r[j] == RightLimb(a, p, q, k, j)
    ensures Limbed(r) && Number(r) == if k <= |a| then Number(a) / Modulus(k) / p else 0
  {
    if k <= |a| {
      var b := a[k..];
      assert Limbed(b);
      RightsNumber(b, p, q);
      CutNumber(a, k);
      forall j | 0 <= j < |b| ensures r[j] == Rights(b, p, q)[j] { RightsAt(b, p, q, j); }
      ZeroLimbsNumber(k);
      NumberConcat(Rights(b, p, q), ZeroLimbs(k));
      assert r == Rights(b, p, q) + ZeroLimbs(k);
    } else {
      ZeroLimbsNumber(|a|);
      assert r == ZeroLimbs(|a|);
    }
  }
}
