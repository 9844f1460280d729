/** Numbers as lists of digits, least significant first, and changing the base digit by digit. */
module Digits {

  function Pow(b: nat, n: nat): (r: nat)
    ensures b > 0 ==> r > 0
  {
    if n == 0 then 1 else b * Pow(b, n - 1)
  }

  function Val(b: nat, d: seq<nat>): nat {
    if d == [] then 0 else d[0] + b * Val(b, d[1..])
  }

  ghost predicate Below(b: nat, d: seq<nat>) {
    forall i :: 0 <= i < |d| ==> d[i] < b
  }

  /** No zero in front: the last digit of the list is the leading one. */
  ghost predicate Normal(d: seq<nat>) {
    d == [] || d[|d| - 1] != 0
  }

  /** The digits of c. */
  function ToDigits(b: nat, c: nat): (d: seq<nat>)
    requires b > 1
    ensures Below(b, d) && Normal(d)
  {
    if c == 0 then [] else
      Shrinks(b, c);
      [c % b] + ToDigits(b, c / b)
  }

  lemma Shrinks(b: nat, c: nat)
    requires b > 1 && c > 0
    ensures c / b < c && c == c % b + b * (c / b) && 0 <= c % b < b
    ensures c / b == 0 ==> c % b > 0
  {
    assert c / b > 0 ==> 2 * (c / b) <= b * (c / b);
  }

  lemma {:induction false} ToDigitsValue(b: nat, c: nat)
    requires b > 1
    ensures Val(b, ToDigits(b, c)) == c
  {
    if c > 0 {
      Shrinks(b, c);
      ToDigitsValue(b, c / b);
      assert ToDigits(b, c)[1..] == ToDigits(b, c / b);
    }
  }

  /** Multiply by m and add c. */
  function MulAdd(b: nat, m: nat, d: seq<nat>, c: nat): (r: seq<nat>)
    requires b > 1
    ensures Below(b, r) && |r| >= |d|
  {
    if d == [] then ToDigits(b, c)
    else [(c + m * d[0]) % b] + MulAdd(b, m, d[1..], (c + m * d[0]) / b)
  }

  lemma {:induction false} MulAddValue(b: nat, m: nat, d: seq<nat>, c: nat)
    requires b > 1
    ensures Val(b, MulAdd(b, m, d, c)) == m * Val(b, d) + c
  {
    if d == [] {
      ToDigitsValue(b, c);
    } else {
      var x := c + m * d[0];
      MulAddValue(b, m, d[1..], x / b);
      var rest := MulAdd(b, m, d[1..], x / b);
      assert MulAdd(b, m, d, c) == [x % b] + rest && ([x % b] + rest)[1..] == rest;
      Regroup(b, m, d[0], Val(b, d[1..]), c);
    }
  }

  lemma Regroup(b: nat, m: nat, d0: nat, v: nat, c: nat)
    requires b > 1
    ensures (c + m * d0) % b + b * (m * v + (c + m * d0) / b) == m * (d0 + b * v) + c
  {
    var x := c + m * d0;
    assert x == b * (x / b) + x % b;
    assert b * (m * v + x / b) == b * (m * v) + b * (x / b);
    assert b * (m * v) == m * (b * v);
    assert m * (d0 + b * v) == m * d0 + m * (b * v);
  }

  lemma {:induction false} MulAddNormal(b: nat, m: nat, d: seq<nat>, c: nat)
    requires b > 1 && m > 0 && Normal(d)
    ensures Normal(MulAdd(b, m, d, c))
  {
    if d != [] {
      var x := c + m * d[0];
      var rest := MulAdd(b, m, d[1..], x / b);
      assert Normal(d[1..]) by { if |d| > 1 { assert d[1..][|d| - 2] == d[|d| - 1]; } }
      MulAddNormal(b, m, d[1..], x / b);
      if rest == [] { OnlyDigit(b, m, d[0], c); }
    }
  }

  lemma OnlyDigit(b: nat, m: nat, d0: nat, c: nat)
    requires b > 1 && m > 0 && d0 != 0 && (c + m * d0) / b == 0
    ensures (c + m * d0) % b != 0
  {
    var x := c + m * d0;
    assert m * d0 > 0;
    assert x == b * (x / b) + x % b;
  }

  /** Digits below the base without a leading zero are determined by their value. */
  lemma {:induction false} Unique(b: nat, d: seq<nat>, e: seq<nat>)
    requires b > 1 && Below(b, d) && Below(b, e) && Normal(d) && Normal(e) && Val(b, d) == Val(b, e)
    ensures d == e
  {
    if e != [] { NormalPositive(b, e); }
    if d != [] { NormalPositive(b, d); }
    if d != [] && e != [] {
      SplitDigit(b, d[0], Val(b, d[1..]), e[0], Val(b, e[1..]));
      assert Below(b, d[1..]) && Below(b, e[1..]);
      assert Normal(d[1..]) by { if |d| > 1 { assert d[1..][|d| - 2] == d[|d| - 1]; } }
      assert Normal(e[1..]) by { if |e| > 1 { assert e[1..][|e| - 2] == e[|e| - 1]; } }
      Unique(b, d[1..], e[1..]);
      assert d == [d[0]] + d[1..] && e == [e[0]] + e[1..];
    }
  }

  lemma SplitDigit(b: nat, x: nat, v: nat, y: nat, w: nat)
    requires x < b && y < b && x + b * v == y + b * w
    ensures x == y && v == w
  {
    if v < w {
      assert b * (v + 1) <= b * w by { Times(b, v + 1, w); }
    } else if w < v {
      assert b * (w + 1) <= b * v by { Times(b, w + 1, v); }
    }
  }

  lemma Times(b: nat, v: nat, w: nat)
    requires v <= w
    ensures b * v <= b * w
  {
    assert b * (w - v) >= 0;
  }

  lemma {:induction false} NormalPositive(b: nat, d: seq<nat>)
    requires b > 1 && Normal(d) && d != []
    ensures Val(b, d) >= Pow(b, |d| - 1) > 0
  {
    if |d| > 1 {
      assert d[1..][|d| - 2] == d[|d| - 1];
      NormalPositive(b, d[1..]);
      Times(b, Pow(b, |d| - 2), Val(b, d[1..]));
    } else {
      assert d[1..] == [];
    }
  }

  // ----- Powers -----

  lemma {:induction false} PowAdd(b: nat, m: nat, n: nat)
    ensures Pow(b, m + n) == Pow(b, m) * Pow(b, n)
  {
    if m > 0 {
      PowAdd(b, m - 1, n);
      Associates(b, Pow(b, m - 1), Pow(b, n));
    }
  }

  lemma Associates(a: nat, b: nat, c: nat)
    ensures a * (b * c) == (a * b) * c
  {
  }

  lemma {:induction false} PowPow(b: nat, m: nat, n: nat)
    ensures Pow(Pow(b, m), n) == Pow(b, m * n)
  {
    if n > 0 {
      PowPow(b, m, n - 1);
      assert m * n == m + m * (n - 1);
      PowAdd(b, m, m * (n - 1));
    }
  }

  lemma {:induction false} PowMonotone(b: nat, m: nat, n: nat)
    requires b > 0 && m <= n
    ensures Pow(b, m) <= Pow(b, n)
  {
    if m < n {
      PowMonotone(b, m, n - 1);
      Times(Pow(b, n - 1), 1, b);
    }
  }

  lemma {:induction false} PowBase(a: nat, b: nat, n: nat)
    requires a <= b
    ensures Pow(a, n) <= Pow(b, n)
  {
    if n > 0 {
      PowBase(a, b, n - 1);
      Times(a, Pow(a, n - 1), Pow(b, n - 1));
      Times(Pow(b, n - 1), a, b);
    }
  }

  lemma {:induction false} PowStrict(a: nat, b: nat, n: nat)
    requires a < b && n > 0
    ensures Pow(a, n) < Pow(b, n)
  {
    PowBase(a, b, n - 1);
    Times(a, Pow(a, n - 1), Pow(b, n - 1));
    Times(Pow(b, n - 1), a + 1, b);
  }

  lemma RootMonotone(x: nat, y: nat, p: nat)
    requires p > 0 && Pow(x, p) <= Pow(y, p)
    ensures x <= y
  {
    if y < x { PowStrict(y, x, p); }
  }

  lemma PowSwap(a: nat, n: nat, p: nat)
    ensures Pow(Pow(a, n), p) == Pow(Pow(a, p), n)
  {
    PowPow(a, n, p);
    PowPow(a, p, n);
    assert n * p == p * n;
  }

  lemma RaisedBound(a: nat, p: nat, n: nat, y: nat)
    requires Pow(a, p) <= y
    ensures Pow(Pow(a, n), p) <= Pow(y, n)
  {
    PowSwap(a, n, p);
    PowBase(Pow(a, p), y, n);
  }

  lemma RaisedCompare(b: nat, q: nat, n: nat, e: nat, k: nat, p: nat, f: nat)
    requires b > 0 && e <= f
    requires Pow(Pow(b, q), n) == Pow(b, e) && Pow(Pow(b, k), p) == Pow(b, f)
    ensures Pow(Pow(b, q), n) <= Pow(Pow(b, k), p)
  {
    PowMonotone(b, e, f);
  }

  /** If a^p <= b^q and q n <= p k then a^n <= b^k. */
  lemma CompareByPowers(a: nat, b: nat, p: nat, q: nat, n: nat, k: nat)
    requires b > 0 && p > 0 && Pow(a, p) <= Pow(b, q) && q * n <= p * k
    ensures Pow(a, n) <= Pow(b, k)
  {
    RaisedBound(a, p, n, Pow(b, q));
    PowPow(b, q, n);
    PowPow(b, k, p);
    Times(q, 0, n);
    Times(k, 0, p);
    assert k * p == p * k;
    RaisedCompare(b, q, n, q * n, k, p, k * p);
    RootMonotone(Pow(a, n), Pow(b, k), p);
  }

  // ----- Changing the base -----

  /** The same digits with the most significant first. */
  function Flip(d: seq<nat>): (r: seq<nat>)
    ensures |r| == |d| && forall i :: 0 <= i < |d| ==> r[i] == d[|d| - 1 - i]
  {
    seq(|d|, i requires 0 <= i < |d| => d[|d| - 1 - i])
  }

  lemma FlipTwice(d: seq<nat>)
    ensures Flip(Flip(d)) == d
  {
    var f := Flip(d);
    assert forall i :: 0 <= i < |d| ==> Flip(f)[i] == f[|d| - 1 - i] == d[i];
  }

  lemma FlipLast(d: seq<nat>)
    requires d != []
    ensures Flip(d)[0] == d[|d| - 1] && Flip(d)[1..] == Flip(d[..|d| - 1])
  {
  }

  /** The base b digits of the number whose base m digits, most significant first, are src. */
  function Convert(b: nat, m: nat, src: seq<nat>): (d: seq<nat>)
    requires b > 1
    ensures Below(b, d)
  {
    if src == [] then [] else MulAdd(b, m, Convert(b, m, src[..|src| - 1]), src[|src| - 1])
  }

  lemma {:induction false} ConvertValue(b: nat, m: nat, src: seq<nat>)
    requires b > 1
    ensures Val(b, Convert(b, m, src)) == Val(m, Flip(src))
  {
    if src != [] {
      var init := src[..|src| - 1];
      ConvertValue(b, m, init);
      MulAddValue(b, m, Convert(b, m, init), src[|src| - 1]);
      FlipLast(src);
    }
  }

  lemma {:induction false} ConvertNormal(b: nat, m: nat, src: seq<nat>)
    requires b > 1 && m > 0
    ensures Normal(Convert(b, m, src))
  {
    if src != [] {
      var init := src[..|src| - 1];
      ConvertNormal(b, m, init);
      MulAddNormal(b, m, Convert(b, m, init), src[|src| - 1]);
    }
  }

  lemma {:induction false} ConvertGrows(b: nat, m: nat, src: seq<nat>, k: nat)
    requires b > 1 && k <= |src|
    ensures |Convert(b, m, src[..k])| <= |Convert(b, m, src)|
  {
    if k == |src| {
      assert src[..k] == src;
    } else {
      var init := src[..|src| - 1];
      assert init[..k] == src[..k];
      ConvertGrows(b, m, init, k);
    }
  }

  /** Converting there and back gives the digits again, if there was no leading zero. */
  lemma ConvertBack(b: nat, m: nat, src: seq<nat>)
    requires b > 1 && m > 1 && Below(m, src) && (src == [] || src[0] != 0)
    ensures Flip(Convert(m, b, Flip(Convert(b, m, src)))) == src
  {
    var d := Convert(b, m, src);
    var e := Convert(m, b, Flip(d));
    ConvertValue(b, m, src);
    ConvertValue(m, b, Flip(d));
    FlipTwice(d);
    ConvertNormal(m, b, Flip(d));
    Unique(m, e, Flip(src));
    FlipTwice(src);
  }

  lemma {:induction false} ValueBelow(b: nat, d: seq<nat>)
    requires Below(b, d)
    ensures Val(b, d) < Pow(b, |d|)
  {
    if d != [] {
      ValueBelow(b, d[1..]);
      Times(b, Val(b, d[1..]) + 1, Pow(b, |d| - 1));
    }
  }

  /** If m^p <= b^q then n digits in base m need at most q n / p + 1 digits in base b. */
  lemma ConvertFits(b: nat, m: nat, src: seq<nat>, p: nat, q: nat, k: nat)
    requires b > 1 && m > 0 && Below(m, src)
    requires p > 0 && Pow(m, p) <= Pow(b, q) && q * |src| <= p * (k + 1)
    ensures |Convert(b, m, src)| <= k + 1
  {
    var d := Convert(b, m, src);
    if |d| > k + 1 {
      ConvertNormal(b, m, src);
      NormalPositive(b, d);
      ConvertValue(b, m, src);
      ValueBelow(m, Flip(src));
      CompareByPowers(m, b, p, q, |src|, k + 1);
      PowMonotone(b, k + 1, |d| - 1);
    }
  }
}
