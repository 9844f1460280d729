/**
 * A group in which adding twice cancels, with an additive operator of order 1023: what the error detection of Bech32
 * (src/bech32.cpp:138-147) takes from the powers of a root of its generator.
 */
module RootCodes {

  datatype Ring<!K> = Ring(plus: (K, K) -> K, zero: K, step: K -> K)

  ghost predicate Law<K(!new)>(r: Ring<K>, x: K, y: K, z: K) {
    && r.plus(r.plus(x, y), z) == r.plus(r.plus(x, z), y)
    && r.plus(x, y) == r.plus(y, x)
    && r.plus(x, r.zero) == x
    && r.plus(x, x) == r.zero
    && r.step(r.plus(x, y)) == r.plus(r.step(x), r.step(y))
  }

  /** The operator n times. */
  function Iter<K>(r: Ring<K>, n: nat, z: K): K {
    if n == 0 then z else r.step(Iter(r, n - 1, z))
  }

  /** The order 1023 = 3 * 11 * 31, and what is left of it without one of its factors. */
  const ORDER: nat := 1023
  const BY_3: nat := 341
  const BY_11: nat := 93
  const BY_31: nat := 33

  /** The operator comes back to everything after ORDER times, and short of that by one factor to zero only. */
  ghost predicate Turns<K(!new)>(r: Ring<K>, z: K) {
    && Iter(r, ORDER, z) == z
    && (Iter(r, BY_3, z) == z || Iter(r, BY_11, z) == z || Iter(r, BY_31, z) == z ==> z == r.zero)
  }

  /** Adding twice cancels, and the operator is additive. */
  ghost predicate Linear<K(!new)>(r: Ring<K>) {
    forall x, y, z {:trigger Law(r, x, y, z)} :: Law(r, x, y, z)
  }

  ghost predicate Lawful<K(!new)>(r: Ring<K>) {
    Linear(r) && forall z {:trigger Turns(r, z)} :: Turns(r, z)
  }

  // ----- Adding -----

  lemma Twice<K(!new)>(r: Ring<K>, x: K, y: K)
    requires Linear(r)
    ensures r.plus(r.plus(x, y), y) == x && r.plus(x, y) == r.plus(y, x)
  {
    assert Law(r, x, y, y) && Law(r, y, x, y) && Law(r, r.zero, x, x) && Law(r, x, x, x);
  }

  /** A sum is zero if and only if both are the same. */
  lemma SumZero<K(!new)>(r: Ring<K>, x: K, y: K)
    requires Linear(r)
    ensures r.plus(x, y) == r.zero <==> x == y
  {
    Twice(r, x, y);
    assert Law(r, x, x, x) && Law(r, y, y, y) && Law(r, r.zero, y, y);
  }

  // ----- Powers of the operator -----

  lemma {:induction false} IterPlus<K(!new)>(r: Ring<K>, n: nat, x: K, y: K)
    requires Linear(r)
    ensures Iter(r, n, r.plus(x, y)) == r.plus(Iter(r, n, x), Iter(r, n, y))
  {
    if n > 0 {
      IterPlus(r, n - 1, x, y);
      assert Law(r, Iter(r, n - 1, x), Iter(r, n - 1, y), x);
    }
  }

  lemma {:induction false} IterIter<K>(r: Ring<K>, m: nat, n: nat, z: K)
    ensures Iter(r, m, Iter(r, n, z)) == Iter(r, m + n, z)
  {
    if m > 0 { IterIter(r, m - 1, n, z); }
  }

  lemma IterZero<K(!new)>(r: Ring<K>, n: nat)
    requires Linear(r)
    ensures Iter(r, n, r.zero) == r.zero
  {
    IterPlus(r, n, r.zero, r.zero);
    assert Law(r, r.zero, r.zero, r.zero) && Law(r, Iter(r, n, r.zero), r.zero, r.zero);
  }

  /** What comes back after n comes back after k n. */
  lemma {:induction false} Repeated<K>(r: Ring<K>, n: nat, k: nat, z: K)
    requires Iter(r, n, z) == z
    ensures n * k >= 0 && Iter(r, n * k, z) == z
  {
    if k > 0 {
      Repeated(r, n, k - 1, z);
      assert n * k == n * (k - 1) + n;
      IterIter(r, n * (k - 1), n, z);
    }
  }

  /** What comes back after m and after m + n comes back after n. */
  lemma Shortened<K>(r: Ring<K>, m: nat, n: nat, z: K)
    requires Iter(r, m, z) == z && Iter(r, m + n, z) == z
    ensures Iter(r, n, z) == z
  {
    IterIter(r, n, m, z);
  }

  lemma IterInjective<K(!new)>(r: Ring<K>, n: nat, z: K)
    requires Lawful(r) && Iter(r, n, z) == r.zero
    ensures z == r.zero
  {
    assert Turns(r, z);
    Repeated(r, ORDER, n, z);
    assert ORDER * n == (ORDER - 1) * n + n;
    IterIter(r, (ORDER - 1) * n, n, z);
    IterZero(r, (ORDER - 1) * n);
  }

  // ----- Multiples -----

  datatype Bits = Bits(b1: bool, b2: bool, b4: bool, b8: bool, b16: bool)

  function On<K>(r: Ring<K>, b: bool, z: K): K {
    if b then z else r.zero
  }

  function Five<K>(r: Ring<K>, a: K, b: K, c: K, d: K, e: K): K {
    r.plus(r.plus(r.plus(r.plus(a, b), c), d), e)
  }

  /** z times a number of five bits, given how to double. */
  function Scaled<K>(r: Ring<K>, double: K -> K, b: Bits, z: K): K {
    var z2 := double(z);
    var z4 := double(z2);
    var z8 := double(z4);
    Five(r, On(r, b.b1, z), On(r, b.b2, z2), On(r, b.b4, z4), On(r, b.b8, z8), On(r, b.b16, double(z8)))
  }

  /** z times hi e + lo. */
  function Product<K>(r: Ring<K>, double: K -> K, z: K, hi: Bits, lo: Bits): K {
    r.plus(Scaled(r, double, lo, z), Scaled(r, double, hi, r.step(z)))
  }

  ghost predicate Maps<K>(r: Ring<K>, f: K -> K, y: K, z: K) {
    f(r.plus(y, z)) == r.plus(f(y), f(z)) && f(r.step(z)) == r.step(f(z))
  }

  /** f is additive and can be exchanged with the operator. */
  ghost predicate Respects<K(!new)>(r: Ring<K>, f: K -> K) {
    forall y, z {:trigger Maps(r, f, y, z)} :: Maps(r, f, y, z)
  }

  lemma {:induction false} IterMaps<K(!new)>(r: Ring<K>, f: K -> K, n: nat, z: K)
    requires Respects(r, f)
    ensures f(Iter(r, n, z)) == Iter(r, n, f(z))
  {
    if n > 0 {
      IterMaps(r, f, n - 1, z);
      var y := Iter(r, n - 1, z);
      assert Maps(r, f, y, y);
    }
  }

  lemma StepOn<K(!new)>(r: Ring<K>, b: bool, z: K)
    requires Linear(r)
    ensures r.step(On(r, b, z)) == On(r, b, r.step(z))
  {
    var o := r.zero;
    assert Law(r, o, o, o) && Law(r, r.step(o), r.step(o), o);
  }

  lemma StepScaled<K(!new)>(r: Ring<K>, double: K -> K, b: Bits, z: K)
    requires Linear(r) && Respects(r, double)
    ensures r.step(Scaled(r, double, b, z)) == Scaled(r, double, b, r.step(z))
  {
    var z2 := double(z);
    var z4 := double(z2);
    var z8 := double(z4);
    assert Maps(r, double, z, z) && Maps(r, double, z, z2) && Maps(r, double, z, z4) && Maps(r, double, z, z8);
    StepOn(r, b.b1, z);
    StepOn(r, b.b2, z2);
    StepOn(r, b.b4, z4);
    StepOn(r, b.b8, z8);
    StepOn(r, b.b16, double(z8));
    var s1, s2, s4, s8, s16 := On(r, b.b1, z), On(r, b.b2, z2), On(r, b.b4, z4), On(r, b.b8, z8),
                               On(r, b.b16, double(z8));
    assert Law(r, s1, s2, z) && Law(r, r.plus(s1, s2), s4, z) && Law(r, r.plus(r.plus(s1, s2), s4), s8, z);
    assert Law(r, r.plus(r.plus(r.plus(s1, s2), s4), s8), s16, z);
  }

  lemma OnAdds<K(!new)>(r: Ring<K>, b: bool, y: K, z: K)
    requires Linear(r)
    ensures On(r, b, r.plus(y, z)) == r.plus(On(r, b, y), On(r, b, z))
  {
    assert Law(r, r.zero, r.zero, r.zero);
  }

  lemma Crosswise<K(!new)>(r: Ring<K>, p: K, q: K, s: K, t: K)
    requires Linear(r)
    ensures r.plus(r.plus(p, q), r.plus(s, t)) == r.plus(r.plus(p, s), r.plus(q, t))
  {
    var u, v, w := r.plus(s, t), r.plus(p, s), r.plus(q, t);
    assert Law(r, p, q, u) && Law(r, p, u, u) && Law(r, s, t, p) && Law(r, s, p, p);
    assert Law(r, v, w, w) && Law(r, q, t, v) && Law(r, q, v, v) && Law(r, v, q, t);
  }

  lemma ScaledAdds<K(!new)>(r: Ring<K>, double: K -> K, b: Bits, y: K, z: K)
    requires Linear(r) && Respects(r, double)
    ensures Scaled(r, double, b, r.plus(y, z)) == r.plus(Scaled(r, double, b, y), Scaled(r, double, b, z))
  {
    var y2, z2 := double(y), double(z);
    var y4, z4 := double(y2), double(z2);
    var y8, z8 := double(y4), double(z4);
    var y16, z16 := double(y8), double(z8);
    assert Maps(r, double, y, z) && Maps(r, double, y2, z2) && Maps(r, double, y4, z4) && Maps(r, double, y8, z8);
    OnAdds(r, b.b1, y, z);
    OnAdds(r, b.b2, y2, z2);
    OnAdds(r, b.b4, y4, z4);
    OnAdds(r, b.b8, y8, z8);
    OnAdds(r, b.b16, y16, z16);
    FiveSums(r, On(r, b.b1, y), On(r, b.b2, y2), On(r, b.b4, y4), On(r, b.b8, y8), On(r, b.b16, y16),
             On(r, b.b1, z), On(r, b.b2, z2), On(r, b.b4, z4), On(r, b.b8, z8), On(r, b.b16, z16));
  }

  lemma FiveSums<K(!new)>(r: Ring<K>, a: K, b: K, c: K, d: K, e: K, a': K, b': K, c': K, d': K, e': K)
    requires Linear(r)
    ensures Five(r, r.plus(a, a'), r.plus(b, b'), r.plus(c, c'), r.plus(d, d'), r.plus(e, e')) ==
            r.plus(Five(r, a, b, c, d, e), Five(r, a', b', c', d', e'))
  {
    Crosswise(r, a, a', b, b');
    Crosswise(r, r.plus(a, b), r.plus(a', b'), c, c');
    Crosswise(r, r.plus(r.plus(a, b), c), r.plus(r.plus(a', b'), c'), d, d');
    Crosswise(r, r.plus(r.plus(r.plus(a, b), c), d), r.plus(r.plus(r.plus(a', b'), c'), d'), e, e');
  }

  function Scaling<K>(r: Ring<K>, double: K -> K, b: Bits): K -> K {
    z => Scaled(r, double, b, z)
  }

  /** Taking a multiple is additive and can be exchanged with the operator, if doubling is. */
  lemma ScaledRespects<K(!new)>(r: Ring<K>, double: K -> K, b: Bits)
    requires Linear(r) && Respects(r, double)
    ensures Respects(r, Scaling(r, double, b))
  {
    var f := Scaling(r, double, b);
    forall y, z ensures Maps(r, f, y, z) {
      ScaledAdds(r, double, b, y, z);
      StepScaled(r, double, b, z);
    }
  }

  /** A power of the operator on a product acts on the first factor. */
  lemma {:induction false} IterProduct<K(!new)>(r: Ring<K>, double: K -> K, n: nat, z: K, hi: Bits, lo: Bits)
    requires Linear(r) && Respects(r, double)
    ensures Iter(r, n, Product(r, double, z, hi, lo)) == Product(r, double, Iter(r, n, z), hi, lo)
  {
    if n > 0 {
      IterProduct(r, double, n - 1, z, hi, lo);
      var y := Iter(r, n - 1, z);
      StepScaled(r, double, lo, y);
      StepScaled(r, double, hi, r.step(y));
      assert Law(r, Scaled(r, double, lo, y), Scaled(r, double, hi, r.step(y)), y);
    }
  }

  // ----- No power short of 1023 leaves anything but zero alone -----

  function Gcd(a: nat, b: nat): nat
    decreases b
  {
    if b == 0 then a else Gcd(b, a % b)
  }

  /** What comes back after s a and after s b comes back after s times their greatest common divisor. */
  lemma {:induction false} Common<K>(r: Ring<K>, s: nat, a: nat, b: nat, z: K)
    requires Iter(r, s * a, z) == z && Iter(r, s * b, z) == z
    ensures Iter(r, s * Gcd(a, b), z) == z
    decreases b
  {
    if b > 0 {
      var q := a / b;
      assert a == b * q + a % b;
      assert s * a == s * b * q + s * (a % b);
      Repeated(r, s * b, q, z);
      Shortened(r, s * b * q, s * (a % b), z);
      Common(r, s, b, a % b, z);
    }
  }

  predicate CoprimeBelow(q: nat, n: nat) {
    n == 0 || (Gcd(q, n) == 1 && CoprimeBelow(q, n - 1))
  }

  lemma {:induction false} Coprime(q: nat, n: nat, j: nat)
    requires CoprimeBelow(q, n) && 0 < j <= n
    ensures Gcd(q, j) == 1
  {
    if j < n { Coprime(q, n - 1, j); }
  }

  lemma Primes()
    ensures CoprimeBelow(3, 2) && CoprimeBelow(11, 10) && CoprimeBelow(31, 30)
  {
    assert CoprimeBelow(31, 8);
    assert CoprimeBelow(31, 16);
    assert CoprimeBelow(31, 24);
  }

  /** If q, a factor of the order, does not divide d, what comes back after d comes back after ORDER / q. */
  lemma FactorOut<K(!new)>(r: Ring<K>, d: nat, q: nat, s: nat, z: K)
    requires Lawful(r) && Iter(r, d, z) == z && q > 1 && CoprimeBelow(q, q - 1) && s * q == ORDER && d % q != 0
    ensures Iter(r, s, z) == z
  {
    assert Turns(r, z);
    Repeated(r, d, s, z);
    assert d * s == s * d;
    Common(r, s, d, q, z);
    Coprime(q, q - 1, d % q);
  }

  lemma SomeFactor(d: nat)
    requires 0 < d < ORDER
    ensures d % 3 != 0 || d % 11 != 0 || d % 31 != 0
  {
  }

  lemma NotFixed<K(!new)>(r: Ring<K>, d: nat, z: K)
    requires Lawful(r) && 0 < d < ORDER && Iter(r, d, z) == z
    ensures z == r.zero
  {
    Primes();
    SomeFactor(d);
    var q, s := if d % 3 != 0 then 3 else if d % 11 != 0 then 11 else 31,
                if d % 3 != 0 then BY_3 else if d % 11 != 0 then BY_11 else BY_31;
    FactorOut(r, d, q, s, z);
    assert Turns(r, z);
  }

  /** Different powers below 1023 agree on zero only. */
  lemma PowersDiffer<K(!new)>(r: Ring<K>, a: nat, b: nat, z: K)
    requires Lawful(r) && a < ORDER && b < ORDER && a != b && Iter(r, a, z) == Iter(r, b, z)
    ensures z == r.zero
  {
    var lo, hi := if a < b then a else b, if a < b then b else a;
    IterIter(r, lo, hi - lo, z);
    IterPlus(r, lo, Iter(r, hi - lo, z), z);
    SumZero(r, Iter(r, hi, z), Iter(r, lo, z));
    IterInjective(r, lo, r.plus(Iter(r, hi - lo, z), z));
    SumZero(r, Iter(r, hi - lo, z), z);
    NotFixed(r, hi - lo, z);
  }

  // ----- Three unknowns -----

  lemma Exchange<K(!new)>(r: Ring<K>, p: K, q: K, s: K, t: K)
    requires Linear(r) && r.plus(p, q) == r.plus(s, t)
    ensures r.plus(p, s) == r.plus(q, t)
  {
    Twice(r, p, q);
    Twice(r, s, t);
    Twice(r, q, t);
    assert Law(r, s, t, q) && Law(r, p, q, s) && Law(r, q, t, s) && Law(r, t, q, s) && Law(r, s, q, t);
    Twice(r, r.plus(q, t), s);
    Twice(r, r.plus(p, q), q);
    calc {
      r.plus(p, s);
    == r.plus(r.plus(r.plus(p, q), q), s);
    == r.plus(r.plus(r.plus(s, t), q), s);
    == r.plus(r.plus(r.plus(q, t), s), s);
    == r.plus(q, t);
    }
  }

  /** The part of the third unknown drops out. */
  lemma Eliminate<K(!new)>(r: Ring<K>, x: K, y: K, w: K, p: K, q: K, v: K, c: nat)
    requires Linear(r) && r.plus(r.plus(x, y), w) == r.zero && r.plus(r.plus(p, q), v) == r.zero && v == Iter(r, c, w)
    ensures r.plus(p, Iter(r, c, x)) == r.plus(q, Iter(r, c, y))
  {
    SumZero(r, r.plus(x, y), w);
    SumZero(r, r.plus(p, q), v);
    IterPlus(r, c, x, y);
    Exchange(r, p, q, Iter(r, c, x), Iter(r, c, y));
  }

  /**
   * Three different powers: if the sums of x, y and w under them vanish to the orders 0, 1 and 2, all three are zero.
   */
  lemma ThreeUnknowns<K(!new)>(r: Ring<K>, a: nat, b: nat, c: nat, x: K, y: K, w: K)
    requires Lawful(r) && a < ORDER && b < ORDER && c < ORDER && a != b && a != c && b != c
    requires r.plus(r.plus(x, y), w) == r.zero
    requires r.plus(r.plus(Iter(r, a, x), Iter(r, b, y)), Iter(r, c, w)) == r.zero
    requires r.plus(r.plus(Iter(r, a + a, x), Iter(r, b + b, y)), Iter(r, c + c, w)) == r.zero
    ensures x == y == w == r.zero
  {
    var p, q := Iter(r, a, x), Iter(r, b, y);
    Eliminate(r, x, y, w, p, q, Iter(r, c, w), c);
    var u := r.plus(p, Iter(r, c, x));
    IterIter(r, c, c, w);
    Eliminate(r, p, q, Iter(r, c, w), Iter(r, a + a, x), Iter(r, b + b, y), Iter(r, c + c, w), c);
    Powered(r, a, c, x);
    Powered(r, b, c, y);
    PowersDiffer(r, a, b, u);
    SumZero(r, p, Iter(r, c, x));
    SumZero(r, q, Iter(r, c, y));
    PowersDiffer(r, a, c, x);
    PowersDiffer(r, b, c, y);
    assert Law(r, r.zero, w, w) && Law(r, w, w, w);
  }

  lemma Powered<K(!new)>(r: Ring<K>, a: nat, c: nat, x: K)
    requires Linear(r)
    ensures r.plus(Iter(r, a + a, x), Iter(r, c, Iter(r, a, x))) == Iter(r, a, r.plus(Iter(r, a, x), Iter(r, c, x)))
  {
    IterIter(r, a, a, x);
    IterIter(r, c, a, x);
    IterIter(r, a, c, x);
    IterPlus(r, a, Iter(r, a, x), Iter(r, c, x));
  }
}
