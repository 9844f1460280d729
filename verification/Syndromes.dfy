/**
 * Syndromes: the values of a remainder at powers of a root of the generator. Three powers in a row that are roots find
 * out any three changes within the order of the root, which is how src/bech32.cpp:138-143 states what its code is for.
 */
module Syndromes {

  import C = CheckCodes
  import R = RootCodes

  /** Where the remainders of a code are evaluated: a ring, and the symbols in it. */
  datatype Field<!E, !K> = Field(code: C.Code<E>, ring: R.Ring<K>, embed: E -> K)

  function Add<E, K>(f: Field<E, K>, x: K, y: K): K {
    f.ring.plus(x, y)
  }

  /** Times the m-th power of the root, plus a symbol. */
  function Horner<E, K>(f: Field<E, K>, m: nat, z: K, v: E): K {
    Add(f, R.Iter(f.ring, m, z), f.embed(v))
  }

  /** The value of a remainder at the m-th power of the root. */
  function At<E, K>(f: Field<E, K>, m: nat, s: C.Remainder<E>): K {
    Horner(f, m, Horner(f, m, Horner(f, m, Horner(f, m, Horner(f, m, f.embed(s.a), s.b), s.c), s.d), s.e), s.f)
  }

  function Leading<E, K>(f: Field<E, K>, x: E): C.Remainder<E> {
    C.Zero(f.code).(a := x)
  }

  /** The m-th power is a root of the generator: x^6 less the generator has the value of x^6 there. */
  ghost predicate RootAt<E, K>(f: Field<E, K>, m: nat, x: E) {
    At(f, m, f.code.times(x)) == R.Iter(f.ring, m, At(f, m, Leading(f, x)))
  }

  ghost predicate Root<E(!new), K>(f: Field<E, K>, m: nat) {
    forall x {:trigger RootAt(f, m, x)} :: RootAt(f, m, x)
  }

  ghost predicate Embeds<E, K>(f: Field<E, K>, x: E, y: E) {
    && f.embed(f.code.plus(x, y)) == Add(f, f.embed(x), f.embed(y))
    && (f.embed(x) == f.embed(y) ==> x == y)
  }

  ghost predicate Lawful<E(!new), K(!new)>(f: Field<E, K>) {
    && C.Lawful(f.code) && R.Lawful(f.ring)
    && (forall x, y {:trigger Embeds(f, x, y)} :: Embeds(f, x, y))
  }

  // ----- Values add -----

  lemma HornerAdds<E(!new), K(!new)>(f: Field<E, K>, m: nat, y: K, z: K, v: E, w: E)
    requires Lawful(f)
    ensures Horner(f, m, Add(f, y, z), f.code.plus(v, w)) == Add(f, Horner(f, m, y, v), Horner(f, m, z, w))
  {
    assert Embeds(f, v, w);
    R.IterPlus(f.ring, m, y, z);
    R.Crosswise(f.ring, R.Iter(f.ring, m, y), R.Iter(f.ring, m, z), f.embed(v), f.embed(w));
  }

  lemma AtAdds<E(!new), K(!new)>(f: Field<E, K>, m: nat, s: C.Remainder<E>, t: C.Remainder<E>)
    requires Lawful(f)
    ensures At(f, m, C.Plus(f.code, s, t)) == Add(f, At(f, m, s), At(f, m, t))
  {
    assert Embeds(f, s.a, t.a);
    var s1, t1 := Horner(f, m, f.embed(s.a), s.b), Horner(f, m, f.embed(t.a), t.b);
    var s2, t2 := Horner(f, m, s1, s.c), Horner(f, m, t1, t.c);
    var s3, t3 := Horner(f, m, s2, s.d), Horner(f, m, t2, t.d);
    HornerAdds(f, m, f.embed(s.a), f.embed(t.a), s.b, t.b);
    HornerAdds(f, m, s1, t1, s.c, t.c);
    HornerAdds(f, m, s2, t2, s.d, t.d);
    HornerAdds(f, m, s3, t3, s.e, t.e);
    HornerAdds(f, m, Horner(f, m, s3, s.e), Horner(f, m, t3, t.e), s.f, t.f);
  }

  // ----- A step multiplies by the root and adds the symbol -----

  lemma EmbedZero<E(!new), K(!new)>(f: Field<E, K>)
    requires Lawful(f)
    ensures f.embed(f.code.zero) == f.ring.zero
  {
    var o := f.code.zero;
    assert C.Law(f.code, o, o, o) && Embeds(f, o, o) && R.Law(f.ring, f.embed(o), f.embed(o), f.embed(o));
  }

  lemma HornerZero<E(!new), K(!new)>(f: Field<E, K>, m: nat, v: E)
    requires Lawful(f)
    ensures Horner(f, m, f.ring.zero, v) == f.embed(v)
  {
    R.IterZero(f.ring, m);
    assert R.Law(f.ring, f.ring.zero, f.embed(v), f.embed(v)) && R.Law(f.ring, f.embed(v), f.embed(v), f.embed(v));
  }

  /** Below the leading coefficient a shift multiplies by the root. */
  lemma AtShift<E(!new), K(!new)>(f: Field<E, K>, m: nat, s: C.Remainder<E>, v: E)
    requires Lawful(f)
    ensures At(f, m, C.Shift(s, v)) == Horner(f, m, At(f, m, s.(a := f.code.zero)), v)
  {
    EmbedZero(f);
    HornerZero(f, m, s.b);
  }

  lemma AtSplit<E(!new), K(!new)>(f: Field<E, K>, m: nat, s: C.Remainder<E>)
    requires Lawful(f)
    ensures At(f, m, s) == Add(f, At(f, m, s.(a := f.code.zero)), At(f, m, Leading(f, s.a)))
  {
    var k := f.code;
    AtAdds(f, m, s.(a := k.zero), Leading(f, s.a));
    assert C.Law(k, k.zero, s.a, s.a) && C.Law(k, s.a, s.a, s.a) && C.Law(k, s.b, s.b, s.b);
    assert C.Law(k, s.c, s.c, s.c) && C.Law(k, s.d, s.d, s.d) && C.Law(k, s.e, s.e, s.e) && C.Law(k, s.f, s.f, s.f);
  }

  lemma AtStep<E(!new), K(!new)>(f: Field<E, K>, m: nat, s: C.Remainder<E>, v: E)
    requires Lawful(f) && Root(f, m)
    ensures At(f, m, C.Step(f.code, s, v)) == Horner(f, m, At(f, m, s), v)
  {
    var low, top := At(f, m, s.(a := f.code.zero)), At(f, m, Leading(f, s.a));
    assert RootAt(f, m, s.a);
    AtAdds(f, m, C.Shift(s, v), f.code.times(s.a));
    AtShift(f, m, s, v);
    AtSplit(f, m, s);
    R.IterPlus(f.ring, m, low, top);
    assert R.Law(f.ring, R.Iter(f.ring, m, low), f.embed(v), R.Iter(f.ring, m, top));
  }

  /** scale takes the symbols of g to those of s. */
  ghost predicate Multiple<E, K>(f: Field<E, K>, scale: K -> K, g: C.Remainder<E>, s: C.Remainder<E>) {
    && f.embed(s.a) == scale(f.embed(g.a)) && f.embed(s.b) == scale(f.embed(g.b)) && f.embed(s.c) == scale(f.embed(g.c))
    && f.embed(s.d) == scale(f.embed(g.d)) && f.embed(s.e) == scale(f.embed(g.e)) && f.embed(s.f) == scale(f.embed(g.f))
  }

  lemma ScaleHorner<E, K(!new)>(f: Field<E, K>, scale: K -> K, m: nat, z: K, v: E, w: E)
    requires R.Respects(f.ring, scale) && f.embed(w) == scale(f.embed(v))
    ensures Horner(f, m, scale(z), w) == scale(Horner(f, m, z, v))
  {
    R.IterMaps(f.ring, scale, m, z);
    assert R.Maps(f.ring, scale, R.Iter(f.ring, m, z), f.embed(v));
  }

  /** A multiple of a remainder has a multiple of its value. */
  lemma ScaleAt<E, K(!new)>(f: Field<E, K>, scale: K -> K, m: nat, g: C.Remainder<E>, s: C.Remainder<E>)
    requires R.Respects(f.ring, scale) && Multiple(f, scale, g, s)
    ensures At(f, m, s) == scale(At(f, m, g))
  {
    var z1 := Horner(f, m, f.embed(g.a), g.b);
    var z2 := Horner(f, m, z1, g.c);
    var z3 := Horner(f, m, z2, g.d);
    ScaleHorner(f, scale, m, f.embed(g.a), g.b, s.b);
    ScaleHorner(f, scale, m, z1, g.c, s.c);
    ScaleHorner(f, scale, m, z2, g.d, s.d);
    ScaleHorner(f, scale, m, z3, g.e, s.e);
    ScaleHorner(f, scale, m, Horner(f, m, z3, g.e), g.f, s.f);
  }

  /** A power at which x^6 and g have the same value is a root for all multiples of g. */
  lemma RootFrom<E, K(!new)>(f: Field<E, K>, scale: K -> K, m: nat, one: E, g: C.Remainder<E>, x: E)
    requires R.Respects(f.ring, scale) && Multiple(f, scale, g, f.code.times(x))
    requires Multiple(f, scale, Leading(f, one), Leading(f, x))
    requires At(f, m, g) == R.Iter(f.ring, m, At(f, m, Leading(f, one)))
    ensures RootAt(f, m, x)
  {
    ScaleAt(f, scale, m, g, f.code.times(x));
    ScaleAt(f, scale, m, Leading(f, one), Leading(f, x));
    R.IterMaps(f.ring, scale, m, At(f, m, Leading(f, one)));
  }

  // ----- Differences -----

  function Difference<E, K>(f: Field<E, K>, m: nat, s: C.Remainder<E>, t: C.Remainder<E>): K {
    Add(f, At(f, m, s), At(f, m, t))
  }

  function Change<E, K>(f: Field<E, K>, v: E, w: E): K {
    Add(f, f.embed(v), f.embed(w))
  }

  lemma StepDifference<E(!new), K(!new)>(f: Field<E, K>, m: nat, s: C.Remainder<E>, t: C.Remainder<E>, v: E, w: E)
    requires Lawful(f) && Root(f, m)
    ensures Difference(f, m, C.Step(f.code, s, v), C.Step(f.code, t, w)) ==
            Add(f, R.Iter(f.ring, m, Difference(f, m, s, t)), Change(f, v, w))
  {
    AtStep(f, m, s, v);
    AtStep(f, m, t, w);
    assert Embeds(f, v, w);
    HornerAdds(f, m, At(f, m, s), At(f, m, t), v, w);
  }

  lemma SameDifference<E(!new), K(!new)>(f: Field<E, K>, m: nat, s: C.Remainder<E>, t: C.Remainder<E>, v: E)
    requires Lawful(f) && Root(f, m)
    ensures Difference(f, m, C.Step(f.code, s, v), C.Step(f.code, t, v)) == R.Iter(f.ring, m, Difference(f, m, s, t))
  {
    StepDifference(f, m, s, t, v, v);
    var d, e := R.Iter(f.ring, m, Difference(f, m, s, t)), f.embed(v);
    assert R.Law(f.ring, e, e, e) && R.Law(f.ring, d, d, d);
  }

  /** The m-th power of the root, n times. */
  function Power<E, K>(f: Field<E, K>, m: nat, n: nat, z: K): K {
    R.Iter(f.ring, m * n, z)
  }

  lemma PowerNext<E, K>(f: Field<E, K>, m: nat, n: nat, z: K)
    ensures Power(f, m, n, R.Iter(f.ring, m, z)) == Power(f, m, n + 1, z)
  {
    R.IterIter(f.ring, m * n, m, z);
  }

  /** Equal symbols only multiply the difference. */
  lemma {:induction false} RunDifference<E(!new), K(!new)>(f: Field<E, K>, m: nat, s: C.Remainder<E>,
                                                           t: C.Remainder<E>, v: seq<E>)
    requires Lawful(f) && Root(f, m)
    ensures Difference(f, m, C.Run(f.code, s, v), C.Run(f.code, t, v)) == Power(f, m, |v|, Difference(f, m, s, t))
    decreases |v|
  {
    if v != [] {
      SameDifference(f, m, s, t, v[0]);
      RunDifference(f, m, C.Step(f.code, s, v[0]), C.Step(f.code, t, v[0]), v[1..]);
      PowerNext(f, m, |v[1..]|, Difference(f, m, s, t));
    }
  }

  // ----- Three changes -----

  lemma RunFirst<E>(k: C.Code<E>, s: C.Remainder<E>, v: E, u: seq<E>)
    ensures C.Run(k, s, [v] + u) == C.Run(k, C.Step(k, s, v), u)
  {
    assert ([v] + u)[1..] == u;
  }

  lemma PowerAdds<E(!new), K(!new)>(f: Field<E, K>, m: nat, n: nat, y: K, z: K)
    requires Lawful(f)
    ensures Power(f, m, n, Add(f, R.Iter(f.ring, m, y), z)) == Add(f, Power(f, m, n + 1, y), Power(f, m, n, z))
  {
    R.IterPlus(f.ring, m * n, R.Iter(f.ring, m, y), z);
    PowerNext(f, m, n, y);
  }

  /** One changed symbol and what follows it up to the next. */
  lemma AfterChange<E(!new), K(!new)>(f: Field<E, K>, m: nat, s: C.Remainder<E>, t: C.Remainder<E>, v: E, w: E,
                                      u: seq<E>)
    requires Lawful(f) && Root(f, m)
    ensures Difference(f, m, C.Run(f.code, s, [v] + u), C.Run(f.code, t, [w] + u)) ==
            Add(f, Power(f, m, |u| + 1, Difference(f, m, s, t)), Power(f, m, |u|, Change(f, v, w)))
  {
    RunFirst(f.code, s, v, u);
    RunFirst(f.code, t, w, u);
    StepDifference(f, m, s, t, v, w);
    RunDifference(f, m, C.Step(f.code, s, v), C.Step(f.code, t, w), u);
    PowerAdds(f, m, |u|, Difference(f, m, s, t), Change(f, v, w));
  }

  lemma PowerPower<E, K>(f: Field<E, K>, m: nat, i: nat, j: nat, z: K)
    ensures Power(f, m, i, Power(f, m, j, z)) == Power(f, m, i + j, z)
  {
    R.IterIter(f.ring, m * i, m * j, z);
    assert m * (i + j) == m * i + m * j;
  }

  lemma FirstChange<E(!new), K(!new)>(f: Field<E, K>, m: nat, s: C.Remainder<E>, v: E, w: E, u: seq<E>)
    requires Lawful(f) && Root(f, m)
    ensures Difference(f, m, C.Run(f.code, s, [v] + u), C.Run(f.code, s, [w] + u)) == Power(f, m, |u|, Change(f, v, w))
  {
    AfterChange(f, m, s, s, v, w, u);
    var z, p := At(f, m, s), Power(f, m, |u|, Change(f, v, w));
    assert R.Law(f.ring, z, z, z) && R.Law(f.ring, f.ring.zero, p, p) && R.Law(f.ring, p, p, p);
    R.IterZero(f.ring, m * (|u| + 1));
  }

  lemma IterPower<E, K>(f: Field<E, K>, m: nat, n: nat, z: K)
    ensures R.Iter(f.ring, m, Power(f, m, n, z)) == Power(f, m, n + 1, z)
  {
    R.IterIter(f.ring, m, m * n, z);
  }

  /** What is left of a first change behind i symbols and of a second behind j, one symbol on. */
  lemma TwoTerms<E(!new), K(!new)>(f: Field<E, K>, m: nat, i: nat, j: nat, y: K, z: K)
    requires Lawful(f)
    ensures R.Iter(f.ring, m, Add(f, Power(f, m, j + 1, Power(f, m, i, y)), Power(f, m, j, z))) ==
            Add(f, Power(f, m, i + j + 2, y), Power(f, m, j + 1, z))
  {
    PowerPower(f, m, j + 1, i, y);
    var p, q := Power(f, m, j + 1 + i, y), Power(f, m, j, z);
    R.IterPlus(f.ring, m, p, q);
    IterPower(f, m, j + 1 + i, y);
    IterPower(f, m, j, z);
  }

  /** The remainder after symbols a, b and c with u and x between them. */
  function Three<E>(k: C.Code<E>, s: C.Remainder<E>, a: E, u: seq<E>, b: E, x: seq<E>, c: E): C.Remainder<E> {
    C.Step(k, C.Run(k, C.Run(k, s, [a] + u), [b] + x), c)
  }

  /** The sum of three changes, i, j and no symbols back, at the m-th power. */
  function Syndrome<E, K>(f: Field<E, K>, m: nat, i: nat, j: nat, x: K, y: K, z: K): K {
    Add(f, Add(f, Power(f, m, i, x), Power(f, m, j, y)), z)
  }

  /** The syndrome of three changes. */
  lemma ThreeDifference<E(!new), K(!new)>(f: Field<E, K>, m: nat, s: C.Remainder<E>, a: E, a': E, u: seq<E>, b: E,
                                          b': E, x: seq<E>, c: E, c': E)
    requires Lawful(f) && Root(f, m)
    ensures Difference(f, m, Three(f.code, s, a, u, b, x, c), Three(f.code, s, a', u, b', x, c')) ==
            Syndrome(f, m, |u| + |x| + 2, |x| + 1, Change(f, a, a'), Change(f, b, b'), Change(f, c, c'))
  {
    var k := f.code;
    var s1, t1 := C.Run(k, s, [a] + u), C.Run(k, s, [a'] + u);
    FirstChange(f, m, s, a, a', u);
    AfterChange(f, m, s1, t1, b, b', x);
    StepDifference(f, m, C.Run(k, s1, [b] + x), C.Run(k, t1, [b'] + x), c, c');
    TwoTerms(f, m, |u|, |x|, Change(f, a, a'), Change(f, b, b'));
  }

  lemma NextPower<E, K>(f: Field<E, K>, m: nat, i: nat, z: K)
    ensures R.Iter(f.ring, i, Power(f, m, i, z)) == Power(f, m + 1, i, z)
    ensures R.Iter(f.ring, i + i, Power(f, m, i, z)) == Power(f, m + 2, i, z)
  {
    R.IterIter(f.ring, i, m * i, z);
    assert (m + 1) * i == i + m * i;
    R.IterIter(f.ring, i + i, m * i, z);
    assert (m + 2) * i == (i + i) + m * i;
  }

  lemma SameSymbol<E(!new), K(!new)>(f: Field<E, K>, v: E, w: E)
    requires Lawful(f) && Change(f, v, w) == f.ring.zero
    ensures v == w
  {
    R.SumZero(f.ring, f.embed(v), f.embed(w));
    assert Embeds(f, v, w);
  }

  lemma PowerInjective<E(!new), K(!new)>(f: Field<E, K>, m: nat, n: nat, z: K)
    requires Lawful(f) && Power(f, m, n, z) == f.ring.zero
    ensures z == f.ring.zero
  {
    R.IterInjective(f.ring, m * n, z);
  }

  lemma NoChange<E(!new), K(!new)>(f: Field<E, K>, m: nat, i: nat, j: nat, x: K, y: K, z: K)
    requires Lawful(f) && 0 < j < i < R.ORDER && Syndrome(f, m, i, j, x, y, z) == f.ring.zero
    requires Syndrome(f, m + 1, i, j, x, y, z) == Syndrome(f, m + 2, i, j, x, y, z) == f.ring.zero
    ensures x == y == z == f.ring.zero
  {
    NextPower(f, m, i, x);
    NextPower(f, m, j, y);
    NoneLeft(f, i, j, Power(f, m, i, x), Power(f, m, j, y), z);
    PowerInjective(f, m, i, x);
    PowerInjective(f, m, j, y);
  }

  /** Three consecutive powers that are roots: three changes that leave the remainder alone are none. */
  lemma ThreeFound<E(!new), K(!new)>(f: Field<E, K>, m: nat, s: C.Remainder<E>, a: E, a': E, u: seq<E>, b: E, b': E,
                                     x: seq<E>, c: E, c': E)
    requires Lawful(f) && Root(f, m) && Root(f, m + 1) && Root(f, m + 2) && |u| + |x| + 2 < R.ORDER
    requires Three(f.code, s, a, u, b, x, c) == Three(f.code, s, a', u, b', x, c')
    ensures a == a' && b == b' && c == c'
  {
    Vanishes(f, m, s, a, a', u, b, b', x, c, c');
    Vanishes(f, m + 1, s, a, a', u, b, b', x, c, c');
    Vanishes(f, m + 2, s, a, a', u, b, b', x, c, c');
    NoChange(f, m, |u| + |x| + 2, |x| + 1, Change(f, a, a'), Change(f, b, b'), Change(f, c, c'));
    SameSymbol(f, a, a');
    SameSymbol(f, b, b');
    SameSymbol(f, c, c');
  }

  lemma NoneLeft<E(!new), K(!new)>(f: Field<E, K>, i: nat, j: nat, x: K, y: K, z: K)
    requires Lawful(f) && 0 < j < i < R.ORDER && Add(f, Add(f, x, y), z) == f.ring.zero
    requires Add(f, Add(f, R.Iter(f.ring, i, x), R.Iter(f.ring, j, y)), z) == f.ring.zero
    requires Add(f, Add(f, R.Iter(f.ring, i + i, x), R.Iter(f.ring, j + j, y)), z) == f.ring.zero
    ensures x == y == z == f.ring.zero
  {
    R.ThreeUnknowns(f.ring, i, j, 0, x, y, z);
  }

  lemma Vanishes<E(!new), K(!new)>(f: Field<E, K>, m: nat, s: C.Remainder<E>, a: E, a': E, u: seq<E>, b: E, b': E,
                                   x: seq<E>, c: E, c': E)
    requires Lawful(f) && Root(f, m)
    requires Three(f.code, s, a, u, b, x, c) == Three(f.code, s, a', u, b', x, c')
    ensures Syndrome(f, m, |u| + |x| + 2, |x| + 1, Change(f, a, a'), Change(f, b, b'), Change(f, c, c')) == f.ring.zero
  {
    ThreeDifference(f, m, s, a, a', u, b, b', x, c, c');
    var v := At(f, m, Three(f.code, s, a, u, b, x, c));
    assert R.Law(f.ring, v, v, v);
  }

  /** The remainder of symbols that are looked at in three places. */
  lemma RunThree<E>(k: C.Code<E>, s: C.Remainder<E>, v: seq<E>, p: nat, q: nat, r: nat)
    requires p < q < r < |v|
    ensures C.Run(k, s, v) ==
            C.Run(k, Three(k, C.Run(k, s, v[..p]), v[p], v[p + 1..q], v[q], v[q + 1..r], v[r]), v[r + 1..])
  {
    var s0 := C.Run(k, s, v[..p]);
    var s1 := C.Run(k, s0, [v[p]] + v[p + 1..q]);
    assert v == v[..p] + v[p..];
    C.RunConcat(k, s, v[..p], v[p..]);
    assert v[p..] == ([v[p]] + v[p + 1..q]) + v[q..];
    C.RunConcat(k, s0, [v[p]] + v[p + 1..q], v[q..]);
    assert v[q..] == ([v[q]] + v[q + 1..r]) + v[r..];
    C.RunConcat(k, s1, [v[q]] + v[q + 1..r], v[r..]);
    assert v[r..] == [v[r]] + v[r + 1..];
    RunFirst(k, C.Run(k, s1, [v[q]] + v[q + 1..r]), v[r], v[r + 1..]);
  }

  /** Only the symbols at p, q and r may differ. */
  ghost predicate SameBut<E>(v: seq<E>, w: seq<E>, p: nat, q: nat, r: nat) {
    |v| == |w| && forall i :: 0 <= i < |v| && i != p && i != q && i != r ==> v[i] == w[i]
  }

  /** Two inputs that differ, but in at most three symbols within the order of the root, have different remainders. */
  lemma ThreeDetected<E(!new), K(!new)>(f: Field<E, K>, m: nat, s: C.Remainder<E>, v: seq<E>, w: seq<E>, p: nat,
                                        q: nat, r: nat)
    requires Lawful(f) && Root(f, m) && Root(f, m + 1) && Root(f, m + 2)
    requires p < q < r < |v| && r - p < R.ORDER && SameBut(v, w, p, q, r) && v != w
    ensures C.Run(f.code, s, v) != C.Run(f.code, s, w)
  {
    if C.Run(f.code, s, v) == C.Run(f.code, s, w) {
      var k := f.code;
      var s0 := C.Run(k, s, v[..p]);
      var u, x := v[p + 1..q], v[q + 1..r];
      SameParts(v, w, p, q, r);
      RunThree(k, s, v, p, q, r);
      RunThree(k, s, w, p, q, r);
      C.RunInjective(k, Three(k, s0, v[p], u, v[q], x, v[r]), Three(k, s0, w[p], u, w[q], x, w[r]), v[r + 1..]);
      ThreeFound(f, m, s0, v[p], w[p], u, v[q], w[q], x, v[r], w[r]);
    }
  }

  lemma SameParts<E>(v: seq<E>, w: seq<E>, p: nat, q: nat, r: nat)
    requires p < q < r < |v| && SameBut(v, w, p, q, r)
    ensures v[..p] == w[..p] && v[p + 1..q] == w[p + 1..q] && v[q + 1..r] == w[q + 1..r] && v[r + 1..] == w[r + 1..]
    ensures v[p] == w[p] && v[q] == w[q] && v[r] == w[r] ==> v == w
  {
  }
}
