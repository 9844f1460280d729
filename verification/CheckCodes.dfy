/**
 * Cyclic codes with six check symbols over a field where adding twice cancels: what the checksums of Bech32 and
 * Bech32m (src/bech32.cpp) have from their shape alone, whatever the symbols and the generator are.
 */
module CheckCodes {

  /** A polynomial of degree below six, highest coefficient first. */
  datatype Remainder<E> = Remainder(a: E, b: E, c: E, d: E, e: E, f: E)

  /** How symbols are added, and the products of a symbol with the generator less its leading term. */
  datatype Code<!E> = Code(plus: (E, E) -> E, zero: E, times: E -> Remainder<E>)

  ghost predicate Law<E(!new)>(k: Code<E>, x: E, y: E, z: E) {
    && k.plus(k.plus(x, y), z) == k.plus(k.plus(x, z), y)
    && k.plus(x, y) == k.plus(y, x)
    && k.plus(x, k.zero) == x
    && k.plus(x, x) == k.zero
    && (k.times(x).f == k.times(y).f ==> x == y)
  }

  /** Symbols add as in a field of characteristic two, and the constant coefficient can be divided by. */
  ghost predicate Lawful<E(!new)>(k: Code<E>) {
    forall x, y, z {:trigger Law(k, x, y, z)} :: Law(k, x, y, z)
  }

  function Plus<E>(k: Code<E>, s: Remainder<E>, t: Remainder<E>): Remainder<E> {
    Remainder(k.plus(s.a, t.a), k.plus(s.b, t.b), k.plus(s.c, t.c),
              k.plus(s.d, t.d), k.plus(s.e, t.e), k.plus(s.f, t.f))
  }

  /** Multiply by x and add v, leaving out the top coefficient. */
  function Shift<E>(s: Remainder<E>, v: E): Remainder<E> {
    Remainder(s.b, s.c, s.d, s.e, s.f, v)
  }

  /** Multiply by x, add v, and take the remainder modulo the generator. */
  function Step<E>(k: Code<E>, s: Remainder<E>, v: E): Remainder<E> {
    Plus(k, Shift(s, v), k.times(s.a))
  }

  /** The remainder after all symbols. */
  function Run<E>(k: Code<E>, s: Remainder<E>, vs: seq<E>): Remainder<E>
    decreases |vs|
  {
    if vs == [] then s else Run(k, Step(k, s, vs[0]), vs[1..])
  }

  lemma Cancel<E(!new)>(k: Code<E>, x: E, y: E, z: E)
    requires Lawful(k) && k.plus(x, z) == k.plus(y, z)
    ensures x == y
  {
    AddTwice(k, x, z);
    AddTwice(k, y, z);
  }

  lemma AddTwice<E(!new)>(k: Code<E>, x: E, z: E)
    requires Lawful(k)
    ensures k.plus(k.plus(x, z), z) == x
  {
    assert Law(k, x, z, z) && Law(k, z, x, z) && Law(k, k.zero, x, x);
  }

  lemma StepInjective<E(!new)>(k: Code<E>, s: Remainder<E>, t: Remainder<E>, v: E)
    requires Lawful(k) && Step(k, s, v) == Step(k, t, v)
    ensures s == t
  {
    var p, q := k.times(s.a), k.times(t.a);
    assert Law(k, v, p.f, v) && Law(k, v, q.f, v);
    Cancel(k, p.f, q.f, v);
    assert Law(k, s.a, t.a, v);
    Cancel(k, s.b, t.b, p.a);
    Cancel(k, s.c, t.c, p.b);
    Cancel(k, s.d, t.d, p.c);
    Cancel(k, s.e, t.e, p.d);
    Cancel(k, s.f, t.f, p.e);
  }

  lemma {:induction false} RunInjective<E(!new)>(k: Code<E>, s: Remainder<E>, t: Remainder<E>, vs: seq<E>)
    requires Lawful(k) && Run(k, s, vs) == Run(k, t, vs)
    ensures s == t
    decreases |vs|
  {
    if vs != [] {
      RunInjective(k, Step(k, s, vs[0]), Step(k, t, vs[0]), vs[1..]);
      StepInjective(k, s, t, vs[0]);
    }
  }

  lemma {:induction false} RunConcat<E>(k: Code<E>, s: Remainder<E>, us: seq<E>, vs: seq<E>)
    ensures Run(k, s, us + vs) == Run(k, Run(k, s, us), vs)
    decreases |us|
  {
    if us == [] {
      assert us + vs == vs;
    } else {
      RunConcat(k, Step(k, s, us[0]), us[1..], vs);
      assert (us + vs)[1..] == us[1..] + vs;
    }
  }

  // ----- Six symbols in a row fill the remainder -----

  function Zero<E>(k: Code<E>): Remainder<E> {
    Remainder(k.zero, k.zero, k.zero, k.zero, k.zero, k.zero)
  }

  lemma StepShifts<E(!new)>(k: Code<E>, s: Remainder<E>, d: Remainder<E>, v: E, x: E)
    requires Lawful(k) && d.a == k.zero
    ensures Step(k, Plus(k, s, d), k.plus(v, x)) == Plus(k, Step(k, s, v), Shift(d, x))
  {
    var p := k.times(s.a);
    assert Law(k, s.a, s.a, s.a);
    assert Law(k, s.b, d.b, p.a);
    assert Law(k, s.c, d.c, p.b);
    assert Law(k, s.d, d.d, p.c);
    assert Law(k, s.e, d.e, p.d);
    assert Law(k, s.f, d.f, p.e);
    assert Law(k, v, x, p.f);
  }

  /** The six symbols of w as a remainder. */
  function Of<E>(w: seq<E>): Remainder<E>
    requires |w| == 6
  {
    Remainder(w[0], w[1], w[2], w[3], w[4], w[5])
  }

  function Shifted<E>(k: Code<E>, w: seq<E>, n: nat): Remainder<E>
    requires n <= |w|
  {
    if n == 0 then Zero(k) else Shift(Shifted(k, w, n - 1), w[n - 1])
  }

  /** Symbolwise sums. */
  function Sum<E>(k: Code<E>, v: seq<E>, w: seq<E>): (r: seq<E>)
    requires |v| == |w|
    ensures |r| == |v| && forall i :: 0 <= i < |v| ==> r[i] == k.plus(v[i], w[i])
  {
    seq(|v|, i requires 0 <= i < |v| => k.plus(v[i], w[i]))
  }

  lemma RunNext<E>(k: Code<E>, s: Remainder<E>, v: seq<E>, n: nat)
    requires 0 < n <= |v|
    ensures Run(k, s, v[..n]) == Step(k, Run(k, s, v[..n - 1]), v[n - 1])
  {
    assert v[..n] == v[..n - 1] + [v[n - 1]];
    RunConcat(k, s, v[..n - 1], [v[n - 1]]);
  }

  lemma {:induction false} WindowShifts<E(!new)>(k: Code<E>, s: Remainder<E>, v: seq<E>, w: seq<E>, n: nat)
    requires Lawful(k) && |v| == |w| == 6 && n <= 6
    ensures Run(k, s, Sum(k, v, w)[..n]) == Plus(k, Run(k, s, v[..n]), Shifted(k, w, n))
  {
    if n == 0 {
      assert Law(k, s.a, s.b, s.c) && Law(k, s.b, s.b, s.c) && Law(k, s.c, s.b, s.c);
      assert Law(k, s.d, s.b, s.c) && Law(k, s.e, s.b, s.c) && Law(k, s.f, s.b, s.c);
    } else {
      WindowShifts(k, s, v, w, n - 1);
      ShiftedIs(k, w);
      RunNext(k, s, Sum(k, v, w), n);
      RunNext(k, s, v, n);
      StepShifts(k, Run(k, s, v[..n - 1]), Shifted(k, w, n - 1), v[n - 1], w[n - 1]);
    }
  }

  lemma ShiftedIs<E>(k: Code<E>, w: seq<E>)
    requires |w| == 6
    ensures forall n :: 0 <= n <= 5 ==> Shifted(k, w, n).a == k.zero
    ensures Shifted(k, w, 6) == Of(w)
  {
    var z := k.zero;
    assert Shifted(k, w, 1) == Remainder(z, z, z, z, z, w[0]);
    assert Shifted(k, w, 2) == Remainder(z, z, z, z, w[0], w[1]);
    assert Shifted(k, w, 3) == Remainder(z, z, z, w[0], w[1], w[2]);
    assert Shifted(k, w, 4) == Remainder(z, z, w[0], w[1], w[2], w[3]);
    assert Shifted(k, w, 5) == Remainder(z, w[0], w[1], w[2], w[3], w[4]);
  }

  /** Changing six symbols in a row adds the changes to the remainder. */
  lemma WindowAdds<E(!new)>(k: Code<E>, s: Remainder<E>, v: seq<E>, w: seq<E>)
    requires Lawful(k) && |v| == |w| == 6
    ensures Run(k, s, Sum(k, v, w)) == Plus(k, Run(k, s, v), Of(w))
  {
    WindowShifts(k, s, v, w, 6);
    assert Sum(k, v, w)[..6] == Sum(k, v, w) && v[..6] == v;
    ShiftedIs(k, w);
  }

  lemma PlusZero<E(!new)>(k: Code<E>, s: Remainder<E>, t: Remainder<E>)
    requires Lawful(k)
    ensures Plus(k, s, t) == s <==> t == Zero(k)
  {
    Neutral(k, s.a, t.a);
    Neutral(k, s.b, t.b);
    Neutral(k, s.c, t.c);
    Neutral(k, s.d, t.d);
    Neutral(k, s.e, t.e);
    Neutral(k, s.f, t.f);
  }

  lemma Neutral<E(!new)>(k: Code<E>, x: E, y: E)
    requires Lawful(k)
    ensures k.plus(x, y) == x <==> y == k.zero
  {
    assert Law(k, x, y, y) && Law(k, y, x, x) && Law(k, k.zero, x, x);
    if k.plus(x, y) == x { Cancel(k, y, k.zero, x); }
  }

  lemma Difference<E(!new)>(k: Code<E>, x: E, y: E, z: E)
    requires Lawful(k)
    ensures k.plus(x, y) == z <==> y == k.plus(x, z)
  {
    assert Law(k, x, y, y) && Law(k, x, z, z) && Law(k, y, x, x) && Law(k, z, x, x);
    AddTwice(k, y, x);
    AddTwice(k, z, x);
  }

  /** Two inputs that differ, but only within six symbols in a row, have different remainders. */
  lemma BurstDetected<E(!new)>(k: Code<E>, s: Remainder<E>, v: seq<E>, w: seq<E>, i: nat)
    requires Lawful(k) && |v| == |w| && i + 6 <= |v|
    requires v[..i] == w[..i] && v[i + 6..] == w[i + 6..] && v != w
    ensures Run(k, s, v) != Run(k, s, w)
  {
    var x, y := v[i..i + 6], w[i..i + 6];
    var p := Run(k, s, v[..i]);
    RunSplit(k, s, v, i);
    RunSplit(k, s, w, i);
    assert v == v[..i] + x + v[i + 6..] && w == w[..i] + y + w[i + 6..];
    if Run(k, s, v) == Run(k, s, w) {
      RunInjective(k, Run(k, p, x), Run(k, p, y), v[i + 6..]);
      WindowInjective(k, p, x, y);
    }
  }

  lemma RunSplit<E>(k: Code<E>, s: Remainder<E>, v: seq<E>, i: nat)
    requires i + 6 <= |v|
    ensures Run(k, s, v) == Run(k, Run(k, Run(k, s, v[..i]), v[i..i + 6]), v[i + 6..])
  {
    assert v == v[..i] + (v[i..i + 6] + v[i + 6..]);
    RunConcat(k, s, v[..i], v[i..i + 6] + v[i + 6..]);
    RunConcat(k, Run(k, s, v[..i]), v[i..i + 6], v[i + 6..]);
  }

  lemma WindowInjective<E(!new)>(k: Code<E>, s: Remainder<E>, x: seq<E>, y: seq<E>)
    requires Lawful(k) && |x| == |y| == 6 && Run(k, s, x) == Run(k, s, y)
    ensures x == y
  {
    var w := Sum(k, x, y);
    forall j | 0 <= j < 6 ensures Sum(k, x, w)[j] == y[j] && (w[j] == k.zero ==> x[j] == y[j]) {
      Difference(k, x[j], w[j], y[j]);
      Neutral(k, x[j], w[j]);
    }
    assert Sum(k, x, w) == y;
    WindowAdds(k, s, x, w);
    PlusZero(k, Run(k, s, x), Of(w));
    assert w[0] == w[1] == w[2] == w[3] == w[4] == w[5] == k.zero;
  }

  // ----- Check symbols -----

  function Zeros<E>(k: Code<E>): seq<E> {
    [k.zero, k.zero, k.zero, k.zero, k.zero, k.zero]
  }

  function Symbols<E>(s: Remainder<E>): (r: seq<E>)
    ensures |r| == 6 && Of(r) == s
  {
    [s.a, s.b, s.c, s.d, s.e, s.f]
  }

  /** The six symbols that bring the remainder to the target. */
  function CheckSymbols<E>(k: Code<E>, s: Remainder<E>, target: Remainder<E>): (r: seq<E>)
    ensures |r| == 6
  {
    Symbols(Plus(k, Run(k, s, Zeros(k)), target))
  }

  /** Exactly the check symbols do so. */
  lemma CheckExactly<E(!new)>(k: Code<E>, s: Remainder<E>, target: Remainder<E>, w: seq<E>)
    requires Lawful(k) && |w| == 6
    ensures Run(k, s, w) == target <==> w == CheckSymbols(k, s, target)
  {
    var z := Zeros(k);
    forall j | 0 <= j < 6 ensures Sum(k, z, w)[j] == w[j] {
      assert Law(k, k.zero, w[j], w[j]) && Law(k, w[j], w[j], w[j]);
    }
    assert Sum(k, z, w) == w;
    WindowAdds(k, s, z, w);
    PlusDifference(k, Run(k, s, z), Of(w), target);
    assert w == Symbols(Of(w));
  }

  lemma PlusDifference<E(!new)>(k: Code<E>, r: Remainder<E>, s: Remainder<E>, t: Remainder<E>)
    requires Lawful(k)
    ensures Plus(k, r, s) == t <==> s == Plus(k, r, t)
  {
    Difference(k, r.a, s.a, t.a);
    Difference(k, r.b, s.b, t.b);
    Difference(k, r.c, s.c, t.c);
    Difference(k, r.d, s.d, t.d);
    Difference(k, r.e, s.e, t.e);
    Difference(k, r.f, s.f, t.f);
  }
}
