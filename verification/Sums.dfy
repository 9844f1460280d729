/** Sums over sets of indices. */
module Sums {
  import opened FeeFracs

  /** The sum of w[i] over the indices i in s. */
  ghost function Sum(w: seq<real>, s: set<nat>): real {
    if w == [] then 0.0
    else
      var n := |w| - 1;
      Sum(w[..n], s) + if n in s then w[n] else 0.0
  }

  /** What index i adds to Sum(w, s). */
  ghost function Term(w: seq<real>, s: set<nat>, i: nat): real
    requires i < |w|
  {
    if i in s then w[i] else 0.0
  }

  lemma {:induction false} SumMonotone(w: seq<real>, s: set<nat>, v: seq<real>, t: set<nat>)
    requires |w| == |v|
    requires forall i :: 0 <= i < |w| ==> Term(w, s, i) <= Term(v, t, i)
    ensures Sum(w, s) <= Sum(v, t)
  {
    if w != [] {
      var n := |w| - 1;
      forall i | 0 <= i < n ensures Term(w[..n], s, i) <= Term(v[..n], t, i) {
        assert Term(w, s, i) <= Term(v, t, i);
      }
      SumMonotone(w[..n], s, v[..n], t);
      assert Term(w, s, n) <= Term(v, t, n);
    }
  }

  lemma SumSame(w: seq<real>, s: set<nat>, v: seq<real>, t: set<nat>)
    requires |w| == |v|
    requires forall i :: 0 <= i < |w| ==> Term(w, s, i) == Term(v, t, i)
    ensures Sum(w, s) == Sum(v, t)
  {
    SumMonotone(w, s, v, t);
    SumMonotone(v, t, w, s);
  }

  /** Inclusion and exclusion. */
  lemma {:induction false} SumUnion(w: seq<real>, s: set<nat>, t: set<nat>)
    ensures Sum(w, s + t) + Sum(w, s * t) == Sum(w, s) + Sum(w, t)
  {
    if w != [] {
      SumUnion(w[..|w| - 1], s, t);
    }
  }

  lemma SumDisjoint(w: seq<real>, s: set<nat>, t: set<nat>)
    requires s !! t
    ensures Sum(w, s + t) == Sum(w, s) + Sum(w, t)
  {
    SumUnion(w, s, t);
    assert s * t == {};
    SumEmpty(w);
  }

  lemma {:induction false} SumEmpty(w: seq<real>)
    ensures Sum(w, {}) == 0.0
  {
    if w != [] { SumEmpty(w[..|w| - 1]); }
  }

  lemma {:induction false} SumSingle(w: seq<real>, x: nat)
    requires x < |w|
    ensures Sum(w, {x}) == w[x]
  {
    var n := |w| - 1;
    if x == n {
      forall i | 0 <= i < n ensures Term(w[..n], {x}, i) == Term(w[..n], {}, i) {}
      SumSame(w[..n], {x}, w[..n], {});
      SumEmpty(w[..n]);
    } else {
      SumSingle(w[..n], x);
    }
  }

  lemma {:induction false} SumDifference(w: seq<real>, v: seq<real>, u: seq<real>, s: set<nat>)
    requires |w| == |v| == |u|
    requires forall i :: 0 <= i < |w| && i in s ==> w[i] - v[i] == u[i]
    ensures Sum(w, s) - Sum(v, s) == Sum(u, s)
  {
    if w != [] {
      var n := |w| - 1;
      SumDifference(w[..n], v[..n], u[..n], s);
    }
  }

  /** Replacing the term of a by those of b and c, worth at least as much. */
  lemma SumSplit(w: seq<real>, v: seq<real>, s: set<nat>, a: nat, b: nat, c: nat)
    requires |w| == |v| && a < |w| && b < |w| && c < |w| && b != c
    requires a in s && b !in s - {a} && c !in s - {a} && w[a] <= v[b] + v[c]
    requires forall x :: x in s && x < |w| && x != a ==> v[x] == w[x]
    ensures Sum(w, s) <= Sum(v, s - {a} + {b, c})
  {
    var rest := s - {a};
    assert s == rest + {a} && {b} + {c} == {b, c};
    SumSame(w, rest, v, rest);
    SumDisjoint(w, rest, {a});
    SumDisjoint(v, {b}, {c});
    SumDisjoint(v, rest, {b, c});
    SumSingle(w, a);
    SumSingle(v, b);
    SumSingle(v, c);
  }

  /** Moving the term of a to b. */
  lemma SumRelabel(w: seq<real>, v: seq<real>, s: set<nat>, a: nat, b: nat)
    requires |w| == |v| && a < |w| && b < |w|
    requires a in s && b !in s - {a} && v[b] == w[a]
    requires forall x :: x in s && x < |w| && x != a ==> v[x] == w[x]
    ensures Sum(v, s - {a} + {b}) == Sum(w, s)
  {
    var rest := s - {a};
    assert s == rest + {a};
    SumSame(w, rest, v, rest);
    SumDisjoint(w, rest, {a});
    SumDisjoint(v, rest, {b});
    SumSingle(w, a);
    SumSingle(v, b);
  }

  /** Replacing the terms of a and b by one term at c that is worth both. */
  lemma SumMerge(w: seq<real>, v: seq<real>, s: set<nat>, a: nat, b: nat, c: nat)
    requires |w| == |v| && a < |w| && b < |w| && a != b && (c == a || c == b)
    requires a in s && b in s && v[c] == w[a] + w[b]
    requires forall x :: x in s && x < |w| && x != a && x != b ==> v[x] == w[x]
    ensures Sum(v, s - {a, b} + {c}) == Sum(w, s)
  {
    var rest := s - {a, b};
    assert s == rest + {a, b} && {a} + {b} == {a, b};
    SumSame(w, rest, v, rest);
    SumDisjoint(w, rest, {a, b});
    SumDisjoint(w, {a}, {b});
    SumDisjoint(v, rest, {c});
    SumSingle(w, a);
    SumSingle(w, b);
    SumSingle(v, c);
  }

  /** DepGraph::FeeRate(elems): the combined fee and size of a set of transactions. */
  ghost function FeeRate(fr: seq<FeeFrac>, s: set<nat>): FeeFrac {
    if fr == [] then EMPTY
    else
      var n := |fr| - 1;
      if n in s then Plus(FeeRate(fr[..n], s), fr[n]) else FeeRate(fr[..n], s)
  }

  lemma {:induction false} FeeRateUnion(fr: seq<FeeFrac>, s: set<nat>, t: set<nat>)
    requires s !! t
    ensures FeeRate(fr, s + t) == Plus(FeeRate(fr, s), FeeRate(fr, t))
  {
    if fr != [] { FeeRateUnion(fr[..|fr| - 1], s, t); }
  }

  lemma {:induction false} FeeRateEmpty(fr: seq<FeeFrac>)
    ensures FeeRate(fr, {}) == EMPTY
  {
    if fr != [] { FeeRateEmpty(fr[..|fr| - 1]); }
  }

  lemma {:induction false} FeeRateSingle(fr: seq<FeeFrac>, x: nat)
    requires x < |fr|
    ensures FeeRate(fr, {x}) == fr[x]
  {
    var n := |fr| - 1;
    if x == n {
      FeeRateOutside(fr[..n], {x});
    } else {
      FeeRateSingle(fr[..n], x);
    }
  }

  lemma {:induction false} FeeRateOutside(fr: seq<FeeFrac>, s: set<nat>)
    requires forall i :: i in s ==> i >= |fr|
    ensures FeeRate(fr, s) == EMPTY
  {
    if fr != [] { FeeRateOutside(fr[..|fr| - 1], s); }
  }

  /** Sizes of transactions are positive. */
  ghost predicate PositiveSizes(fr: seq<FeeFrac>, s: set<nat>) {
    forall i :: i in s ==> i < |fr| && fr[i].size > 0
  }

  lemma {:induction false} SizePositive(fr: seq<FeeFrac>, s: set<nat>)
    requires forall i :: i in s && i < |fr| ==> fr[i].size > 0
    ensures FeeRate(fr, s).size >= 0
    ensures (exists i :: i in s && i < |fr|) ==> FeeRate(fr, s).size > 0
  {
    if fr != [] {
      var n := |fr| - 1;
      SizePositive(fr[..n], s);
    }
  }

  lemma {:induction false} SizeMonotone(fr: seq<FeeFrac>, s: set<nat>, t: set<nat>)
    requires s <= t && forall i :: i in t && i < |fr| ==> fr[i].size > 0
    ensures FeeRate(fr, s).size <= FeeRate(fr, t).size
  {
    if fr != [] { SizeMonotone(fr[..|fr| - 1], s, t); }
  }

  /** The excess of every transaction over the feerate r. */
  ghost function Excesses(fr: seq<FeeFrac>, r: real): (w: seq<real>)
    ensures |w| == |fr| && forall i :: 0 <= i < |w| ==> w[i] == Excess(fr[i], r)
  {
    seq(|fr|, i requires 0 <= i < |fr| => Excess(fr[i], r))
  }

  lemma {:induction false} ExcessIsSum(fr: seq<FeeFrac>, s: set<nat>, r: real)
    ensures Excess(FeeRate(fr, s), r) == Sum(Excesses(fr, r), s)
  {
    if fr != [] {
      var n := |fr| - 1;
      ExcessIsSum(fr[..n], s, r);
      assert Excesses(fr, r)[..n] == Excesses(fr[..n], r);
      if n in s { ExcessPlus(FeeRate(fr[..n], s), fr[n], r); }
    }
  }
}
