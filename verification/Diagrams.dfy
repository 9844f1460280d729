/** Feerate diagrams: the cumulative fee of a list of chunks as a function of cumulative size. */
module Diagrams {
  import opened FeeFracs

  ghost predicate Sized(cs: seq<FeeFrac>) {
    forall i :: 0 <= i < |cs| ==> cs[i].size > 0
  }

  ghost predicate NonIncreasing(cs: seq<FeeFrac>)
    requires Sized(cs)
  {
    forall i, j :: 0 <= i < j < |cs| ==> Rate(cs[i]) >= Rate(cs[j])
  }

  function Total(cs: seq<FeeFrac>): FeeFrac {
    if cs == [] then EMPTY else Plus(cs[0], Total(cs[1..]))
  }

  /** The diagram starts at (0, 0), rises or falls with each chunk's feerate over that chunk's size,
      and extends to the right with a horizontal line. */
  ghost function Height(cs: seq<FeeFrac>, x: real): real
    requires Sized(cs)
  {
    if cs == [] then 0.0
    else if x <= cs[0].size as real then Rate(cs[0]) * x
    else cs[0].fee as real + Height(cs[1..], x - cs[0].size as real)
  }

  /** Diagram a is nowhere below diagram b. */
  ghost predicate AtLeastAsGood(a: seq<FeeFrac>, b: seq<FeeFrac>)
    requires Sized(a) && Sized(b)
  {
    forall x: real :: x >= 0.0 ==> Height(a, x) >= Height(b, x)
  }

  ghost function Pos(x: real): real {
    if x > 0.0 then x else 0.0
  }

  /** What the chunks that beat the feerate r earn above it: the greatest gap between the diagram and
      the line of slope r through the origin. */
  ghost function Support(cs: seq<FeeFrac>, r: real): real {
    if cs == [] then 0.0 else Pos(Excess(cs[0], r)) + Support(cs[1..], r)
  }

  lemma {:induction false} SupportNonNegative(cs: seq<FeeFrac>, r: real)
    ensures Support(cs, r) >= 0.0
  {
    if cs != [] { SupportNonNegative(cs[1..], r); }
  }

  lemma {:induction false} SupportSnoc(cs: seq<FeeFrac>, c: FeeFrac, r: real)
    ensures Support(cs + [c], r) == Support(cs, r) + Pos(Excess(c, r))
  {
    if cs == [] {
      assert [c][1..] == [];
    } else {
      SupportSnoc(cs[1..], c, r);
      assert (cs + [c])[1..] == cs[1..] + [c];
    }
  }

  lemma {:induction false} SupportZero(cs: seq<FeeFrac>, r: real)
    requires Sized(cs)
    requires forall i :: 0 <= i < |cs| ==> Rate(cs[i]) <= r
    ensures Support(cs, r) == 0.0
  {
    if cs != [] {
      ExcessSign(cs[0], r);
      forall i | 0 <= i < |cs[1..]| ensures Rate(cs[1..][i]) <= r { assert cs[1..][i] == cs[i + 1]; }
      SupportZero(cs[1..], r);
    }
  }

  lemma {:induction false} TotalNonNegative(cs: seq<FeeFrac>)
    requires Sized(cs)
    ensures Total(cs).size >= 0
  {
    if cs != [] { TotalNonNegative(cs[1..]); }
  }

  /** A part of the first chunk, at its feerate, has at most the chunk's positive excess. */
  lemma PartOfChunk(c: FeeFrac, x: real, r: real)
    requires c.size > 0 && 0.0 <= x <= c.size as real
    ensures Rate(c) * x - r * x <= Pos(Excess(c, r))
  {
    RateTimesSize(c);
    var d := Rate(c) - r;
    assert Excess(c, r) == d * (c.size as real);
    assert Rate(c) * x - r * x == d * x;
    if d > 0.0 {
      assert d * x <= d * (c.size as real);
    } else {
      assert d * x <= 0.0;
    }
  }

  /** No point of the diagram is above any supporting line. */
  lemma {:induction false} HeightBelowSupport(cs: seq<FeeFrac>, x: real, r: real)
    requires Sized(cs) && 0.0 <= x <= Total(cs).size as real
    ensures Height(cs, x) <= Support(cs, r) + r * x
  {
    if cs == [] {
    } else if x <= cs[0].size as real {
      PartOfChunk(cs[0], x, r);
      SupportNonNegative(cs[1..], r);
    } else {
      var s := cs[0].size as real;
      HeightBelowSupport(cs[1..], x - s, r);
      assert r * (x - s) == r * x - r * s;
    }
  }

  /** At x, the diagram touches the supporting line of slope r. */
  ghost predicate Touches(cs: seq<FeeFrac>, x: real, r: real)
    requires Sized(cs)
  {
    Height(cs, x) == Support(cs, r) + r * x
  }

  /** Past a first chunk that beats r, a supporting line of the rest is one of the whole. */
  lemma SupportStep(cs: seq<FeeFrac>, x: real, r: real)
    requires Sized(cs) && cs != [] && r <= Rate(cs[0]) && x > cs[0].size as real
    requires Touches(cs[1..], x - cs[0].size as real, r)
    ensures Touches(cs, x, r)
  {
    ExcessSign(cs[0], r);
    var s := cs[0].size as real;
    assert r * (x - s) == r * x - r * s;
  }

  lemma TailOfSorted(cs: seq<FeeFrac>)
    requires Sized(cs) && NonIncreasing(cs) && cs != []
    ensures Sized(cs[1..]) && NonIncreasing(cs[1..])
    ensures cs[1..] != [] ==> Rate(cs[1..][0]) <= Rate(cs[0])
  {
  }

  lemma FrontOfSorted(cs: seq<FeeFrac>, n: nat)
    requires Sized(cs) && NonIncreasing(cs) && n <= |cs|
    ensures Sized(cs[..n]) && NonIncreasing(cs[..n])
  {
    forall i, j | 0 <= i < j < n ensures Rate(cs[..n][i]) >= Rate(cs[..n][j]) {
      assert cs[..n][i] == cs[i] && cs[..n][j] == cs[j];
    }
  }

  lemma AppendToSorted(cs: seq<FeeFrac>, c: FeeFrac)
    requires Sized(cs) && NonIncreasing(cs) && c.size > 0
    requires cs == [] || !Higher(c, cs[|cs| - 1])
    ensures Sized(cs + [c]) && NonIncreasing(cs + [c])
  {
    var ds, n := cs + [c], |cs|;
    if n > 0 { CompareIsRate(c, cs[n - 1]); }
    forall i, j | 0 <= i < j < |ds| ensures Rate(ds[i]) >= Rate(ds[j]) {
      assert ds[i] == cs[i];
      if j < n { assert ds[j] == cs[j]; } else { assert ds[j] == c; }
    }
  }

  /** Within the first chunk the diagram is that chunk's own supporting line. */
  lemma HeightInFirst(cs: seq<FeeFrac>, x: real)
    requires Sized(cs) && NonIncreasing(cs) && cs != [] && x <= cs[0].size as real
    ensures Touches(cs, x, Rate(cs[0]))
  {
    SupportZero(cs, Rate(cs[0]));
  }

  /** Over the sorted chunks, every point lies on some supporting line. */
  lemma {:induction false} HeightAttained(cs: seq<FeeFrac>, x: real) returns (r: real)
    requires Sized(cs) && NonIncreasing(cs) && 0.0 <= x <= Total(cs).size as real
    ensures Touches(cs, x, r)
    ensures cs != [] ==> r <= Rate(cs[0])
  {
    if cs == [] {
      r := 0.0;
    } else if x <= cs[0].size as real {
      r := Rate(cs[0]);
      HeightInFirst(cs, x);
    } else {
      var rest, s := cs[1..], cs[0].size as real;
      TailOfSorted(cs);
      assert rest != [];
      r := HeightAttained(rest, x - s);
      SupportStep(cs, x, r);
    }
  }

  lemma TotalZero(cs: seq<FeeFrac>)
    requires Sized(cs) && Total(cs).size == 0
    ensures cs == []
  {
    if cs != [] { TotalNonNegative(cs[1..]); }
  }

  lemma {:induction false} HeightBeyond(cs: seq<FeeFrac>, x: real)
    requires Sized(cs) && x >= Total(cs).size as real
    ensures Height(cs, x) == Total(cs).fee as real
  {
    if cs != [] {
      TotalNonNegative(cs[1..]);
      if x <= cs[0].size as real {
        TotalZero(cs[1..]);
        RateTimesSize(cs[0]);
        assert x == cs[0].size as real;
      } else {
        HeightBeyond(cs[1..], x - cs[0].size as real);
      }
    }
  }

  lemma ExcessAsProduct(x: FeeFrac, r: real)
    requires x.size > 0
    ensures Excess(x, r) == (Rate(x) - r) * (x.size as real)
  {
    RateTimesSize(x);
  }

  /** Something smaller, at a lower feerate, has at most the positive excess of c. */
  lemma SmallerAndLower(p: FeeFrac, c: FeeFrac, r: real)
    requires 0 < p.size <= c.size && Rate(p) <= Rate(c)
    ensures Excess(p, r) <= Pos(Excess(c, r))
  {
    if Rate(p) <= r {
      ExcessSign(p, r);
    } else {
      var d, e, x, y := Rate(p) - r, Rate(c) - r, p.size as real, c.size as real;
      ExcessAsProduct(p, r);
      ExcessAsProduct(c, r);
      TimesMonotone(d, e, x);
      TimesMonotone(x, y, e);
    }
  }

  /** Comparing supporting lines compares diagrams. */
  lemma DominatesBySupport(a: seq<FeeFrac>, b: seq<FeeFrac>)
    requires Sized(a) && Sized(b) && NonIncreasing(a) && Total(a).size == Total(b).size && Total(a).fee >= Total(b).fee
    requires forall r: real :: Support(a, r) >= Support(b, r)
    ensures AtLeastAsGood(a, b)
  {
    forall x: real | x >= 0.0 ensures Height(a, x) >= Height(b, x) {
      if x <= Total(a).size as real {
        var r := HeightAttained(a, x);
        HeightBelowSupport(b, x, r);
      } else {
        HeightBeyond(a, x);
        HeightBeyond(b, x);
      }
    }
  }

  /** A point that no supporting line passes below is on or below the diagram. */
  lemma PointBelow(a: seq<FeeFrac>, p: FeeFrac)
    requires Sized(a) && NonIncreasing(a) && 0 <= p.size <= Total(a).size
    requires forall r: real :: Support(a, r) >= Excess(p, r)
    ensures Height(a, p.size as real) >= p.fee as real
  {
    var r := HeightAttained(a, p.size as real);
    assert Support(a, r) >= Excess(p, r);
    LineAbove(Height(a, p.size as real), Support(a, r), p, r);
  }

  lemma LineAbove(height: real, support: real, p: FeeFrac, r: real)
    requires height == support + r * (p.size as real) && support >= Excess(p, r)
    ensures height >= p.fee as real
  {
  }
}
