/** What a pass of PostLinearize is worth: it never loses, and it is optimal on trees. */
module PassGains {
  import opened Basics
  import opened FeeFracs
  import opened Diagrams
  import opened Chunking
  import opened Orders
  import opened Passes

  /** What group g earns above the feerate r, if positive. */
  ghost function Gain(fr: seq<FeeFrac>, g: seq<nat>, r: real): real {
    if InRange(fr, g) then Pos(Excess(FeeSum(fr, g), r)) else 0.0
  }

  ghost function Worth(fr: seq<FeeFrac>, groups: seq<seq<nat>>, r: real): real {
    if groups == [] then 0.0 else Gain(fr, groups[0], r) + Worth(fr, groups[1..], r)
  }

  lemma {:induction false} WorthConcat(fr: seq<FeeFrac>, a: seq<seq<nat>>, b: seq<seq<nat>>, r: real)
    ensures Worth(fr, a + b, r) == Worth(fr, a, r) + Worth(fr, b, r)
  {
    if a == [] {
      assert a + b == b;
    } else {
      WorthConcat(fr, a[1..], b, r);
      assert (a + b)[1..] == a[1..] + b;
    }
  }

  lemma WorthOne(fr: seq<FeeFrac>, g: seq<nat>, r: real)
    ensures Worth(fr, [g], r) == Gain(fr, g, r)
  {
    assert [g][1..] == [];
  }

  lemma {:induction false} WorthIsSupport(fr: seq<FeeFrac>, groups: seq<seq<nat>>, r: real)
    requires Grouped(fr, groups)
    ensures Worth(fr, groups, r) == Support(FeeSums(fr, groups), r)
  {
    if groups != [] {
      WorthIsSupport(fr, groups[1..], r);
      assert FeeSums(fr, groups)[1..] == FeeSums(fr, groups[1..]);
    }
  }

  lemma GainSign(fr: seq<FeeFrac>, g: seq<nat>, r: real)
    requires g != [] && InRange(fr, g)
    ensures GroupRate(fr, g) <= r ==> Gain(fr, g, r) == 0.0
    ensures GroupRate(fr, g) > r ==> Gain(fr, g, r) == Excess(FeeSum(fr, g), r) > 0.0
  {
    FeeSumSize(fr, g);
    ExcessSign(FeeSum(fr, g), r);
  }

  ghost predicate RatesAtMost(fr: seq<FeeFrac>, groups: seq<seq<nat>>, r: real) {
    forall i :: 0 <= i < |groups| ==> GroupRate(fr, groups[i]) <= r
  }

  lemma {:induction false} WorthNothing(fr: seq<FeeFrac>, groups: seq<seq<nat>>, r: real)
    requires Grouped(fr, groups) && RatesAtMost(fr, groups, r)
    ensures Worth(fr, groups, r) == 0.0
  {
    if groups != [] {
      GainSign(fr, groups[0], r);
      WorthNothing(fr, groups[1..], r);
    }
  }

  // ----- A pass never loses -----

  /** lost are the groups of old that c has taken in. Every group still before c is at least as good. */
  ghost predicate Accounted(fr: seq<FeeFrac>, old': seq<seq<nat>>, before: seq<seq<nat>>, after: seq<seq<nat>>,
                            lost: seq<seq<nat>>) {
    && Grouped(fr, lost) && AllAbove(fr, before, lost)
    && forall r: real :: Worth(fr, old', r) == Worth(fr, before, r) + Worth(fr, after, r) + Worth(fr, lost, r)
  }

  ghost predicate NoneLost(fr: seq<FeeFrac>, old': seq<seq<nat>>, before: seq<seq<nat>>, c: seq<nat>,
                           after: seq<seq<nat>>) {
    forall r: real :: Worth(fr, before, r) + Gain(fr, c, r) + Worth(fr, after, r) >= Worth(fr, old', r)
  }

  lemma LastOff(fr: seq<FeeFrac>, before: seq<seq<nat>>, r: real)
    requires before != []
    ensures Worth(fr, before, r) == Worth(fr, before[..|before| - 1], r) + Gain(fr, before[|before| - 1], r)
  {
    var n := |before| - 1;
    assert before == before[..n] + [before[n]];
    WorthConcat(fr, before[..n], [before[n]], r);
    WorthOne(fr, before[n], r);
  }

  lemma MergeAccounted(fr: seq<FeeFrac>, deps: seq<set<nat>>, old': seq<seq<nat>>, before: seq<seq<nat>>, c: seq<nat>,
                       after: seq<seq<nat>>, lost: seq<seq<nat>>)
    requires GroupsOk(fr, deps, before) && GroupOk(fr, deps, c) && Descending(fr, before) && before != []
    requires Higher(FeeSum(fr, c), FeeSum(fr, before[|before| - 1]))
    requires Accounted(fr, old', before, after, lost) && NoneLost(fr, old', before, c, after)
    ensures var n := |before| - 1;
      && Accounted(fr, old', before[..n], after, lost + [before[n]])
      && NoneLost(fr, old', before[..n], before[n] + c, after)
  {
    var n := |before| - 1;
    AboveAll(fr, before, lost);
    forall r: real
      ensures Worth(fr, old', r) == Worth(fr, before[..n], r) + Worth(fr, after, r) + Worth(fr, lost + [before[n]], r)
      ensures Worth(fr, before[..n], r) + Gain(fr, before[n] + c, r) + Worth(fr, after, r) >= Worth(fr, old', r)
    {
      LastOff(fr, before, r);
      WorthConcat(fr, lost, [before[n]], r);
      WorthOne(fr, before[n], r);
      MergeGain(fr, before, c, lost, r);
    }
  }

  lemma AboveAll(fr: seq<FeeFrac>, before: seq<seq<nat>>, lost: seq<seq<nat>>)
    requires before != [] && AllAbove(fr, before, lost) && Descending(fr, before)
    ensures AllAbove(fr, before[..|before| - 1], lost + [before[|before| - 1]])
  {
    var n := |before| - 1;
    forall i, j | 0 <= i < n && 0 <= j <= |lost|
      ensures GroupRate(fr, before[..n][i]) >= GroupRate(fr, (lost + [before[n]])[j]) {
      assert before[..n][i] == before[i];
    }
  }

  /** Below the feerate of p the merge loses nothing; above it, whatever has been taken in was worth nothing. */
  lemma MergeGain(fr: seq<FeeFrac>, before: seq<seq<nat>>, c: seq<nat>, lost: seq<seq<nat>>, r: real)
    requires Grouped(fr, before) && before != [] && c != [] && InRange(fr, c) && Grouped(fr, lost)
             && AllAbove(fr, before, lost)
    requires Higher(FeeSum(fr, c), FeeSum(fr, before[|before| - 1]))
    ensures var p := before[|before| - 1];
      || Gain(fr, p + c, r) == Gain(fr, p, r) + Gain(fr, c, r)
      || (Gain(fr, p, r) == 0.0 && Worth(fr, lost, r) == 0.0 && Gain(fr, p + c, r) >= 0.0)
  {
    var p := before[|before| - 1];
    HigherIsRate(fr, c, p);
    GainSign(fr, p, r);
    GainSign(fr, c, r);
    if GroupRate(fr, p) > r {
      FeeSumConcat(fr, p, c);
      ExcessPlus(FeeSum(fr, p), FeeSum(fr, c), r);
    } else {
      WorthNothing(fr, lost, r);
    }
  }

  lemma SwapAccounted(fr: seq<FeeFrac>, old': seq<seq<nat>>, before: seq<seq<nat>>, c: seq<nat>,
                      after: seq<seq<nat>>, lost: seq<seq<nat>>)
    requires before != [] && Accounted(fr, old', before, after, lost) && NoneLost(fr, old', before, c, after)
    ensures var n := |before| - 1;
      && Accounted(fr, old', before[..n], [before[n]] + after, lost)
      && NoneLost(fr, old', before[..n], c, [before[n]] + after)
  {
    var n := |before| - 1;
    forall r: real
      ensures Worth(fr, before, r) + Worth(fr, after, r) == Worth(fr, before[..n], r)
              + Worth(fr, [before[n]] + after, r)
    {
      LastOff(fr, before, r);
      WorthConcat(fr, [before[n]], after, r);
      WorthOne(fr, before[n], r);
    }
  }

  ghost predicate PassInv(fr: seq<FeeFrac>, deps: seq<set<nat>>, old': seq<seq<nat>>, before: seq<seq<nat>>,
                          c: seq<nat>, after: seq<seq<nat>>, lost: seq<seq<nat>>) {
    && Moving(fr, deps, before, c, after) && Accounted(fr, old', before, after, lost)
    && NoneLost(fr, old', before, c, after)
  }

  lemma MovingBefore(fr: seq<FeeFrac>, deps: seq<set<nat>>, before: seq<seq<nat>>, c: seq<nat>, after: seq<seq<nat>>)
    requires Moving(fr, deps, before, c, after)
    ensures Descending(fr, before) && AllReady(fr, deps, before) && AllReady(fr, deps, after)
  {
    DescendingConcat(fr, before, after);
  }

  lemma PassMerge(fr: seq<FeeFrac>, deps: seq<set<nat>>, old': seq<seq<nat>>, before: seq<seq<nat>>, c: seq<nat>,
                  after: seq<seq<nat>>, lost: seq<seq<nat>>)
    requires PassInv(fr, deps, old', before, c, after, lost) && before != []
    requires Higher(FeeSum(fr, c), FeeSum(fr, before[|before| - 1])) && DependsOn(deps, c, before[|before| - 1])
    ensures PassInv(fr, deps, old', before[..|before| - 1], before[|before| - 1] + c, after,
                    lost + [before[|before| - 1]])
  {
    MovingBefore(fr, deps, before, c, after);
    MergeMoving(fr, deps, before, c, after);
    MergeAccounted(fr, deps, old', before, c, after, lost);
  }

  lemma PassSwap(fr: seq<FeeFrac>, deps: seq<set<nat>>, old': seq<seq<nat>>, before: seq<seq<nat>>, c: seq<nat>,
                 after: seq<seq<nat>>, lost: seq<seq<nat>>)
    requires PassInv(fr, deps, old', before, c, after, lost) && before != []
    requires Higher(FeeSum(fr, c), FeeSum(fr, before[|before| - 1])) && !DependsOn(deps, c, before[|before| - 1])
    ensures PassInv(fr, deps, old', before[..|before| - 1], c, [before[|before| - 1]] + after, lost)
  {
    SwapMoving(fr, deps, before, c, after);
    SwapAccounted(fr, old', before, c, after, lost);
  }

  ghost function AllElems(groups: seq<seq<nat>>): set<nat> { Elems(Flatten(groups)) }

  lemma ElemsAround(before: seq<seq<nat>>, c: seq<nat>, after: seq<seq<nat>>)
    ensures AllElems(before + [c] + after) == AllElems(before) + Elems(c) + AllElems(after)
    ensures before != [] ==> AllElems(before) == AllElems(before[..|before| - 1]) + Elems(before[|before| - 1])
    ensures AllElems([c] + after) == Elems(c) + AllElems(after)
  {
    FlattenAround(before, c, after);
    if before != [] { FlattenLast(before); }
    assert ([c] + after)[1..] == after;
  }

  lemma {:induction false} BubbleElems(fr: seq<FeeFrac>, deps: seq<set<nat>>, before: seq<seq<nat>>, c: seq<nat>,
                                       after: seq<seq<nat>>)
    requires AllReady(fr, deps, before) && c != [] && Ready(fr, deps, c) && AllReady(fr, deps, after)
    ensures AllElems(Bubble(fr, deps, before, c, after)) == AllElems(before) + Elems(c) + AllElems(after)
    decreases |before|
  {
    var n := |before| - 1;
    ElemsAround(before, c, after);
    if before != [] && Higher(FeeSum(fr, c), FeeSum(fr, before[n])) {
      if DependsOn(deps, c, before[n]) {
        InRangeConcat(fr, before[n], c);
        BubbleElems(fr, deps, before[..n], before[n] + c, after);
        assert Elems(before[n] + c) == Elems(before[n]) + Elems(c);
      } else {
        ElemsAround([], before[n], after);
        BubbleElems(fr, deps, before[..n], c, [before[n]] + after);
      }
    }
  }

  /** Moving one group into place: the result is in order, and worth no less than the groups before. */
  lemma {:induction false} BubbleResult(fr: seq<FeeFrac>, deps: seq<set<nat>>, old': seq<seq<nat>>,
                                        before: seq<seq<nat>>, c: seq<nat>, after: seq<seq<nat>>, lost: seq<seq<nat>>)
    requires PassInv(fr, deps, old', before, c, after, lost) && AllReady(fr, deps, before) && AllReady(fr, deps, after)
    ensures var result := Bubble(fr, deps, before, c, after);
      PassOk(fr, deps, result) && forall r: real :: Worth(fr, result, r) >= Worth(fr, old', r)
    decreases |before|
  {
    var n := |before| - 1;
    if before == [] || !Higher(FeeSum(fr, c), FeeSum(fr, before[n])) {
      StopMoving(fr, deps, before, c, after);
      forall r: real ensures Worth(fr, before + [c] + after, r) >= Worth(fr, old', r) {
        WorthConcat(fr, before + [c], after, r);
        WorthConcat(fr, before, [c], r);
        WorthOne(fr, c, r);
      }
    } else if DependsOn(deps, c, before[n]) {
      PassMerge(fr, deps, old', before, c, after, lost);
      BubbleResult(fr, deps, old', before[..n], before[n] + c, after, lost + [before[n]]);
    } else {
      PassSwap(fr, deps, old', before, c, after, lost);
      BubbleResult(fr, deps, old', before[..n], c, [before[n]] + after, lost);
    }
  }

  lemma {:induction false} TotalBelowWorth(fr: seq<FeeFrac>, groups: seq<seq<nat>>, r: real)
    requires Grouped(fr, groups)
    ensures InRange(fr, Flatten(groups)) && Excess(FeeSum(fr, Flatten(groups)), r) <= Worth(fr, groups, r)
  {
    if groups != [] {
      TotalBelowWorth(fr, groups[1..], r);
      FeeSumConcat(fr, groups[0], Flatten(groups[1..]));
      ExcessPlus(FeeSum(fr, groups[0]), FeeSum(fr, Flatten(groups[1..])), r);
    }
  }

  lemma InOrderDistinct(deps: seq<set<nat>>, l: seq<nat>)
    requires InOrder(deps, l)
    ensures Distinct(l)
  {
    forall i, j | 0 <= i < j < |l| ensures l[i] != l[j] { assert MayFollow(deps, l[i], l[j]); }
  }

  /** Two lists in order with the same elements have the same fee and size. */
  lemma SameFeeSum(fr: seq<FeeFrac>, deps: seq<set<nat>>, k: seq<nat>, l: seq<nat>)
    requires InOrder(deps, k) && InOrder(deps, l) && Elems(k) == Elems(l) && InRange(fr, k) && InRange(fr, l)
    ensures FeeSum(fr, k) == FeeSum(fr, l)
  {
    InOrderDistinct(deps, k);
    InOrderDistinct(deps, l);
    FeeSumIsFeeRate(fr, k);
    FeeSumIsFeeRate(fr, l);
  }

  /** The next element starts as a group of its own behind all others. */
  lemma PassNext(fr: seq<FeeFrac>, deps: seq<set<nat>>, s: seq<nat>, groups: seq<seq<nat>>)
    requires s != [] && Ready(fr, deps, s) && InOrder(deps, s)
    requires PassOk(fr, deps, groups) && AllElems(groups) == Elems(s[..|s| - 1])
    ensures PassInv(fr, deps, groups, groups, [s[|s| - 1]], [], [])
  {
    var n := |s| - 1;
    var x, l := s[n], Flatten(groups);
    forall a | 0 <= a < |l| ensures MayFollow(deps, l[a], x) {
      assert l[a] in Elems(s[..n]);
      var i :| 0 <= i < n && s[i] == l[a];
    }
    InOrderConcat(deps, l, [x]);
    assert l + ([x] + Flatten([])) == l + [x];
    assert groups + [] == groups;
    assert Elems([x]) == {x};
    assert [x][..0] == [];
  }

  /** A pass over a list in order: its groups are in order too, and no prefix of the list is above them. */
  lemma {:induction false} PassResult(fr: seq<FeeFrac>, deps: seq<set<nat>>, s: seq<nat>)
    requires Ready(fr, deps, s) && InOrder(deps, s)
    ensures PassOk(fr, deps, PassGroups(fr, deps, s)) && AllElems(PassGroups(fr, deps, s)) == Elems(s)
    ensures forall r: real, j: nat :: j <= |s| ==>
            Excess(FeeSum(fr, s[..j]), r) <= Worth(fr, PassGroups(fr, deps, s), r)
  {
    var groups := PassGroups(fr, deps, s);
    if s == [] {
      assert Elems(Flatten(groups)) == {};
    } else {
      var n := |s| - 1;
      var front := s[..n];
      assert InOrder(deps, front);
      PassResult(fr, deps, front);
      var before := PassGroups(fr, deps, front);
      PassNext(fr, deps, s, before);
      BubbleResult(fr, deps, before, before, [s[n]], [], []);
      BubbleElems(fr, deps, before, [s[n]], []);
      assert Elems(s) == Elems(front) + Elems([s[n]]) by { assert s == front + [s[n]]; }
      assert Elems(Flatten([])) == {};
      forall r: real, j: nat | j <= |s| ensures Excess(FeeSum(fr, s[..j]), r) <= Worth(fr, groups, r) {
        if j == |s| {
          assert s[..j] == s;
          TotalBelowWorth(fr, groups, r);
          SameFeeSum(fr, deps, Flatten(groups), s);
        } else {
          assert front[..j] == s[..j];
          assert Excess(FeeSum(fr, front[..j]), r) <= Worth(fr, before, r);
        }
      }
    }
  }
}
