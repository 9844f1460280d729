/** Passes of PostLinearize over trees, and past an element that nothing yet depends on,
    src/cluster_linearize.h:1381-1401. */
module TreePasses {
  import opened Basics
  import opened FeeFracs
  import opened Sums
  import opened Diagrams
  import opened Chunking
  import opened Orders
  import opened Passes
  import opened PassGains

  /** deps is a reflexive and transitive relation on u. */
  ghost predicate RelationOk(deps: seq<set<nat>>, u: set<nat>) {
    && (forall x :: x in u ==> x < |deps| && x in deps[x] && deps[x] <= u)
    && (forall x, y {:trigger Inherits(deps, x, y)} :: x in u && y in deps[x] ==> Inherits(deps, x, y))
  }

  ghost predicate Inherits(deps: seq<set<nat>>, x: nat, y: nat) {
    x < |deps| && y < |deps| && deps[y] <= deps[x]
  }

  /** Whatever depends on x forms a chain: every transaction has at most one child (or parent). */
  ghost predicate Chains(deps: seq<set<nat>>, u: set<nat>)
    requires RelationOk(deps, u)
  {
    forall x, y, z :: y in u && z in u && x in deps[y] && x in deps[z] ==> y in deps[z] || z in deps[y]
  }

  ghost predicate ClosedUnder(deps: seq<set<nat>>, u: set<nat>, a: set<nat>)
    requires RelationOk(deps, u)
  {
    a <= u && forall x :: x in a ==> deps[x] <= a
  }

  function Tail(g: seq<nat>): nat
    requires g != []
  {
    g[|g| - 1]
  }

  /** What the closed set a takes from group g has at most the feerate r. */
  ghost predicate PartBelow(fr: seq<FeeFrac>, g: seq<nat>, a: set<nat>, r: real) {
    Excess(FeeRate(fr, a * Elems(g)), r) <= 0.0
  }

  /** The last of the group depends on all of it, and no closed part of it beats it. */
  ghost predicate TreeGroup(fr: seq<FeeFrac>, deps: seq<set<nat>>, u: set<nat>, g: seq<nat>)
    requires RelationOk(deps, u)
  {
    && g != [] && Elems(g) <= u && InRange(fr, g) && Distinct(g)
    && Tail(g) < |deps| && Elems(g) <= deps[Tail(g)]
    && forall a: set<nat> :: ClosedUnder(deps, u, a) ==> PartBelow(fr, g, a, GroupRate(fr, g))
  }

  /** For the group on its way forward: without its last element, no closed part of it has a higher
      feerate than all the groups it has taken in. */
  ghost predicate TreeMoving(fr: seq<FeeFrac>, deps: seq<set<nat>>, u: set<nat>, c: seq<nat>, lost: seq<seq<nat>>)
    requires RelationOk(deps, u)
  {
    && TreeGroup(fr, deps, u, c)
    && forall a: set<nat>, r: real :: ClosedUnder(deps, u, a) && Tail(c) !in a && RatesAtMost(fr, lost, r) ==>
       PartBelow(fr, c, a, r)
  }

  lemma InRangePositive(fr: seq<FeeFrac>, g: seq<nat>, s: set<nat>)
    requires InRange(fr, g) && s <= Elems(g)
    ensures forall i :: i in s ==> i < |fr| && fr[i].size > 0
  {
  }

  /** At a higher feerate the part is below all the more. */
  lemma PartBelowHigher(fr: seq<FeeFrac>, g: seq<nat>, a: set<nat>, q: real, r: real)
    requires InRange(fr, g) && PartBelow(fr, g, a, q) && q <= r
    ensures PartBelow(fr, g, a, r)
  {
    var s := a * Elems(g);
    InRangePositive(fr, g, s);
    SizePositive(fr, s);
    var x, n := FeeRate(fr, s), FeeRate(fr, s).size as real;
    assert n >= 0.0;
    assert (r - q) * n >= 0.0;
    assert Excess(x, r) == Excess(x, q) - (r - q) * n;
  }

  lemma WholePart(fr: seq<FeeFrac>, g: seq<nat>, a: set<nat>)
    requires g != [] && InRange(fr, g) && Distinct(g) && Elems(g) <= a
    ensures PartBelow(fr, g, a, GroupRate(fr, g))
  {
    assert a * Elems(g) == Elems(g);
    FeeSumIsFeeRate(fr, g);
    FeeSumSize(fr, g);
    ExcessSign(FeeSum(fr, g), GroupRate(fr, g));
  }

  lemma PartsJoin(fr: seq<FeeFrac>, p: seq<nat>, c: seq<nat>, a: set<nat>, r: real)
    requires Elems(p) !! Elems(c) && PartBelow(fr, p, a, r) && PartBelow(fr, c, a, r)
    ensures PartBelow(fr, p + c, a, r)
  {
    assert a * Elems(p + c) == a * Elems(p) + a * Elems(c);
    FeeRateUnion(fr, a * Elems(p), a * Elems(c));
    ExcessPlus(FeeRate(fr, a * Elems(p)), FeeRate(fr, a * Elems(c)), r);
  }

  /** The last of c depends on the last of p, and so on all of p. */
  lemma TailDepends(fr: seq<FeeFrac>, deps: seq<set<nat>>, u: set<nat>, p: seq<nat>, c: seq<nat>)
    requires RelationOk(deps, u) && Chains(deps, u) && TreeGroup(fr, deps, u, p) && TreeGroup(fr, deps, u, c)
    requires Known(deps, c) && DependsOn(deps, c, p) && Cross(deps, p, c)
    ensures Elems(p) <= deps[Tail(c)]
  {
    var y :| y in DepsOf(deps, c) * Elems(p);
    InDepsOf(deps, c, y);
    var i :| 0 <= i < |c| && y in deps[c[i]];
    var tc, tp := Tail(c), Tail(p);
    assert c[i] in Elems(c) && tc in Elems(c) && tp in Elems(p);
    assert Inherits(deps, tc, c[i]);
    assert y in deps[tc] && y in deps[tp];
    assert MayFollow(deps, p[|p| - 1], c[|c| - 1]);
    assert tp in deps[tc];
    assert Inherits(deps, tc, tp);
  }

  lemma MergeTree(fr: seq<FeeFrac>, deps: seq<set<nat>>, u: set<nat>, p: seq<nat>, c: seq<nat>, lost: seq<seq<nat>>)
    requires RelationOk(deps, u) && Chains(deps, u) && TreeGroup(fr, deps, u, p) && TreeMoving(fr, deps, u, c, lost)
    requires Known(deps, c) && DependsOn(deps, c, p) && Cross(deps, p, c) && InOrder(deps, p + c)
    requires Higher(FeeSum(fr, c), FeeSum(fr, p)) && RatesAtMost(fr, lost, GroupRate(fr, p))
    ensures TreeMoving(fr, deps, u, p + c, lost + [p])
  {
    var g, t := p + c, Tail(c);
    InRangeConcat(fr, p, c);
    InOrderDistinct(deps, g);
    TailDepends(fr, deps, u, p, c);
    assert Elems(g) == Elems(p) + Elems(c) && Tail(g) == t;
    assert Elems(p) !! Elems(c);
    MergedRate(fr, p, c);
    forall a: set<nat>, r: real | ClosedUnder(deps, u, a) && t !in a && RatesAtMost(fr, lost + [p], r)
      ensures PartBelow(fr, g, a, r) {
      LostRates(fr, lost, p, r);
      PartBelowHigher(fr, p, a, GroupRate(fr, p), r);
      PartsJoin(fr, p, c, a, r);
    }
    forall a: set<nat> | ClosedUnder(deps, u, a) ensures PartBelow(fr, g, a, GroupRate(fr, g)) {
      if t in a {
        assert deps[t] <= a;
        WholePart(fr, g, a);
      } else {
        LostRates(fr, lost, p, GroupRate(fr, g));
      }
    }
  }

  lemma LostRates(fr: seq<FeeFrac>, lost: seq<seq<nat>>, p: seq<nat>, r: real)
    ensures RatesAtMost(fr, lost + [p], r) <==> RatesAtMost(fr, lost, r) && GroupRate(fr, p) <= r
  {
    var all := lost + [p];
    assert all[|lost|] == p;
    forall i | 0 <= i < |lost| ensures all[i] == lost[i] {}
  }

  lemma MergedRate(fr: seq<FeeFrac>, p: seq<nat>, c: seq<nat>)
    requires p != [] && c != [] && InRange(fr, p) && InRange(fr, c) && Higher(FeeSum(fr, c), FeeSum(fr, p))
    ensures InRange(fr, p + c) && GroupRate(fr, p) < GroupRate(fr, p + c)
  {
    FeeSumConcat(fr, p, c);
    FeeSumSize(fr, p);
    FeeSumSize(fr, c);
    CompareIsRate(FeeSum(fr, c), FeeSum(fr, p));
    RateOfPlus(FeeSum(fr, p), FeeSum(fr, c));
  }

  ghost predicate TreeGroups(fr: seq<FeeFrac>, deps: seq<set<nat>>, u: set<nat>, groups: seq<seq<nat>>)
    requires RelationOk(deps, u)
  {
    forall i :: 0 <= i < |groups| ==> TreeGroup(fr, deps, u, groups[i])
  }

  /** On a tree, moving one group into place leaves groups that no closed part of beats. */
  lemma {:induction false} BubbleTree(fr: seq<FeeFrac>, deps: seq<set<nat>>, u: set<nat>, old': seq<seq<nat>>,
                                      before: seq<seq<nat>>, c: seq<nat>, after: seq<seq<nat>>, lost: seq<seq<nat>>)
    requires PassInv(fr, deps, old', before, c, after, lost) && AllReady(fr, deps, before) && AllReady(fr, deps, after)
    requires RelationOk(deps, u) && Chains(deps, u)
    requires TreeGroups(fr, deps, u, before) && TreeGroups(fr, deps, u, after) && TreeMoving(fr, deps, u, c, lost)
    ensures TreeGroups(fr, deps, u, Bubble(fr, deps, before, c, after))
    decreases |before|
  {
    var n := |before| - 1;
    if before == [] || !Higher(FeeSum(fr, c), FeeSum(fr, before[n])) {
      InsertTree(fr, deps, u, before, c, after);
    } else if DependsOn(deps, c, before[n]) {
      PassMerge(fr, deps, old', before, c, after, lost);
      TreeNeighbours(fr, deps, before, c, after);
      MergeTree(fr, deps, u, before[n], c, lost);
      BubbleTree(fr, deps, u, old', before[..n], before[n] + c, after, lost + [before[n]]);
    } else {
      PassSwap(fr, deps, old', before, c, after, lost);
      BubbleTree(fr, deps, u, old', before[..n], c, [before[n]] + after, lost);
    }
  }

  lemma InsertTree(fr: seq<FeeFrac>, deps: seq<set<nat>>, u: set<nat>, before: seq<seq<nat>>, c: seq<nat>,
                   after: seq<seq<nat>>)
    requires RelationOk(deps, u) && TreeGroups(fr, deps, u, before) && TreeGroups(fr, deps, u, after)
             && TreeGroup(fr, deps, u, c)
    ensures TreeGroups(fr, deps, u, before + [c] + after)
  {
    var all, n := before + [c] + after, |before|;
    forall i | 0 <= i < |all| ensures TreeGroup(fr, deps, u, all[i]) {
      assert all[i] == if i < n then before[i] else if i == n then c else after[i - n - 1];
    }
  }

  lemma TreeNeighbours(fr: seq<FeeFrac>, deps: seq<set<nat>>, before: seq<seq<nat>>, c: seq<nat>, after: seq<seq<nat>>)
    requires Moving(fr, deps, before, c, after) && before != []
    ensures var p := before[|before| - 1]; Cross(deps, p, c) && InOrder(deps, p + c)
  {
    var front, p := before[..|before| - 1], before[|before| - 1];
    MovingParts(fr, deps, before, c, after);
    InOrderConcat(deps, Flatten(front), p + (c + Flatten(after)));
    assert p + (c + Flatten(after)) == (p + c) + Flatten(after);
    InOrderConcat(deps, p + c, Flatten(after));
    InOrderConcat(deps, p, c);
  }

  lemma {:induction false} PassTree(fr: seq<FeeFrac>, deps: seq<set<nat>>, u: set<nat>, s: seq<nat>)
    requires Ready(fr, deps, s) && InOrder(deps, s) && RelationOk(deps, u) && Chains(deps, u) && Elems(s) <= u
    ensures TreeGroups(fr, deps, u, PassGroups(fr, deps, s))
  {
    if s != [] {
      var n := |s| - 1;
      var front, x := s[..n], s[n];
      assert InOrder(deps, front) && Elems(front) <= Elems(s) && x in Elems(s);
      PassTree(fr, deps, u, front);
      PassResult(fr, deps, front);
      var before := PassGroups(fr, deps, front);
      PassNext(fr, deps, s, before);
      SingleTree(fr, deps, u, x);
      BubbleTree(fr, deps, u, before, before, [x], [], []);
    }
  }

  lemma SingleTree(fr: seq<FeeFrac>, deps: seq<set<nat>>, u: set<nat>, x: nat)
    requires RelationOk(deps, u) && x in u && InRange(fr, [x])
    ensures TreeMoving(fr, deps, u, [x], [])
  {
    assert Elems([x]) == {x};
    forall a: set<nat>, r: real | ClosedUnder(deps, u, a) && x !in a ensures PartBelow(fr, [x], a, r) {
      assert a * Elems([x]) == {};
      FeeRateEmpty(fr);
    }
    forall a: set<nat> | ClosedUnder(deps, u, a) ensures PartBelow(fr, [x], a, GroupRate(fr, [x])) {
      if x in a { WholePart(fr, [x], a); }
    }
  }

  /** What a closed set takes from the groups is worth no more than they are. */
  lemma {:induction false} ClosedBelowWorth(fr: seq<FeeFrac>, deps: seq<set<nat>>, u: set<nat>, groups: seq<seq<nat>>,
                                            a: set<nat>, r: real)
    requires RelationOk(deps, u) && TreeGroups(fr, deps, u, groups) && ClosedUnder(deps, u, a)
             && InOrder(deps, Flatten(groups))
    ensures Excess(FeeRate(fr, a * AllElems(groups)), r) <= Worth(fr, groups, r)
  {
    if groups == [] {
      assert a * AllElems(groups) == {};
      FeeRateEmpty(fr);
    } else {
      var g, rest := groups[0], groups[1..];
      InOrderConcat(deps, g, Flatten(rest));
      ClosedBelowWorth(fr, deps, u, rest, a, r);
      assert Elems(g) !! AllElems(rest) by {
        forall i, j | 0 <= i < |g| && 0 <= j < |Flatten(rest)| ensures g[i] != Flatten(rest)[j] {
          assert MayFollow(deps, g[i], Flatten(rest)[j]);
        }
      }
      assert a * AllElems(groups) == a * Elems(g) + a * AllElems(rest);
      FeeRateUnion(fr, a * Elems(g), a * AllElems(rest));
      ExcessPlus(FeeRate(fr, a * Elems(g)), FeeRate(fr, a * AllElems(rest)), r);
      PartBelowGain(fr, deps, u, g, a, r);
    }
  }

  lemma PartBelowGain(fr: seq<FeeFrac>, deps: seq<set<nat>>, u: set<nat>, g: seq<nat>, a: set<nat>, r: real)
    requires RelationOk(deps, u) && TreeGroup(fr, deps, u, g) && ClosedUnder(deps, u, a)
    ensures Excess(FeeRate(fr, a * Elems(g)), r) <= Gain(fr, g, r)
  {
    var part := a * Elems(g);
    InRangePositive(fr, g, Elems(g));
    FeeSumIsFeeRate(fr, g);
    if y :| y in part {
      SizePositive(fr, part);
      assert y < |fr|;
      FeeSumSize(fr, g);
      SizeMonotone(fr, part, Elems(g));
      assert PartBelow(fr, g, a, GroupRate(fr, g));
      ExcessSign(FeeRate(fr, part), GroupRate(fr, g));
      SmallerAndLower(FeeRate(fr, part), FeeSum(fr, g), r);
    } else {
      assert part == {};
      FeeRateEmpty(fr);
    }
  }

  /** On a tree, no closed set is above the groups that a pass makes. */
  lemma TreeOptimal(fr: seq<FeeFrac>, deps: seq<set<nat>>, s: seq<nat>, a: set<nat>, r: real)
    requires Ready(fr, deps, s) && InOrder(deps, s) && RelationOk(deps, Elems(s)) && Chains(deps, Elems(s))
    requires ClosedUnder(deps, Elems(s), a)
    ensures Excess(FeeRate(fr, a), r) <= Worth(fr, PassGroups(fr, deps, s), r)
  {
    PassTree(fr, deps, Elems(s), s);
    PassResult(fr, deps, s);
    ClosedBelowWorth(fr, deps, Elems(s), PassGroups(fr, deps, s), a, r);
    assert a * Elems(s) == a;
  }

  // ----- A first element that nothing yet depends on -----

  /** Each group is t alone, or does not depend on t. */
  ghost predicate FreeOf(deps: seq<set<nat>>, t: nat, groups: seq<seq<nat>>) {
    forall i :: 0 <= i < |groups| ==> Known(deps, groups[i]) && (groups[i] == [t] || t !in DepsOf(deps, groups[i]))
  }

  ghost predicate Alone(t: nat, groups: seq<seq<nat>>) {
    exists i :: 0 <= i < |groups| && groups[i] == [t]
  }

  lemma {:induction false} BubbleAlone(fr: seq<FeeFrac>, deps: seq<set<nat>>, t: nat, before: seq<seq<nat>>,
                                       c: seq<nat>, after: seq<seq<nat>>)
    requires AllReady(fr, deps, before) && c != [] && Ready(fr, deps, c) && AllReady(fr, deps, after)
    requires FreeOf(deps, t, before) && FreeOf(deps, t, after) && t !in DepsOf(deps, c)
    requires Alone(t, before) || Alone(t, after)
    ensures FreeOf(deps, t, Bubble(fr, deps, before, c, after)) && Alone(t, Bubble(fr, deps, before, c, after))
    decreases |before|
  {
    var n := |before| - 1;
    if before == [] || !Higher(FeeSum(fr, c), FeeSum(fr, before[n])) {
      AloneInserted(deps, t, before, c, after);
    } else if DependsOn(deps, c, before[n]) {
      assert before[n] != [t];
      InRangeConcat(fr, before[n], c);
      DepsOfConcat(deps, before[n], c);
      AloneFront(t, before, after);
      BubbleAlone(fr, deps, t, before[..n], before[n] + c, after);
    } else {
      AloneSwapped(t, before, after);
      BubbleAlone(fr, deps, t, before[..n], c, [before[n]] + after);
    }
  }

  lemma AloneInserted(deps: seq<set<nat>>, t: nat, before: seq<seq<nat>>, c: seq<nat>, after: seq<seq<nat>>)
    requires FreeOf(deps, t, before) && FreeOf(deps, t, after) && Known(deps, c) && t !in DepsOf(deps, c)
    requires Alone(t, before) || Alone(t, after)
    ensures FreeOf(deps, t, before + [c] + after) && Alone(t, before + [c] + after)
  {
    var all, n := before + [c] + after, |before|;
    forall i | 0 <= i < |all| ensures Known(deps, all[i]) && (all[i] == [t] || t !in DepsOf(deps, all[i])) {
      assert all[i] == if i < n then before[i] else if i == n then c else after[i - n - 1];
    }
    if Alone(t, before) {
      var i :| 0 <= i < |before| && before[i] == [t];
      assert all[i] == [t];
    } else {
      var i :| 0 <= i < |after| && after[i] == [t];
      assert all[n + 1 + i] == [t];
    }
  }

  lemma AloneFront(t: nat, before: seq<seq<nat>>, after: seq<seq<nat>>)
    requires before != [] && before[|before| - 1] != [t] && (Alone(t, before) || Alone(t, after))
    ensures Alone(t, before[..|before| - 1]) || Alone(t, after)
  {
    if Alone(t, before) {
      var i :| 0 <= i < |before| && before[i] == [t];
      assert before[..|before| - 1][i] == [t];
    }
  }

  lemma AloneSwapped(t: nat, before: seq<seq<nat>>, after: seq<seq<nat>>)
    requires before != [] && (Alone(t, before) || Alone(t, after))
    ensures Alone(t, before[..|before| - 1]) || Alone(t, [before[|before| - 1]] + after)
  {
    var n := |before| - 1;
    var now := [before[n]] + after;
    if Alone(t, after) {
      var i :| 0 <= i < |after| && after[i] == [t];
      assert now[i + 1] == [t];
    } else if before[n] == [t] {
      assert now[0] == [t];
    } else {
      AloneFront(t, before, after);
    }
  }

  lemma {:induction false} PassAlone(fr: seq<FeeFrac>, deps: seq<set<nat>>, s: seq<nat>)
    requires Ready(fr, deps, s) && s != []
    requires forall i :: 1 <= i < |s| ==> s[0] !in deps[s[i]]
    ensures Alone(s[0], PassGroups(fr, deps, s)) && FreeOf(deps, s[0], PassGroups(fr, deps, s))
  {
    var n := |s| - 1;
    if n == 0 {
      var groups := PassGroups(fr, deps, s);
      assert s[..0] == [] && groups == [[s[0]]];
      assert groups[0] == [s[0]];
    } else {
      PassAlone(fr, deps, s[..n]);
      assert [s[n]][..0] == [] && DepsOf(deps, [s[n]]) == deps[s[n]];
      BubbleAlone(fr, deps, s[0], PassGroups(fr, deps, s[..n]), [s[n]], []);
    }
  }

  /** A pass over more of the list never lowers the worth of its groups. */
  lemma {:induction false} PassMonotone(fr: seq<FeeFrac>, deps: seq<set<nat>>, s: seq<nat>, j: nat, r: real)
    requires Ready(fr, deps, s) && InOrder(deps, s) && j <= |s|
    ensures Worth(fr, PassGroups(fr, deps, s[..j]), r) <= Worth(fr, PassGroups(fr, deps, s), r)
  {
    if j == |s| {
      assert s[..j] == s;
    } else {
      var n := |s| - 1;
      var front := s[..n];
      assert InOrder(deps, front);
      PassMonotone(fr, deps, front, j, r);
      assert front[..j] == s[..j];
      PassResult(fr, deps, front);
      var before := PassGroups(fr, deps, front);
      PassNext(fr, deps, s, before);
      BubbleResult(fr, deps, before, before, [s[n]], [], []);
    }
  }

  /** As long as nothing depends on the first element, the groups are worth what the others add up to. */
  lemma AloneWorth(fr: seq<FeeFrac>, deps: seq<set<nat>>, s: seq<nat>, r: real)
    requires Ready(fr, deps, s) && InOrder(deps, s) && s != []
    requires forall i :: 1 <= i < |s| ==> s[0] !in deps[s[i]]
    ensures Excess(FeeSum(fr, s[1..]), r) <= Worth(fr, PassGroups(fr, deps, s), r)
  {
    var groups := PassGroups(fr, deps, s);
    PassAlone(fr, deps, s);
    PassResult(fr, deps, s);
    var i :| 0 <= i < |groups| && groups[i] == [s[0]];
    var a, b := groups[..i], groups[i + 1..];
    assert groups == a + [groups[i]] + b;
    WorthConcat(fr, a + [groups[i]], b, r);
    WorthConcat(fr, a, [groups[i]], r);
    WorthOne(fr, groups[i], r);
    TotalBelowWorth(fr, a, r);
    TotalBelowWorth(fr, b, r);
    FlattenAround(a, groups[i], b);
    WithoutOne(fr, deps, s, Flatten(a), Flatten(b));
    ExcessPlus(FeeSum(fr, Flatten(a)), FeeSum(fr, Flatten(b)), r);
  }

  lemma WithoutOne(fr: seq<FeeFrac>, deps: seq<set<nat>>, s: seq<nat>, a: seq<nat>, b: seq<nat>)
    requires s != [] && InOrder(deps, s) && InRange(fr, s) && InRange(fr, a) && InRange(fr, b)
    requires InOrder(deps, a + ([s[0]] + b)) && Elems(a + ([s[0]] + b)) == Elems(s)
    ensures FeeSum(fr, s[1..]) == Plus(FeeSum(fr, a), FeeSum(fr, b))
  {
    var x := s[0];
    InRangeConcat(fr, [x], b);
    InRangeConcat(fr, a, [x] + b);
    SameFeeSum(fr, deps, a + ([x] + b), s);
    FeeSumConcat(fr, a, [x] + b);
    FeeSumConcat(fr, [x], b);
    assert s == [x] + s[1..];
    FeeSumConcat(fr, [x], s[1..]);
    PlusCancels(FeeSum(fr, a), FeeSum(fr, b), FeeSum(fr, [x]), FeeSum(fr, s[1..]));
  }

  lemma PlusCancels(a: FeeFrac, b: FeeFrac, x: FeeFrac, rest: FeeFrac)
    requires Plus(a, Plus(x, b)) == Plus(x, rest)
    ensures rest == Plus(a, b)
  {
  }

  /** The others up to position k, none of which depends on the first element, are below the groups. */
  lemma OthersBelow(fr: seq<FeeFrac>, deps: seq<set<nat>>, s: seq<nat>, k: nat, r: real)
    requires Ready(fr, deps, s) && InOrder(deps, s) && 1 <= k <= |s|
    requires forall i :: 1 <= i < k ==> s[0] !in deps[s[i]]
    ensures Excess(FeeSum(fr, s[1..k]), r) <= Worth(fr, PassGroups(fr, deps, s), r)
  {
    var t := s[..k];
    assert InOrder(deps, t) && t[1..] == s[1..k];
    AloneWorth(fr, deps, t, r);
    PassMonotone(fr, deps, s, k, r);
  }
}
