/** Tree-shaped clusters and moved leaves: the stronger guarantees of PostLinearize,
    src/cluster_linearize.h:1382-1388. */
module PassShapes {
  import opened Basics
  import opened FeeFracs
  import opened Sums
  import opened Diagrams
  import opened Chunking
  import opened Orders
  import opened DepGraphs
  import opened SpanningForest
  import opened Linearizing
  import opened Passes
  import opened PassGains
  import opened TreePasses
  import opened PassResults

  // ----- Optimal orders -----

  /** No closed set is above the diagram, and no order has a better one. */
  ghost predicate OptimalOrder(g: Graph, l: seq<nat>)
    requires Sound(g) && TopologicalOrder(g, l)
  {
    && (forall s :: ClosedSet(g, s) ==> OnOrBelow(g, s, l))
    && (forall m :: TopologicalOrder(g, m) ==> AtLeastAsGood(DiagramOf(g, l), DiagramOf(g, m)))
  }

  lemma PrefixIsClosed(g: Graph, l: seq<nat>, j: nat)
    requires Sound(g) && TopologicalOrder(g, l) && j <= |l|
    ensures ClosedSet(g, Elems(l[..j]))
  {
    assert Elems(l[..j]) <= Elems(l);
    forall x, y | x in Elems(l[..j]) && y in Anc(g, x) ensures y in Elems(l[..j]) {
      var a :| 0 <= a < j && l[a] == x;
      assert y in Elems(l);
      var b :| 0 <= b < |l| && l[b] == y;
      assert l[..j][b] == y;
    }
  }

  lemma OptimalByLevels(g: Graph, l: seq<nat>)
    requires Sound(g) && TopologicalOrder(g, l)
    requires forall s: set<nat>, r: real :: ClosedSet(g, s) ==> Level(g, l, r) >= Excess(FeeRate(FeeRates(g), s), r)
    ensures OptimalOrder(g, l)
  {
    var fr := FeeRates(g);
    forall s | ClosedSet(g, s) ensures OnOrBelow(g, s, l) {
      PrefixSum(g, l, |l|);
      assert l[..|l|] == l;
      SizeMonotone(fr, s, g.used);
      SizeMonotone(fr, {}, s);
      FeeRateEmpty(fr);
      forall r: real ensures Support(DiagramOf(g, l), r) >= Excess(FeeRate(fr, s), r) {
        assert Level(g, l, r) >= Excess(FeeRate(fr, s), r);
      }
      PointBelow(DiagramOf(g, l), FeeRate(fr, s));
    }
    forall m | TopologicalOrder(g, m) ensures AtLeastAsGood(DiagramOf(g, l), DiagramOf(g, m)) {
      forall r: real ensures Level(g, l, r) >= Level(g, m, r) {
        var j := LevelAttained(g, m, r);
        PrefixIsClosed(g, m, j);
      }
      LevelsCompare(g, l, g, m);
    }
  }

  // ----- Trees -----

  ghost predicate OneChild(g: Graph)
    requires Closure(g)
  {
    forall x, c, d :: c in g.used && d in g.used && DirectParent(g, x, c) && DirectParent(g, x, d) ==> c == d
  }

  ghost predicate OneParent(g: Graph)
    requires Closure(g)
  {
    forall x, p, q :: x in g.used && DirectParent(g, p, x) && DirectParent(g, q, x) ==> p == q
  }

  /** Between x and a descendant of x there is a direct child of x. */
  lemma {:induction false} SomeDirectChild(g: Graph, x: nat, y: nat, q: nat) returns (c: nat)
    requires Closure(g) && Acyclic(g) && y in g.used && q in Anc(g, y) && q in g.used && x in Anc(g, q) && x != q
    ensures c in g.used && DirectParent(g, x, c) && c in Anc(g, y)
    decreases |Anc(g, q)|
  {
    if r :| r in Anc(g, q) && r != q && r != x && x in Anc(g, r) {
      StrictlyMore(g, r, q);
      assert Within(g, q, y);
      c := SomeDirectChild(g, x, y, r);
    } else {
      c := q;
    }
  }

  lemma {:induction false} OneChildChain(g: Graph, x: nat, y: nat, z: nat)
    requires Closure(g) && Acyclic(g) && OneChild(g) && y in g.used && z in g.used && x in Anc(g, y) && x in Anc(g, z)
    ensures y in Anc(g, z) || z in Anc(g, y)
    decreases |g.used - Anc(g, x)|
  {
    if x != y && x != z {
      var c := SomeDirectChild(g, x, y, y);
      var d := SomeDirectChild(g, x, z, z);
      assert c == d;
      StrictlyMore(g, x, c);
      assert g.used - Anc(g, c) < g.used - Anc(g, x) by { assert c in Anc(g, c) - Anc(g, x); }
      SmallerSet(g.used - Anc(g, c), g.used - Anc(g, x));
      OneChildChain(g, c, y, z);
    }
  }

  lemma SmallerSet(a: set<nat>, b: set<nat>)
    requires a < b
    ensures |a| < |b|
  {
    assert b == a + (b - a);
  }

  lemma {:induction false} OneParentChain(g: Graph, x: nat, y: nat, z: nat)
    requires Closure(g) && Acyclic(g) && OneParent(g) && x in g.used && y in Anc(g, x) && z in Anc(g, x)
    ensures y in Anc(g, z) || z in Anc(g, y)
    decreases |Anc(g, x)|
  {
    if x != y && x != z {
      var p := SomeDirectParent(g, x, y, y);
      var q := SomeDirectParent(g, x, z, z);
      assert p == q;
      StrictlyMore(g, p, x);
      OneParentChain(g, p, y, z);
    }
  }

  lemma RelationFacts(g: Graph, rev: bool)
    requires Closure(g)
    ensures RelationOk(Relation(g, rev), g.used)
  {
    var deps := Relation(g, rev);
    forall x, y | x in g.used && y in deps[x] ensures Inherits(deps, x, y) {
      if rev {
        forall w | w in deps[y] ensures w in deps[x] { assert Within(g, y, w); }
      } else {
        assert Within(g, y, x);
      }
    }
  }

  lemma TreeChains(g: Graph, rev: bool)
    requires Sound(g) && (if rev then OneParent(g) else OneChild(g))
    ensures RelationOk(Relation(g, rev), g.used) && Chains(Relation(g, rev), g.used)
  {
    RelationFacts(g, rev);
    var deps := Relation(g, rev);
    forall x, y, z | y in g.used && z in g.used && x in deps[y] && x in deps[z] ensures y in deps[z] || z in deps[y] {
      if rev { OneParentChain(g, x, y, z); } else { OneChildChain(g, x, y, z); }
    }
  }

  /** A forward pass is optimal if no transaction has two children, a backward one if none has two parents. */
  lemma PassOptimal(g: Graph, rev: bool, l: seq<nat>, s: set<nat>, r: real)
    requires Sound(g) && TopologicalOrder(g, l) && (if rev then OneParent(g) else OneChild(g)) && ClosedSet(g, s)
    ensures Ready(Fees(g, rev), Relation(g, rev), Turned(rev, l)) && TopologicalOrder(g, PassOutput(g, rev, l))
    ensures Level(g, PassOutput(g, rev, l), r) >= Excess(FeeRate(FeeRates(g), s), r)
  {
    var fr, deps, t := Fees(g, rev), Relation(g, rev), Turned(rev, l);
    PassTopological(g, rev, l);
    TreeChains(g, rev);
    TurnedElems(rev, l);
    var a := Rest(g, rev, s);
    assert Rest(g, rev, a) == s;
    assert ClosedUnder(deps, g.used, a) by {
      forall x, y | x in a && y in deps[x] ensures y in a { assert rev ==> x in Anc(g, y); }
    }
    TreeOptimal(fr, deps, t, a, Slope(rev, r));
    PassLevel(g, rev, l, r);
    Mirror(g, rev, a, r);
  }

  /** On a tree, with at most one child each or at most one parent each, the result is optimal. */
  lemma PostTreeOptimal(g: Graph, l: seq<nat>)
    requires Sound(g) && TopologicalOrder(g, l) && (OneChild(g) || OneParent(g))
    ensures OptimalOrder(g, PostOrder(g, l))
  {
    forall s: set<nat>, r: real | ClosedSet(g, s)
      ensures Level(g, PostOrder(g, l), r) >= Excess(FeeRate(FeeRates(g), s), r)
    {
      PostImproves(g, l, r);
      if OneChild(g) {
        PassOptimal(g, false, PassOutput(g, true, l), s, r);
      } else {
        PassOptimal(g, true, l, s, r);
      }
    }
    OptimalByLevels(g, PostOrder(g, l));
  }

  // ----- A leaf moved to the end -----

  /** h is g with the fee of t possibly increased. */
  ghost predicate FeeRaised(g: Graph, h: Graph, t: nat) {
    && h.used == g.used && |h.entries| == |g.entries| && t < |g.entries|
    && h.entries == g.entries[t := g.entries[t].(feerate := h.entries[t].feerate)]
    && h.entries[t].feerate.size == g.entries[t].feerate.size && h.entries[t].feerate.fee >= g.entries[t].feerate.fee
  }

  lemma {:induction false} RaisedFeeRate(fr: seq<FeeFrac>, up: seq<FeeFrac>, a: set<nat>)
    requires |fr| == |up| && forall i :: 0 <= i < |fr| ==> up[i].size == fr[i].size && up[i].fee >= fr[i].fee
    ensures FeeRate(up, a).size == FeeRate(fr, a).size && FeeRate(up, a).fee >= FeeRate(fr, a).fee
  {
    if fr != [] { RaisedFeeRate(fr[..|fr| - 1], up[..|fr| - 1], a); }
  }

  lemma RaisedExcess(x: FeeFrac, y: FeeFrac, r: real)
    requires x.size == y.size && x.fee <= y.fee
    ensures Excess(x, r) <= Excess(y, r)
  {
    ExcessPlus(x, FeeFrac(y.fee - x.fee, 0), r);
  }

  /** m is l with the transaction at position p moved to the end. */
  ghost predicate Moved(l: seq<nat>, p: nat, m: seq<nat>) {
    && p < |l| == |m| && m[|m| - 1] == l[p]
    && forall i {:trigger m[i]} :: 0 <= i < |l| - 1 ==> m[i] == l[if i < p then i else i + 1]
  }

  lemma MovedElems(l: seq<nat>, p: nat, m: seq<nat>)
    requires Moved(l, p, m)
    ensures Elems(m) == Elems(l)
  {
    forall x | x in Elems(l) ensures x in Elems(m) {
      var i :| 0 <= i < |l| && l[i] == x;
      assert m[if i < p then i else if i == p then |m| - 1 else i - 1] == x;
    }
  }

  lemma RaisedSound(g: Graph, h: Graph, t: nat)
    requires Sound(g) && FeeRaised(g, h, t)
    ensures Sound(h) && forall i :: i in g.used ==> Anc(h, i) == Anc(g, i)
  {
    assert forall i :: i in g.used ==>
        h.entries[i].ancestors == g.entries[i].ancestors && h.entries[i].descendants == g.entries[i].descendants;
    assert Closure(h) by {
      forall i, j | i in h.used && j in Anc(h, i) ensures Within(h, j, i) { assert Within(g, j, i); }
    }
  }

  lemma RaisedOrder(g: Graph, h: Graph, t: nat, l: seq<nat>)
    requires Sound(g) && FeeRaised(g, h, t) && TopologicalOrder(g, l)
    ensures Sound(h) && TopologicalOrder(h, l)
  {
    RaisedSound(g, h, t);
    forall a, b | 0 <= a < b < |l| ensures MayPrecede(h, l[a], l[b]) {
      assert MayPrecede(g, l[a], l[b]) && l[a] in Elems(l);
    }
  }

  lemma MovedTopological(g: Graph, l: seq<nat>, p: nat, m: seq<nat>)
    requires Sound(g) && TopologicalOrder(g, l) && Moved(l, p, m)
             && g.entries[(assert l[p] in Elems(l); l[p])].descendants == {l[p]}
    ensures TopologicalOrder(g, m)
  {
    MovedElems(l, p, m);
    forall a, b | 0 <= a < b < |m| ensures m[a] != m[b] && MayPrecede(g, m[a], m[b]) {
      var i := if a < p then a else a + 1;
      assert m[a] in Elems(l) && m[a] == l[i];
      if b < |m| - 1 { assert m[b] == l[if b < p then b else b + 1]; }
    }
  }

  /** What a backward pass over m meets after the moved transaction. */
  lemma MovedPart(l: seq<nat>, p: nat, m: seq<nat>, j: nat)
    requires Distinct(l) && Moved(l, p, m) && p < j <= |l|
    ensures var s, k := Reverse(m), |l| - j + 1;
      && Elems(s[1..k]) == Elems(l) - Elems(l[..j]) && s[0] == l[p]
      && forall i :: 1 <= i < k ==> s[i] == l[|l| - i]
  {
    var s, k := Reverse(m), |l| - j + 1;
    assert forall i :: 1 <= i < k ==> s[i] == l[|l| - i];
    forall x | x in Elems(s[1..k]) ensures x in Elems(l) - Elems(l[..j]) {
      var i :| 1 <= i < k && s[i] == x;
      assert l[|l| - i] in Elems(l);
    }
    forall x | x in Elems(l) - Elems(l[..j]) ensures x in Elems(s[1..k]) {
      assert l == l[..j] + l[j..];
      var i :| j <= i < |l| && l[i] == x;
      assert s[1..k][|l| - i - 1] == x;
    }
  }

  lemma NotAncestor(g: Graph, l: seq<nat>, a: nat, b: nat)
    requires Sound(g) && TopologicalOrder(g, l) && a < b < |l|
    ensures l[b] in g.used && l[a] !in g.entries[l[b]].descendants
  {
    assert l[a] in Elems(l) && l[b] in Elems(l);
  }

  lemma MovedWorth(g: Graph, l: seq<nat>, p: nat, m: seq<nat>, j: nat, r: real)
    requires Sound(g) && TopologicalOrder(g, l) && TopologicalOrder(g, m) && Moved(l, p, m) && p < j <= |l|
    ensures Ready(Fees(g, true), Relation(g, true), Turned(true, m))
    ensures Excess(FeeRate(Fees(g, true), g.used - Elems(l[..j])), r) <=
      Worth(Fees(g, true), PassGroups(Fees(g, true), Relation(g, true), Turned(true, m)), r)
  {
    var fr, deps, s, k := Fees(g, true), Relation(g, true), Reverse(m), |l| - j + 1;
    PassTopological(g, true, m);
    MovedPart(l, p, m, j);
    forall i | 1 <= i < k ensures s[0] !in deps[s[i]] { NotAncestor(g, l, p, |l| - i); }
    OthersBelow(fr, deps, s, k, r);
    SliceSum(fr, deps, s, k);
  }

  lemma SliceSum(fr: seq<FeeFrac>, deps: seq<set<nat>>, s: seq<nat>, k: nat)
    requires InOrder(deps, s) && InRange(fr, s) && 1 <= k <= |s|
    ensures InRange(fr, s[1..k]) && FeeSum(fr, s[1..k]) == FeeRate(fr, Elems(s[1..k]))
  {
    InOrderDistinct(deps, s);
    var t := s[1..k];
    forall i, j | 0 <= i < j < |t| ensures t[i] != t[j] { assert t[i] == s[i + 1] && t[j] == s[j + 1]; }
    FeeSumIsFeeRate(fr, t);
  }

  /**
   * A prefix of the old order that contains the moved transaction is below what a backward pass makes of the new one.
   */
  lemma MovedPrefix(g: Graph, l: seq<nat>, p: nat, m: seq<nat>, j: nat, r: real)
    requires Sound(g) && TopologicalOrder(g, l) && TopologicalOrder(g, m) && Moved(l, p, m) && p < j <= |l|
    ensures Ready(Fees(g, true), Relation(g, true), Turned(true, m)) && TopologicalOrder(g, PassOutput(g, true, m))
    ensures Level(g, PassOutput(g, true, m), r) >= Excess(FeeRate(FeeRates(g), Elems(l[..j])), r)
  {
    var a := Elems(l[..j]);
    MovedWorth(g, l, p, m, j, Slope(true, r));
    Mirror(g, true, g.used - a, r);
    assert a <= Elems(l);
    assert Rest(g, true, g.used - a) == a;
    PassLevel(g, true, m, r);
  }

  lemma MovedFront(l: seq<nat>, p: nat, m: seq<nat>, j: nat)
    requires Moved(l, p, m) && j <= p
    ensures m[..j] == l[..j]
  {
  }

  /** With the same fees, every prefix of the old order is below the result on the new one. */
  lemma MovedLevel(g: Graph, l: seq<nat>, p: nat, m: seq<nat>, j: nat, r: real)
    requires Sound(g) && TopologicalOrder(g, l) && TopologicalOrder(g, m) && Moved(l, p, m) && j <= |l|
    ensures Level(g, PostOrder(g, m), r) >= Excess(FeeRate(FeeRates(g), Elems(l[..j])), r)
  {
    PostImproves(g, m, r);
    if j <= p {
      MovedFront(l, p, m, j);
      LevelAbove(g, m, j, r);
    } else {
      MovedPrefix(g, l, p, m, j, r);
    }
  }

  /** Move a leaf to the end, increasing its fee or not, and postlinearize: the result is at least as
      good as the order there was. */
  lemma PostMovedLeaf(g: Graph, h: Graph, l: seq<nat>, p: nat, m: seq<nat>)
    requires Sound(g) && TopologicalOrder(g, l) && Moved(l, p, m) && FeeRaised(g, h, l[p])
             && g.entries[l[p]].descendants == {l[p]}
    ensures Sound(h) && TopologicalOrder(h, m)
    ensures AtLeastAsGood(DiagramOf(h, PostOrder(h, m)), DiagramOf(g, l))
  {
    MovedTopological(g, l, p, m);
    RaisedOrder(g, h, l[p], l);
    RaisedOrder(g, h, l[p], m);
    forall r: real ensures Level(h, PostOrder(h, m), r) >= Level(g, l, r) {
      var j := LevelAttained(g, l, r);
      var a := Elems(l[..j]);
      RaisedFeeRate(FeeRates(g), FeeRates(h), a);
      RaisedExcess(FeeRate(FeeRates(g), a), FeeRate(FeeRates(h), a), r);
      MovedLevel(h, l, p, m, j, r);
    }
    RaisedFeeRate(FeeRates(g), FeeRates(h), g.used);
    LevelsCompare(h, PostOrder(h, m), g, l);
  }
}
