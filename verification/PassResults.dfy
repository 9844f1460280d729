/** What the passes of PostLinearize, src/cluster_linearize.h:1374-1419, guarantee about a linearization. */
module PassResults {
  import opened Basics
  import opened FeeFracs
  import opened Sums
  import opened Diagrams
  import opened Chunking
  import opened Orders
  import opened DepGraphs
  import opened SpanningForest
  import opened Linearizing
  import opened Passes
  import opened PassGains

  ghost function Reverse(s: seq<nat>): (r: seq<nat>)
    ensures |r| == |s| && forall i :: 0 <= i < |r| ==> r[i] == s[|s| - 1 - i]
  {
    seq(|s|, i requires 0 <= i < |s| => s[|s| - 1 - i])
  }

  /** A backward pass goes over the list from its end. */
  ghost function Turned(rev: bool, s: seq<nat>): seq<nat> {
    if rev then Reverse(s) else s
  }

  /** In a backward pass fees are negated, and descendants take the place of ancestors. */
  function Signed(rev: bool, f: FeeFrac): FeeFrac {
    if rev then FeeFrac(-f.fee, f.size) else f
  }

  ghost function Fees(g: Graph, rev: bool): (fr: seq<FeeFrac>)
    ensures |fr| == |g.entries| && forall i :: 0 <= i < |fr| ==> fr[i] == Signed(rev, g.entries[i].feerate)
  {
    seq(|g.entries|, i requires 0 <= i < |g.entries| => Signed(rev, g.entries[i].feerate))
  }

  ghost function Relation(g: Graph, rev: bool): (d: seq<set<nat>>)
    ensures |d| == |g.entries|
            && forall i :: 0 <= i < |d| ==> d[i] == if rev then g.entries[i].descendants else g.entries[i].ancestors
  {
    seq(|g.entries|, i requires 0 <= i < |g.entries| =>
        if rev then g.entries[i].descendants else g.entries[i].ancestors)
  }

  /** The linearization after a pass. */
  ghost function PassOutput(g: Graph, rev: bool, l: seq<nat>): seq<nat>
    requires Ready(Fees(g, rev), Relation(g, rev), Turned(rev, l))
  {
    Turned(rev, Flatten(PassGroups(Fees(g, rev), Relation(g, rev), Turned(rev, l))))
  }

  ghost predicate Sound(g: Graph) {
    Closure(g) && Acyclic(g) && Positive(g)
  }

  lemma TurnedElems(rev: bool, l: seq<nat>)
    ensures Elems(Turned(rev, l)) == Elems(l)
  {
    forall x | x in Elems(l) ensures x in Elems(Turned(rev, l)) {
      var i :| 0 <= i < |l| && l[i] == x;
      assert Turned(rev, l)[if rev then |l| - 1 - i else i] == x;
    }
  }

  lemma TurnedReady(g: Graph, rev: bool, l: seq<nat>)
    requires Sound(g) && Elems(l) == g.used
    ensures Ready(Fees(g, rev), Relation(g, rev), Turned(rev, l))
  {
    TurnedElems(rev, l);
    var s := Turned(rev, l);
    forall i | 0 <= i < |s| ensures s[i] < |g.entries| && Fees(g, rev)[s[i]].size > 0 { assert s[i] in Elems(s); }
  }

  /** x comes before y, unless it depends on y: seen from either end. */
  lemma FollowTurned(g: Graph, x: nat, y: nat)
    requires Sound(g) && x in g.used && y in g.used
    ensures MayFollow(Relation(g, false), x, y) <==> x != y && MayPrecede(g, x, y)
    ensures MayFollow(Relation(g, true), y, x) <==> x != y && MayPrecede(g, x, y)
  {
  }

  lemma TurnedInOrder(g: Graph, rev: bool, l: seq<nat>)
    requires Sound(g) && TopologicalOrder(g, l)
    ensures InOrder(Relation(g, rev), Turned(rev, l))
  {
    var s, deps := Turned(rev, l), Relation(g, rev);
    TurnedReady(g, rev, l);
    forall a, b | 0 <= a < b < |s| ensures MayFollow(deps, s[a], s[b]) {
      var i, j := if rev then |l| - 1 - b else a, if rev then |l| - 1 - a else b;
      assert l[i] in Elems(l) && l[j] in Elems(l);
      FollowTurned(g, l[i], l[j]);
    }
  }

  lemma InOrderTurned(g: Graph, rev: bool, l: seq<nat>)
    requires Sound(g) && Elems(l) == g.used && InOrder(Relation(g, rev), Turned(rev, l))
    ensures TopologicalOrder(g, l)
  {
    var s, deps := Turned(rev, l), Relation(g, rev);
    forall i, j | 0 <= i < j < |l| ensures l[i] != l[j] && MayPrecede(g, l[i], l[j]) {
      var a, b := if rev then |l| - 1 - j else i, if rev then |l| - 1 - i else j;
      assert l[i] in Elems(l) && l[j] in Elems(l);
      assert MayFollow(deps, s[a], s[b]);
      FollowTurned(g, l[i], l[j]);
    }
  }

  /** A pass keeps the linearization topological. */
  lemma PassTopological(g: Graph, rev: bool, l: seq<nat>)
    requires Sound(g) && TopologicalOrder(g, l)
    ensures Ready(Fees(g, rev), Relation(g, rev), Turned(rev, l)) && InOrder(Relation(g, rev), Turned(rev, l))
    ensures TopologicalOrder(g, PassOutput(g, rev, l)) && |PassOutput(g, rev, l)| == |l|
  {
    var fr, deps, s := Fees(g, rev), Relation(g, rev), Turned(rev, l);
    TurnedReady(g, rev, l);
    TurnedInOrder(g, rev, l);
    PassResult(fr, deps, s);
    var f, out := Flatten(PassGroups(fr, deps, s)), PassOutput(g, rev, l);
    TurnedElems(rev, l);
    TurnedElems(rev, f);
    assert Turned(rev, out) == f;
    InOrderTurned(g, rev, out);
    SameLength(out, l);
  }

  lemma {:induction false} SameLength(k: seq<nat>, l: seq<nat>)
    requires Distinct(k) && Distinct(l) && Elems(k) == Elems(l)
    ensures |k| == |l|
  {
    DistinctLength(k);
    DistinctLength(l);
  }

  lemma {:induction false} DistinctLength(l: seq<nat>)
    requires Distinct(l)
    ensures |Elems(l)| == |l|
  {
    if l == [] {
      assert Elems(l) == {};
    } else {
      var n := |l| - 1;
      DistinctLength(l[..n]);
      ElemsNext(l, n);
      assert l[..n + 1] == l;
    }
  }

  // ----- Backward and forward -----

  ghost function Slope(rev: bool, r: real): real {
    if rev then -r else r
  }

  /** What is added to compare sets taken from the back with sets taken from the front. */
  ghost function Base(g: Graph, rev: bool, r: real): real {
    if rev then Excess(FeeRate(FeeRates(g), g.used), r) else 0.0
  }

  ghost function Rest(g: Graph, rev: bool, a: set<nat>): set<nat> {
    if rev then g.used - a else a
  }

  lemma {:induction false} NegatedFees(fr: seq<FeeFrac>, neg: seq<FeeFrac>, a: set<nat>)
    requires |fr| == |neg| && forall i :: 0 <= i < |fr| ==> neg[i] == Signed(true, fr[i])
    ensures FeeRate(neg, a) == Signed(true, FeeRate(fr, a))
  {
    if fr != [] { NegatedFees(fr[..|fr| - 1], neg[..|fr| - 1], a); }
  }

  lemma MirrorExcess(x: FeeFrac, n: FeeFrac, y: FeeFrac, t: FeeFrac, r: real)
    requires n == Signed(true, x) && t == Plus(x, y)
    ensures Excess(n, -r) + Excess(t, r) == Excess(y, r)
  {
    ExcessPlus(x, y, r);
    assert (-r) * (x.size as real) == -(r * (x.size as real));
  }

  lemma Complement(g: Graph, a: set<nat>)
    requires a <= g.used
    ensures FeeRate(Fees(g, true), a) == Signed(true, FeeRate(FeeRates(g), a))
    ensures FeeRate(FeeRates(g), g.used) == Plus(FeeRate(FeeRates(g), a), FeeRate(FeeRates(g), g.used - a))
  {
    NegatedFees(FeeRates(g), Fees(g, true), a);
    assert a + (g.used - a) == g.used;
    FeeRateUnion(FeeRates(g), a, g.used - a);
  }

  /** A set above a feerate in a backward pass is the complement below it, and the other way around. */
  lemma Mirror(g: Graph, rev: bool, a: set<nat>, r: real)
    requires a <= g.used
    ensures Excess(FeeRate(Fees(g, rev), a), Slope(rev, r)) + Base(g, rev, r) ==
            Excess(FeeRate(FeeRates(g), Rest(g, rev, a)), r)
  {
    var fr := FeeRates(g);
    if rev {
      Complement(g, a);
      MirrorExcess(FeeRate(fr, a), FeeRate(Fees(g, true), a), FeeRate(fr, g.used - a), FeeRate(fr, g.used), r);
    } else {
      assert Fees(g, false) == fr;
    }
  }

  lemma TurnedPart(g: Graph, rev: bool, f: seq<nat>, j: nat)
    requires Distinct(f) && Elems(f) == g.used && j <= |f|
    ensures Rest(g, rev, Elems(f[..j])) == Elems(Turned(rev, f)[..if rev then |f| - j else j])
  {
    if rev {
      var k := |f| - j;
      var l := Reverse(f);
      forall x | x in g.used && x !in Elems(f[..j]) ensures x in Elems(l[..k]) {
        assert f == f[..j] + f[j..];
        var i :| j <= i < |f| && f[i] == x;
        assert l[..k][|f| - 1 - i] == x;
      }
      forall x | x in Elems(l[..k]) ensures x in g.used && x !in Elems(f[..j]) {
        var i :| 0 <= i < k && l[i] == x;
        assert f[|f| - 1 - i] == x && x in Elems(f);
      }
    }
  }

  // ----- Diagrams by their supporting lines -----

  ghost function Level(g: Graph, l: seq<nat>, r: real): real
    requires Sound(g) && TopologicalOrder(g, l)
  {
    Support(DiagramOf(g, l), r)
  }

  lemma PrefixSum(g: Graph, l: seq<nat>, j: nat)
    requires Sound(g) && TopologicalOrder(g, l) && j <= |l|
    ensures InRange(FeeRates(g), l[..j]) && FeeSum(FeeRates(g), l[..j]) == FeeRate(FeeRates(g), Elems(l[..j]))
  {
    OrderInRange(g, l);
    FeeSumIsFeeRate(FeeRates(g), l[..j]);
  }

  lemma LevelAbove(g: Graph, l: seq<nat>, j: nat, r: real)
    requires Sound(g) && TopologicalOrder(g, l) && j <= |l|
    ensures Level(g, l, r) >= Excess(FeeRate(FeeRates(g), Elems(l[..j])), r)
  {
    OrderInRange(g, l);
    PrefixSum(g, l, j);
    PrefixBelowChunks(FeeRates(g), Chunks(FeeRates(g), l), j, r);
  }

  lemma LevelAttained(g: Graph, l: seq<nat>, r: real) returns (j: nat)
    requires Sound(g) && TopologicalOrder(g, l)
    ensures j <= |l| && Level(g, l, r) == Excess(FeeRate(FeeRates(g), Elems(l[..j])), r)
  {
    OrderInRange(g, l);
    j := SupportIsPrefix(FeeRates(g), Chunks(FeeRates(g), l), r);
    PrefixSum(g, l, j);
  }

  /** Higher supporting lines make a better diagram; fees may also have gone up. */
  lemma LevelsCompare(g: Graph, l: seq<nat>, h: Graph, m: seq<nat>)
    requires Sound(g) && Sound(h) && TopologicalOrder(g, l) && TopologicalOrder(h, m)
    requires var a, b := FeeRate(FeeRates(g), g.used), FeeRate(FeeRates(h), h.used); a.size == b.size && a.fee >= b.fee
    requires forall r: real :: Level(g, l, r) >= Level(h, m, r)
    ensures AtLeastAsGood(DiagramOf(g, l), DiagramOf(h, m))
  {
    PrefixSum(g, l, |l|);
    PrefixSum(h, m, |m|);
    assert l[..|l|] == l && m[..|m|] == m;
    forall r: real ensures Support(DiagramOf(g, l), r) >= Support(DiagramOf(h, m), r) {
      assert Level(g, l, r) >= Level(h, m, r);
    }
    DominatesBySupport(DiagramOf(g, l), DiagramOf(h, m));
  }

  /** The groups of a pass, and their worth, show in the diagram of its output. */
  lemma PassLevel(g: Graph, rev: bool, l: seq<nat>, r: real)
    requires Sound(g) && TopologicalOrder(g, l)
    ensures Ready(Fees(g, rev), Relation(g, rev), Turned(rev, l)) && TopologicalOrder(g, PassOutput(g, rev, l))
    ensures Level(g, PassOutput(g, rev, l), r) >=
      Worth(Fees(g, rev), PassGroups(Fees(g, rev), Relation(g, rev), Turned(rev, l)), Slope(rev, r)) + Base(g, rev, r)
  {
    var fr, deps, s := Fees(g, rev), Relation(g, rev), Turned(rev, l);
    PassTopological(g, rev, l);
    PassResult(fr, deps, s);
    var groups, out := PassGroups(fr, deps, s), PassOutput(g, rev, l);
    var f := Flatten(groups);
    PassSorted(fr, deps, groups);
    WorthIsSupport(fr, groups, Slope(rev, r));
    var j := SupportIsPrefix(fr, groups, Slope(rev, r));
    InOrderDistinct(deps, f);
    FeeSumIsFeeRate(fr, f[..j]);
    TurnedElems(rev, l);
    assert Elems(f[..j]) <= Elems(f);
    Mirror(g, rev, Elems(f[..j]), r);
    TurnedPart(g, rev, f, j);
    LevelAbove(g, out, if rev then |f| - j else j, r);
  }

  lemma PassSorted(fr: seq<FeeFrac>, deps: seq<set<nat>>, groups: seq<seq<nat>>)
    requires PassOk(fr, deps, groups)
    ensures Grouped(fr, groups) && NonIncreasing(FeeSums(fr, groups))
  {
    assert forall i :: 0 <= i < |groups| ==> GroupOk(fr, deps, groups[i]);
    var cs := FeeSums(fr, groups);
    forall i, j | 0 <= i < j < |cs| ensures Rate(cs[i]) >= Rate(cs[j]) {
      assert GroupRate(fr, groups[i]) >= GroupRate(fr, groups[j]);
    }
  }

  /** No prefix of the linearization, seen from either end, is above the groups of a pass. */
  lemma PrefixBelowPass(g: Graph, rev: bool, l: seq<nat>, k: nat, r: real)
    requires Sound(g) && TopologicalOrder(g, l) && k <= |l|
    ensures Ready(Fees(g, rev), Relation(g, rev), Turned(rev, l))
    ensures Excess(FeeRate(FeeRates(g), Elems(l[..k])), r) <=
      Worth(Fees(g, rev), PassGroups(Fees(g, rev), Relation(g, rev), Turned(rev, l)), Slope(rev, r)) + Base(g, rev, r)
  {
    var fr, deps, s := Fees(g, rev), Relation(g, rev), Turned(rev, l);
    var j := if rev then |l| - k else k;
    PassTopological(g, rev, l);
    PassResult(fr, deps, s);
    InOrderDistinct(deps, s);
    TurnedElems(rev, l);
    FeeSumIsFeeRate(fr, s[..j]);
    assert Elems(s[..j]) <= Elems(s);
    Mirror(g, rev, Elems(s[..j]), r);
    TurnedPart(g, rev, s, j);
    assert Turned(rev, s) == l;
  }

  /** A pass never lowers the diagram. */
  lemma PassImproves(g: Graph, rev: bool, l: seq<nat>, r: real)
    requires Sound(g) && TopologicalOrder(g, l)
    ensures Ready(Fees(g, rev), Relation(g, rev), Turned(rev, l)) && TopologicalOrder(g, PassOutput(g, rev, l))
    ensures Level(g, PassOutput(g, rev, l), r) >= Level(g, l, r)
  {
    PassLevel(g, rev, l, r);
    var k := LevelAttained(g, l, r);
    PrefixBelowPass(g, rev, l, k, r);
  }

  // ----- The guarantees of the two passes together -----

  /** A backward pass and then a forward one. */
  ghost function PostOrder(g: Graph, l: seq<nat>): (out: seq<nat>)
    requires Sound(g) && TopologicalOrder(g, l)
    ensures TopologicalOrder(g, out)
  {
    PassTopological(g, true, l);
    var mid := PassOutput(g, true, l);
    PassTopological(g, false, mid);
    PassOutput(g, false, mid)
  }

  lemma PostImproves(g: Graph, l: seq<nat>, r: real)
    requires Sound(g) && TopologicalOrder(g, l)
    ensures Ready(Fees(g, true), Relation(g, true), Turned(true, l)) && TopologicalOrder(g, PassOutput(g, true, l))
    ensures Level(g, PostOrder(g, l), r) >= Level(g, PassOutput(g, true, l), r) >= Level(g, l, r)
  {
    PassImproves(g, true, l, r);
    PassImproves(g, false, PassOutput(g, true, l), r);
  }

  /** The result is at least as good as what was given. */
  lemma PostNotWorse(g: Graph, l: seq<nat>)
    requires Sound(g) && TopologicalOrder(g, l)
    ensures AtLeastAsGood(DiagramOf(g, PostOrder(g, l)), DiagramOf(g, l))
  {
    forall r: real ensures Level(g, PostOrder(g, l), r) >= Level(g, l, r) { PostImproves(g, l, r); }
    LevelsCompare(g, PostOrder(g, l), g, l);
  }

  ghost function ChunksOf(g: Graph, l: seq<nat>): seq<seq<nat>>
    requires Sound(g) && TopologicalOrder(g, l)
  {
    OrderInRange(g, l);
    Chunks(FeeRates(g), l)
  }

  /** The chunks of the result are connected. */
  lemma PostConnected(g: Graph, l: seq<nat>, c: seq<nat>)
    requires Sound(g) && TopologicalOrder(g, l)
    requires c in ChunksOf(g, PostOrder(g, l))
    ensures Linked(Relation(g, false), Elems(c))
  {
    PassTopological(g, true, l);
    var mid := PassOutput(g, true, l);
    PassTopological(g, false, mid);
    var fr, deps := Fees(g, false), Relation(g, false);
    assert fr == FeeRates(g);
    PassResult(fr, deps, mid);
    var groups := PassGroups(fr, deps, mid);
    PassSorted(fr, deps, groups);
    ChunkingUnique(fr, groups, Chunks(fr, Flatten(groups)), Flatten(groups));
    var i :| 0 <= i < |groups| && groups[i] == c;
    assert GroupOk(fr, deps, groups[i]);
  }
}
