/** Linearize, src/cluster_linearize.h:1334-1373, and what it guarantees about the order it returns. */
module Linearizing {
  import opened Basics
  import opened FeeFracs
  import opened Sums
  import opened Diagrams
  import opened Chunking
  import opened Trees
  import opened Forests
  import opened Merging
  import opened Improving
  import opened Loading
  import opened Orders
  import opened Progress
  import opened Output
  import opened DepGraphs
  import opened SpanningForest

  /** Every transaction once, and none before one of its ancestors. */
  ghost predicate TopologicalOrder(g: Graph, l: seq<nat>)
    requires Closure(g)
  {
    && Distinct(l) && Elems(l) == g.used
    && NoAncestorAfter(g, l)
  }

  /** A set of transactions with all their ancestors. */
  ghost predicate ClosedSet(g: Graph, s: set<nat>)
    requires Closure(g)
  {
    s <= g.used && forall x :: x in s ==> Anc(g, x) <= s
  }

  /** The feerate diagram of an order. */
  ghost function DiagramOf(g: Graph, l: seq<nat>): (cs: seq<FeeFrac>)
    requires Closure(g) && Positive(g) && TopologicalOrder(g, l)
    ensures Sized(cs) && InRange(FeeRates(g), l) && cs == ChunkFeeRates(FeeRates(g), l)
  {
    OrderInRange(g, l);
    ChunkFeeRates(FeeRates(g), l)
  }

  lemma OrderInRange(g: Graph, l: seq<nat>)
    requires Closure(g) && Positive(g) && Elems(l) <= g.used
    ensures InRange(FeeRates(g), l)
  {
    forall i | 0 <= i < |l| ensures l[i] < |g.entries| && FeeRates(g)[l[i]].size > 0 { assert l[i] in Elems(l); }
  }

  // ----- Direct parents generate all ancestors -----

  lemma StrictlyMore(g: Graph, p: nat, c: nat)
    requires Closure(g) && Acyclic(g) && c in g.used && p in Anc(g, c) && p != c
    ensures p in g.used && Anc(g, p) < Anc(g, c) && |Anc(g, p)| < |Anc(g, c)|
  {
    assert Within(g, p, c);
    assert c !in Anc(g, p);
    var more := Anc(g, c) - Anc(g, p);
    assert c in more && Anc(g, c) == Anc(g, p) + more;
  }

  /** Between c and a proper ancestor x there is a direct parent of c. */
  lemma {:induction false} SomeDirectParent(g: Graph, c: nat, x: nat, q: nat) returns (p: nat)
    requires Closure(g) && Acyclic(g) && c in g.used && q in Anc(g, c) && q != c && x in Anc(g, q)
    ensures DirectParent(g, p, c) && x in Anc(g, p)
    decreases |Anc(g, c)| - |Anc(g, q)|
  {
    StrictlyMore(g, q, c);
    if r :| r in Anc(g, c) && r != c && r != q && q in Anc(g, r) {
      StrictlyMore(g, q, r);
      StrictlyMore(g, r, c);
      p := SomeDirectParent(g, c, x, r);
    } else {
      p := q;
    }
  }

  /** A set closed under direct parents contains the ancestors of its members. */
  lemma {:induction false} ClosedUnderParents(g: Graph, k: Cluster, s: set<nat>, c: nat)
    requires Closure(g) && Acyclic(g) && Describes(g, k) && AncestorClosed(k, s) && c in s
    ensures Anc(g, c) <= s
    decreases |Anc(g, c)|
  {
    forall x | x in Anc(g, c) ensures x in s {
      if x != c {
        assert c in g.used;
        assert x in Anc(g, x);
        var p := SomeDirectParent(g, c, x, x);
        assert Dep(p, c) in k.deps;
        var i :| 0 <= i < |k.deps| && k.deps[i] == Dep(p, c);
        assert p in s;
        StrictlyMore(g, p, c);
        ClosedUnderParents(g, k, s, p);
      }
    }
  }

  lemma ClosedIff(g: Graph, k: Cluster, s: set<nat>)
    requires Closure(g) && Acyclic(g) && Describes(g, k)
    ensures ClosedSet(g, s) <==> AncestorClosed(k, s)
  {
    if AncestorClosed(k, s) {
      forall c | c in s ensures Anc(g, c) <= s { ClosedUnderParents(g, k, s, c); }
    }
    if ClosedSet(g, s) {
      forall i | 0 <= i < |k.deps| && k.deps[i].child in s ensures k.deps[i].parent in s {
        assert k.deps[i] in k.deps;
      }
    }
  }

  lemma OrderOfParents(g: Graph, k: Cluster, l: seq<nat>, i: nat, a: nat, b: nat)
    requires Closure(g) && Acyclic(g) && Describes(g, k) && TopologicalOrder(g, l)
    requires i < |k.deps| && a < |l| && b < |l| && l[a] == k.deps[i].parent && l[b] == k.deps[i].child
    ensures a < b
  {
    assert k.deps[i] in k.deps;
    assert DirectParent(g, l[a], l[b]);
  }

  lemma OrderOfAncestors(g: Graph, k: Cluster, l: seq<nat>, a: nat, b: nat)
    requires Closure(g) && Acyclic(g) && Describes(g, k) && ClusterOk(k) && IsLinearization(k, l) && a < b < |l|
    ensures MayPrecede(g, l[a], l[b])
  {
    PrefixClosed(k, l, a + 1);
    assert l[..a + 1][a] == l[a];
    assert l[a] in Elems(l[..a + 1]);
    ClosedUnderParents(g, k, Elems(l[..a + 1]), l[a]);
  }

  lemma OrderIff(g: Graph, k: Cluster, l: seq<nat>)
    requires Closure(g) && Acyclic(g) && Describes(g, k) && ClusterOk(k)
    ensures TopologicalOrder(g, l) <==> IsLinearization(k, l)
  {
    if IsLinearization(k, l) {
      forall a, b | 0 <= a < b < |l| ensures MayPrecede(g, l[a], l[b]) { OrderOfAncestors(g, k, l, a, b); }
    }
    if TopologicalOrder(g, l) {
      forall i, a, b | 0 <= i < |k.deps| && 0 <= a < |l| && 0 <= b < |l|
        ensures l[a] == k.deps[i].parent && l[b] == k.deps[i].child ==> a < b
      {
        if l[a] == k.deps[i].parent && l[b] == k.deps[i].child { OrderOfParents(g, k, l, i, a, b); }
      }
    }
  }

  // ----- From the gains of a state to the diagram of its output -----

  /** The diagram of the output is on or above every supporting line of the chunks of the state. */
  lemma OutputAbove(k: Cluster, f: Forest, lin: seq<nat>, groups: seq<seq<nat>>, r: real)
    requires ClusterOk(k) && Shaped(k, f) && Grouped(k.fr, groups) && Flatten(groups) == lin
             && NonIncreasing(FeeSums(k.fr, groups))
    requires Support(FeeSums(k.fr, groups), r) == TotalGain(k, f, false, r, k.txs) && InRange(k.fr, lin)
    ensures Support(ChunkFeeRates(k.fr, lin), r) >= TotalGain(k, f, false, r, k.txs)
  {
    var j := SupportIsPrefix(k.fr, groups, r);
    PrefixBelowChunks(k.fr, Chunks(k.fr, lin), j, r);
  }

  /** An order whose prefixes are all below the supporting lines of the state has a diagram nowhere
      above that of the output. */
  lemma OutputBeats(k: Cluster, f: Forest, lin: seq<nat>, l: seq<nat>)
    requires ClusterOk(k) && Shaped(k, f) && IsLinearization(k, lin) && IsLinearization(k, l) && InRange(k.fr, lin)
             && InRange(k.fr, l)
    requires forall r: real :: Support(ChunkFeeRates(k.fr, lin), r) >= TotalGain(k, f, false, r, k.txs)
    requires PrefixesBelow(k, f, l, |l|, k.txs)
    ensures AtLeastAsGood(ChunkFeeRates(k.fr, lin), ChunkFeeRates(k.fr, l))
  {
    var cs, ds := ChunkFeeRates(k.fr, lin), ChunkFeeRates(k.fr, l);
    forall r: real ensures Support(cs, r) >= Support(ds, r) {
      var j := SupportIsPrefix(k.fr, Chunks(k.fr, l), r);
      assert Excess(FeeSum(k.fr, l[..j]), r) <= TotalGain(k, f, false, r, k.txs);
    }
    FeeSumIsFeeRate(k.fr, lin);
    FeeSumIsFeeRate(k.fr, l);
    DominatesBySupport(cs, ds);
  }

  /** In an optimal state, the prefixes of every order are below the supporting lines. */
  lemma OptimalPrefixes(k: Cluster, f: Forest, l: seq<nat>)
    requires Consistent(k, f) && Queued(k, f, [], {}) && IsLinearization(k, l) && InRange(k.fr, l)
    ensures PrefixesBelow(k, f, l, |l|, k.txs)
  {
    NothingQueued(k, f);
    forall r: real, m: nat | m <= |l| ensures Excess(FeeSum(k.fr, l[..m]), r) <= TotalGain(k, f, false, r, k.txs) {
      PrefixClosed(k, l, m);
      FeeSumIsFeeRate(k.fr, l[..m]);
      OptimalState(k, f, Elems(l[..m]), r);
    }
  }

  lemma NothingQueued(k: Cluster, f: Forest)
    requires Queued(k, f, [], {})
    ensures forall x {:trigger ChunkOptimal(k, f, x)} :: x in k.txs ==> ChunkOptimal(k, f, x)
  {
    forall x | x in k.txs ensures ChunkOptimal(k, f, x) { assert ChunkOf(k, f, x).txn * {} == {}; }
  }

  /** The set s, as a point, is on or below the diagram of the order. */
  ghost predicate OnOrBelow(g: Graph, s: set<nat>, l: seq<nat>)
    requires Closure(g) && Positive(g) && TopologicalOrder(g, l)
  {
    Height(DiagramOf(g, l), FeeRate(FeeRates(g), s).size as real) >= FeeRate(FeeRates(g), s).fee as real
  }

  /** In an optimal state, every ancestor-closed set is on or below the diagram of the output. */
  lemma OptimalSets(k: Cluster, f: Forest, lin: seq<nat>, s: set<nat>)
    requires Consistent(k, f) && Queued(k, f, [], {}) && AncestorClosed(k, s) && IsLinearization(k, lin)
             && InRange(k.fr, lin)
    requires forall r: real :: Support(ChunkFeeRates(k.fr, lin), r) >= TotalGain(k, f, false, r, k.txs)
    ensures Height(ChunkFeeRates(k.fr, lin), FeeRate(k.fr, s).size as real) >= FeeRate(k.fr, s).fee as real
  {
    NothingQueued(k, f);
    var cs := ChunkFeeRates(k.fr, lin);
    forall r: real ensures Support(cs, r) >= Excess(FeeRate(k.fr, s), r) { OptimalState(k, f, s, r); }
    SizePositive(k.fr, s);
    SizeMonotone(k.fr, s, k.txs);
    FeeSumIsFeeRate(k.fr, lin);
    PointBelow(cs, FeeRate(k.fr, s));
  }

  // ----- The driver -----

  ghost function Ranks(g: Graph): (rank: seq<nat>)
    ensures |rank| == |g.entries| && forall i :: 0 <= i < |rank| ==> rank[i] == |Anc(g, i)|
  {
    seq(|g.entries|, i requires 0 <= i < |g.entries| => |Anc(g, i)|)
  }

  lemma ViewOfForest(g: Graph, k: Cluster, f: Forest, v: View, childDeps: seq<seq<nat>>)
    requires Closure(g) && Acyclic(g) && Describes(g, k) && Consistent(k, f) && Topological(k, f, k.txs)
    requires LayoutOk(k.txs, k.deps, |k.fr|, v.parents, v.children, childDeps)
    requires v.txs == k.txs && v.rep == f.rep && v.chunk == f.chunk
    ensures ViewOk(k, f, v, Ranks(g))
  {
    forall d | d in k.deps ensures d.parent in v.txs && d.child in v.txs && Ranks(g)[d.parent] < Ranks(g)[d.child] {
      StrictlyMore(g, d.parent, d.child);
    }
  }

  lemma AllQueued(k: Cluster, f: Forest, queue: seq<nat>)
    requires Consistent(k, f) && Elems(queue) == Reps(k, f)
    ensures Queued(k, f, queue, {}) && forall j :: 0 <= j < |queue| ==> queue[j] in k.txs
  {
    forall x | x in k.txs ensures f.rep[x] in queue {
      RepInChunk(k, f, x);
      assert f.rep[x] in Elems(queue);
    }
    forall j | 0 <= j < |queue| ensures queue[j] in k.txs { assert queue[j] in Elems(queue); }
  }

  /** Linearize up to its output: a topological state at least as good as the loaded order, and optimal
      if nothing is left to try. */
  method Optimize(forest: SpanningForest, maxIterations: nat) returns (optimal: bool)
    requires forest.Valid() && Topological(forest.K(), forest.F(), forest.txs) && forest.suboptimal == []
    modifies forest
    ensures forest.Valid() && Topological(forest.K(), forest.F(), forest.txs)
    ensures AsGood(forest.K(), old(forest.F()), forest.F())
    ensures optimal ==> Queued(forest.K(), forest.F(), [], {})
    ensures optimal || forest.cost >= maxIterations
  {
    optimal := false;
    if forest.cost < maxIterations {
      forest.QueueAll();
      AllQueued(forest.K(), forest.F(), forest.suboptimal);
      var first := true;
      while first || forest.cost < maxIterations
        invariant forest.Valid() && forest.QueueOk() && Topological(forest.K(), forest.F(), forest.txs)
        invariant first ==> forest.cost < maxIterations
        invariant !optimal
        invariant Queued(forest.K(), forest.F(), forest.suboptimal, {})
                  && AsGood(forest.K(), old(forest.F()), forest.F())
        decreases if forest.cost < maxIterations then maxIterations - forest.cost else 0, |forest.suboptimal|
      {
        first := false;
        var more := forest.OptimizeStep();
        if !more {
          optimal := true;
          break;
        }
      }
    }
  }

  /** The state that Linearize starts from: the given order loaded, or any topological state. */
  method Load(graph: DepGraph, oldLin: seq<nat>) returns (forest: SpanningForest)
    requires Closure(graph.Value()) && Acyclic(graph.Value()) && Positive(graph.Value())
    requires oldLin == [] || TopologicalOrder(graph.Value(), oldLin)
    ensures fresh(forest) && forest.Valid() && Describes(graph.Value(), forest.K())
    ensures Topological(forest.K(), forest.F(), forest.txs) && forest.suboptimal == []
    ensures oldLin != [] ==> LoadedUpTo(forest.K(), forest.F(), oldLin, |oldLin|)
  {
    forest := new SpanningForest(graph);
    if oldLin != [] {
      OrderIff(graph.Value(), forest.K(), oldLin);
      forest.LoadLinearization(oldLin);
    } else {
      forest.MakeTopological();
    }
  }

  /** Find a linearization of the graph, or improve the one given. */
  method Linearize(graph: DepGraph, maxIterations: nat, oldLin: seq<nat>)
    returns (lin: seq<nat>, optimal: bool, cost: nat, ghost k: Cluster, ghost f: Forest, ghost history: seq<Step>)
    requires Closure(graph.Value()) && Acyclic(graph.Value()) && Positive(graph.Value())
    requires oldLin == [] || TopologicalOrder(graph.Value(), oldLin)
    ensures TopologicalOrder(graph.Value(), lin)
    ensures oldLin != [] ==> AtLeastAsGood(DiagramOf(graph.Value(), lin), DiagramOf(graph.Value(), oldLin))
    ensures optimal ==> forall l :: TopologicalOrder(graph.Value(), l) ==>
      AtLeastAsGood(DiagramOf(graph.Value(), lin), DiagramOf(graph.Value(), l))
    ensures optimal ==> forall s :: ClosedSet(graph.Value(), s) ==> OnOrBelow(graph.Value(), s, lin)
    ensures optimal || cost >= maxIterations
    ensures Describes(graph.Value(), k) && LeadsTo(k, history, f) && cost == Work(history)
    ensures Shaped(k, f) && exists groups :: AllChunks(k, f, groups) && Flatten(groups) == lin
  {
    ghost var g := graph.Value();
    var forest := Load(graph, oldLin);
    k := forest.K();
    ghost var start := forest.F();
    optimal := Optimize(forest, maxIterations);
    f := forest.F();
    ghost var groups := [];
    var v := View(forest.txs, forest.parents, forest.children, forest.rep, forest.chunk);
    ViewOfForest(g, k, f, v, forest.childDeps);
    lin, groups := GetLinearization(v, k, f, Ranks(g));
    cost, history := forest.cost, forest.history;
    Guarantees(g, k, start, f, lin, groups, oldLin, optimal);
  }

  /** What the output guarantees, given the state it was made from. */
  lemma Guarantees(g: Graph, k: Cluster, start: Forest, f: Forest, lin: seq<nat>, groups: seq<seq<nat>>,
                   oldLin: seq<nat>, optimal: bool)
    requires Closure(g) && Acyclic(g) && Positive(g) && Describes(g, k)
    requires Consistent(k, start) && Consistent(k, f) && AsGood(k, start, f) && IsLinearization(k, lin)
    requires Grouped(k.fr, groups) && Flatten(groups) == lin && NonIncreasing(FeeSums(k.fr, groups))
    requires forall r: real :: Support(FeeSums(k.fr, groups), r) == TotalGain(k, f, false, r, k.txs)
    requires oldLin != [] ==> TopologicalOrder(g, oldLin) && LoadedUpTo(k, start, oldLin, |oldLin|)
    requires optimal ==> Queued(k, f, [], {})
    ensures TopologicalOrder(g, lin)
    ensures oldLin != [] ==> AtLeastAsGood(DiagramOf(g, lin), DiagramOf(g, oldLin))
    ensures optimal ==> forall l :: TopologicalOrder(g, l) ==> AtLeastAsGood(DiagramOf(g, lin), DiagramOf(g, l))
    ensures optimal ==> forall s :: ClosedSet(g, s) ==> OnOrBelow(g, s, lin)
  {
    OrderIff(g, k, lin);
    LinearizationInRange(k, lin);
    forall r: real ensures Support(ChunkFeeRates(k.fr, lin), r) >= TotalGain(k, f, false, r, k.txs) {
      OutputAbove(k, f, lin, groups, r);
    }
    if oldLin != [] {
      OrderIff(g, k, oldLin);
      assert oldLin[..|oldLin|] == oldLin;
      OutputBeats(k, f, lin, oldLin);
    }
    if optimal {
      forall l | TopologicalOrder(g, l) ensures AtLeastAsGood(DiagramOf(g, lin), DiagramOf(g, l)) {
        OrderIff(g, k, l);
        LinearizationInRange(k, l);
        OptimalPrefixes(k, f, l);
        OutputBeats(k, f, lin, l);
      }
      forall s | ClosedSet(g, s) ensures OnOrBelow(g, s, lin) {
        ClosedIff(g, k, s);
        OptimalSets(k, f, lin, s);
      }
    }
  }
}
