/** The spanning-forest linearization algorithm itself, src/cluster_linearize.h:598-1175. TxData and
    DepData are laid out field by field; iteration over a bit set is a loop over the positions. */
module SpanningForest {
  import opened Basics
  import opened FeeFracs
  import opened Sums
  import opened Trees
  import opened Forests
  import opened Merging
  import opened Improving
  import opened Loading
  import opened Progress
  import opened Orders
  import opened DepGraphs

  function Change(subtract: bool, s: SetInfo, d: SetInfo): SetInfo {
    if subtract then Remove(s, d) else Join(s, d)
  }

  ghost function Below(s: set<nat>, n: nat): set<nat> {
    set x | x in s && x < n
  }

  /** What UpdateChunk makes of the representatives and of the tops. */
  ghost predicate Updated(k: Cluster, active: set<nat>, subtract: bool, txn: set<nat>, query: nat, chunkRep: nat,
                          change: SetInfo, rep: seq<nat>, top: seq<SetInfo>, rep': seq<nat>, top': seq<SetInfo>) {
    && |rep'| == |rep| && |top'| == |top| == |k.deps|
    && (forall x {:trigger rep'[x]} :: 0 <= x < |rep| ==> rep'[x] == if x in txn then chunkRep else rep[x])
    && (forall i {:trigger top'[i]} :: 0 <= i < |top| ==>
          top'[i] == if i in active && k.deps[i].parent in txn && query in top[i].txn
                     then Change(subtract, top[i], change) else top[i])
  }

  lemma ActivateEffect(k: Cluster, f: Forest, e: nat, rep1: seq<nat>, top1: seq<SetInfo>, rep2: seq<nat>,
                       top2: seq<SetInfo>, g: Forest)
    requires Consistent(k, f) && Crosses(k, f, e)
    requires var d := k.deps[e];
      var r, t, b := f.rep[d.parent], ChunkOf(k, f, d.parent), ChunkOf(k, f, d.child);
      && Updated(k, f.active, false, t.txn, d.parent, r, b, f.rep, f.top, rep1, top1)
      && Updated(k, f.active, false, b.txn, d.child, r, t, rep1, top1, rep2, top2)
      && g == Forest(f.active + {e}, top2[e := t], rep2, f.chunk[r := Join(t, b)])
    ensures Activates(k, f, e, g)
  {
    var d := k.deps[e];
    CrossingIsInactive(k, f, e);
    assert Shaped(k, g);
    forall i | 0 <= i < |k.deps| ensures g.top[i] == TopOnActivate(k, f, e, i) {
      assert top2[i] == top2[i] && top1[i] == top1[i];
    }
  }

  lemma DeactivateEffect(k: Cluster, f: Forest, e: nat, rep1: seq<nat>, top1: seq<SetInfo>, rep2: seq<nat>,
                         top2: seq<SetInfo>, g: Forest)
    requires Consistent(k, f) && e in f.active
    requires var d, t := k.deps[e], f.top[e];
      var b := Remove(ChunkOf(k, f, d.parent), t);
      && Updated(k, f.active - {e}, true, t.txn, d.parent, d.parent, b, f.rep, f.top, rep1, top1)
      && Updated(k, f.active - {e}, true, b.txn, d.child, d.child, t, rep1, top1, rep2, top2)
      && g == Forest(f.active - {e}, top2, rep2, f.chunk[d.child := b][d.parent := t])
    ensures Deactivates(k, f, e, g)
  {
    DeactivatedParts(k, f, e);
    assert Shaped(k, g);
    forall i | 0 <= i < |k.deps| ensures g.top[i] == TopOnDeactivate(k, f, e, i) {
      assert top2[i] == top2[i] && top1[i] == top1[i];
    }
  }

  /** How many of the dependencies listed lead to a child in s. */
  function Hits(deps: seq<Dep>, list: seq<nat>, s: set<nat>): nat
    requires forall j :: 0 <= j < |list| ==> list[j] < |deps|
  {
    if list == [] then 0
    else (if deps[list[0]].child in s then 1 else 0) + Hits(deps, list[1..], s)
  }

  ghost function ChildSet(deps: seq<Dep>, list: seq<nat>): set<nat>
    requires forall j :: 0 <= j < |list| ==> list[j] < |deps|
  {
    if list == [] then {} else {deps[list[0]].child} + ChildSet(deps, list[1..])
  }

  lemma {:induction false} InChildSet(deps: seq<Dep>, list: seq<nat>, c: nat)
    requires forall j :: 0 <= j < |list| ==> list[j] < |deps|
    ensures c in ChildSet(deps, list) <==> exists j :: 0 <= j < |list| && deps[list[j]].child == c
  {
    if list != [] {
      InChildSet(deps, list[1..], c);
      if c in ChildSet(deps, list[1..]) {
        var j :| 0 <= j < |list[1..]| && deps[list[1..][j]].child == c;
        assert deps[list[j + 1]].child == c;
      }
      if j :| 0 <= j < |list| && deps[list[j]].child == c {
        if j > 0 { assert deps[list[1..][j - 1]].child == c; }
      }
    }
  }

  lemma {:induction false} HitsCount(deps: seq<Dep>, list: seq<nat>, s: set<nat>)
    requires forall j :: 0 <= j < |list| ==> list[j] < |deps|
    requires forall i, j :: 0 <= i < j < |list| ==> deps[list[i]].child != deps[list[j]].child
    ensures Hits(deps, list, s) == |ChildSet(deps, list) * s|
  {
    if list == [] {
      assert ChildSet(deps, list) * s == {};
    } else {
      var c, rest := deps[list[0]].child, ChildSet(deps, list[1..]);
      HitsCount(deps, list[1..], s);
      assert c !in rest by { InChildSet(deps, list[1..], c); }
      assert ChildSet(deps, list) * s == rest * s + if c in s then {c} else {};
    }
  }

  /** The best candidate among the chunks of the transactions reached so far, or none. */
  ghost predicate BestSoFar(k: Cluster, f: Forest, down: bool, t: nat, reached: set<nat>, best: Option<nat>,
                            feerate: FeeFrac) {
    && Consistent(k, f) && t in k.txs && reached <= k.txs
    && feerate.size > 0
    && (forall z :: z in reached ==> Key(down, Rate(feerate)) <= ChunkKey(k, f, down, z))
    && match best
       case None =>
         && feerate == ChunkOf(k, f, t).feerate
         && forall z :: z in reached ==> Key(down, Rate(feerate)) < ChunkKey(k, f, down, z)
       case Some(b) =>
         && b in k.txs && f.rep[b] == b && feerate == f.chunk[b].feerate
         && Key(down, Rate(feerate)) <= ChunkKey(k, f, down, t)
         && exists i :: 0 <= i < |k.deps| && LeadsOut(k, f, down, t, i) && f.rep[Far(down, k.deps[i])] == b
  }

  /** The feerate comparison that MergeStep makes, in terms of keys. */
  function Candidate(down: bool, feerate: FeeFrac, other: FeeFrac): int {
    if down then FeeRateCompare(feerate, other) else FeeRateCompare(other, feerate)
  }

  lemma CandidateKey(down: bool, feerate: FeeFrac, other: FeeFrac)
    requires feerate.size > 0 && other.size > 0
    ensures Candidate(down, feerate, other) > 0 <==> Key(down, Rate(other)) > Key(down, Rate(feerate))
    ensures Candidate(down, feerate, other) < 0 <==> Key(down, Rate(other)) < Key(down, Rate(feerate))
  {
    CompareIsRate(feerate, other);
    CompareIsRate(other, feerate);
  }

  /** Transactions of a chunk that does not beat the best so far do not change it. */
  lemma SkipCandidate(k: Cluster, f: Forest, down: bool, t: nat, reached: set<nat>, same: set<nat>, first: nat,
                      best: Option<nat>, feerate: FeeFrac)
    requires BestSoFar(k, f, down, t, reached, best, feerate)
    requires first in k.txs && same <= k.txs && same <= ChunkOf(k, f, first).txn
    requires Candidate(down, feerate, ChunkOf(k, f, first).feerate) > 0
          || (best.Some? && Candidate(down, feerate, ChunkOf(k, f, first).feerate) == 0)
    ensures BestSoFar(k, f, down, t, reached + same, best, feerate)
  {
    ChunkSize(k, f, first);
    CandidateKey(down, feerate, ChunkOf(k, f, first).feerate);
    forall z | z in same ensures ChunkOf(k, f, z) == ChunkOf(k, f, first) { SameChunk(k, f, first, z); }
  }

  /** A chunk that is at least as good a candidate replaces the best so far. */
  lemma TakeCandidate(k: Cluster, f: Forest, down: bool, t: nat, reached: set<nat>, same: set<nat>, first: nat,
                      best: Option<nat>, feerate: FeeFrac, i: nat)
    requires BestSoFar(k, f, down, t, reached, best, feerate)
    requires first in k.txs && same <= k.txs && same <= ChunkOf(k, f, first).txn
    requires Candidate(down, feerate, ChunkOf(k, f, first).feerate) <= 0
    requires LeadsOut(k, f, down, t, i) && Far(down, k.deps[i]) == first
    ensures BestSoFar(k, f, down, t, reached + same, Some(f.rep[first]), ChunkOf(k, f, first).feerate)
  {
    ChunkSize(k, f, first);
    RepInChunk(k, f, first);
    CandidateKey(down, feerate, ChunkOf(k, f, first).feerate);
    forall z | z in same ensures ChunkOf(k, f, z) == ChunkOf(k, f, first) { SameChunk(k, f, first, z); }
  }

  /** Once everything has been reached, the best candidate is the one that the merge rule names. */
  lemma BestOfAll(k: Cluster, f: Forest, down: bool, t: nat, reached: set<nat>, best: Option<nat>, feerate: FeeFrac)
    requires BestSoFar(k, f, down, t, reached, best, feerate) && f.rep[t] == t
    requires forall i: nat :: LeadsOut(k, f, down, t, i) ==> Far(down, k.deps[i]) in reached
    ensures best.None? ==> Stuck(k, f, down, t)
    ensures best.Some? ==> best.value != t
    ensures best.Some? ==> forall i: nat :: LeadsOut(k, f, down, t, i) && f.rep[Far(down, k.deps[i])] == best.value ==>
      BestMerge(k, f, down, t, i)
  {
  }

  lemma MergeEffect(k: Cluster, f: Forest, down: bool, t: nat, e: nat, g: Forest)
    requires Consistent(k, f) && t in k.txs && LeadsOut(k, f, down, t, e) && Activates(k, f, e, g)
    ensures g.rep[t] == f.rep[k.deps[e].parent] && |g.chunk[g.rep[t]].txn| > 0
  {
    SameChunk(k, f, t, Near(down, k.deps[e]));
    ActivatedChunk(k, f, e, g, t);
    assert t in g.chunk[g.rep[t]].txn;
  }

  lemma SwapLast(s: seq<nat>, x: nat, j: nat)
    requires j <= |s|
    ensures Elems(s + [x]) == Elems(s) + {x}
    ensures j < |s| ==> Elems((s + [x])[j := x][|s| := s[j]]) == Elems(s) + {x}
  {
    if j < |s| {
      var t := (s + [x])[j := x][|s| := s[j]];
      forall y | y in s ensures y in t {
        var i :| 0 <= i < |s| && s[i] == y;
        if i == j { assert t[|s|] == y; } else { assert t[i] == y; }
      }
      assert t[j] == x;
    }
  }

  lemma MergedRep(k: Cluster, f: Forest, down: bool, t: nat, r: nat, b: nat, g: Forest)
    requires Consistent(k, f) && t in k.txs && r == f.rep[t] && r in k.txs
    requires LeadsOut(k, f, down, r, b) && Activates(k, f, b, g)
    ensures g.rep[t] == g.rep[r] && g.rep[g.rep[t]] == g.rep[t] && g.rep[t] in k.txs
    ensures |Reps(k, g)| < |Reps(k, f)|
  {
    RepInChunk(k, f, t);
    ActivateConsistent(k, f, b, g);
    StepReps(k, f, b, g);
    SameChunk(k, f, t, r);
    SameChunk(k, f, t, Near(down, k.deps[b]));
    RepInChunk(k, g, t);
  }

  /** A chunk found to have no top that beats it needs no exemption. */
  lemma QueuedOptimal(k: Cluster, f: Forest, queue: seq<nat>, c: nat)
    requires Queued(k, f, queue, {c}) && c in k.txs && ChunkOptimal(k, f, c)
    ensures Queued(k, f, queue, {})
  {
    forall x | x in k.txs ensures f.rep[x] in queue || ChunkOptimal(k, f, x) {
      if ChunkOf(k, f, x).txn * {c} != {} {
        assert c in ChunkOf(k, f, x).txn;
        SameChunk(k, f, x, c);
      }
    }
  }

  /** The parents, the children and the lists of child dependencies describe the same dependencies. */
  ghost predicate LayoutOk(txs: set<nat>, deps: seq<Dep>, n: nat, parents: seq<set<nat>>, children: seq<set<nat>>,
                           childDeps: seq<seq<nat>>) {
    && |parents| == |children| == |childDeps| == n
    && (forall x :: x in txs ==> x < n)
    && (forall i, j :: 0 <= i < j < |deps| ==> deps[i] != deps[j])
    && (forall i :: 0 <= i < |deps| ==>
          && deps[i].parent in txs && deps[i].child in txs
          && deps[i].parent in parents[deps[i].child]
          && deps[i].child in children[deps[i].parent]
          && i in childDeps[deps[i].parent])
    && (forall x, y :: x in txs && y in parents[x] ==> Dep(y, x) in deps)
    && (forall x, y :: x in txs && y in children[x] ==> Dep(x, y) in deps)
    && (forall x, j :: x in txs && 0 <= j < |childDeps[x]| ==>
          childDeps[x][j] < |deps| && deps[childDeps[x][j]].parent == x)
    && (forall x, i, j :: x in txs && 0 <= i < j < |childDeps[x]| ==> childDeps[x][i] != childDeps[x][j])
  }

  ghost function FeeRates(g: Graph): (fr: seq<FeeFrac>)
    ensures |fr| == |g.entries| && forall i :: 0 <= i < |fr| ==> fr[i] == g.entries[i].feerate
  {
    seq(|g.entries|, i requires 0 <= i < |g.entries| => g.entries[i].feerate)
  }

  ghost predicate Positive(g: Graph)
    requires InBounds(g)
  {
    forall i :: i in g.used ==> g.entries[i].feerate.size > 0
  }

  /** The cluster of a graph: its transactions, and a dependency for every direct parent. */
  ghost predicate Describes(g: Graph, k: Cluster)
    requires Closure(g)
  {
    && k.txs == g.used && k.fr == FeeRates(g)
    && (forall d :: d in k.deps <==> d.child in g.used && DirectParent(g, d.parent, d.child))
  }

  lemma InitialForest(k: Cluster, f: Forest)
    requires ClusterOk(k) && Shaped(k, f) && f.active == {}
    requires forall x :: x in k.txs ==> f.rep[x] == x && f.chunk[x] == SetInfo({x}, k.fr[x])
    ensures Consistent(k, f)
    ensures forall x :: x in k.txs ==> ChunkOf(k, f, x).txn == {x}
  {
    forall x | x in k.txs ensures ChunkOk(k, f, x) {
      FeeRateSingle(k.fr, x);
    }
  }

  /** The dependencies on direct parents of the transactions below tx, and for tx itself on those below p. */
  ghost predicate LaidOut(g: Graph, deps: seq<Dep>, tx: nat, p: nat)
    requires Closure(g)
  {
    forall d :: d in deps <==>
      && d.child in g.used && DirectParent(g, d.parent, d.child)
      && (d.child < tx || (d.child == tx && d.parent < p))
  }

  /** The loop of the constructor over the direct parents of every transaction. */
  method BuildLayout(graph: DepGraph) returns (deps: seq<Dep>, parents: seq<set<nat>>, children: seq<set<nat>>,
                                               childDeps: seq<seq<nat>>)
    requires Closure(graph.Value()) && Acyclic(graph.Value())
    ensures LayoutOk(graph.used, deps, |graph.entries|, parents, children, childDeps)
    ensures forall d :: d in deps <==> d.child in graph.used && DirectParent(graph.Value(), d.parent, d.child)
  {
    var n := |graph.entries|;
    deps, parents, children, childDeps := [], seq(n, _ => {}), seq(n, _ => {}), seq(n, _ => []);
    for tx := 0 to n
      invariant LayoutOk(graph.used, deps, n, parents, children, childDeps) && LaidOut(graph.Value(), deps, tx, 0)
    {
      if tx in graph.used {
        deps, parents, children, childDeps := LayoutParents(graph, tx, deps, parents, children, childDeps);
      }
    }
  }

  method LayoutParents(graph: DepGraph, tx: nat, deps0: seq<Dep>, parents0: seq<set<nat>>, children0: seq<set<nat>>,
                       childDeps0: seq<seq<nat>>)
    returns (deps: seq<Dep>, parents: seq<set<nat>>, children: seq<set<nat>>, childDeps: seq<seq<nat>>)
    requires Closure(graph.Value()) && Acyclic(graph.Value()) && tx in graph.used
    requires LayoutOk(graph.used, deps0, |graph.entries|, parents0, children0, childDeps0)
    requires LaidOut(graph.Value(), deps0, tx, 0)
    ensures LayoutOk(graph.used, deps, |graph.entries|, parents, children, childDeps)
    ensures LaidOut(graph.Value(), deps, tx + 1, 0)
  {
    var n := |graph.entries|;
    deps, parents, children, childDeps := deps0, parents0, children0, childDeps0;
    var ps := graph.GetReducedParents(tx);
    for p := 0 to n
      invariant LayoutOk(graph.used, deps, n, parents, children, childDeps) && LaidOut(graph.Value(), deps, tx, p)
    {
      if p in ps {
        LayoutAppend(graph.used, deps, n, parents, children, childDeps, Dep(p, tx));
        childDeps := childDeps[p := childDeps[p] + [|deps|]];
        deps := deps + [Dep(p, tx)];
        parents := parents[tx := parents[tx] + {p}];
        children := children[p := children[p] + {tx}];
      }
    }
  }

  /** Adding one dependency to the layout. */
  lemma LayoutAppend(txs: set<nat>, deps: seq<Dep>, n: nat, parents: seq<set<nat>>, children: seq<set<nat>>,
                     childDeps: seq<seq<nat>>, d: Dep)
    requires LayoutOk(txs, deps, n, parents, children, childDeps) && d !in deps && d.parent in txs && d.child in txs
    ensures LayoutOk(txs, deps + [d], n, parents[d.child := parents[d.child] + {d.parent}],
                     children[d.parent := children[d.parent] + {d.child}],
                     childDeps[d.parent := childDeps[d.parent] + [|deps|]])
  {
    var deps', parents' := deps + [d], parents[d.child := parents[d.child] + {d.parent}];
    var children', childDeps' := children[d.parent := children[d.parent] + {d.child}],
                                 childDeps[d.parent := childDeps[d.parent] + [|deps|]];
    assert deps'[|deps|] == d;
    forall x | x in deps ensures x in deps' {}
    forall x, y | x in txs && y in parents'[x] ensures Dep(y, x) in deps' {
      if y in parents[x] { assert Dep(y, x) in deps; }
    }
    forall x, y | x in txs && y in children'[x] ensures Dep(x, y) in deps' {
      if y in children[x] { assert Dep(x, y) in deps; }
    }
    forall i | 0 <= i < |deps'| ensures i in childDeps'[deps'[i].parent] {
      if i < |deps| {
        assert i in childDeps[deps[i].parent];
      } else {
        assert childDeps'[d.parent][|childDeps[d.parent]|] == i;
      }
    }
    forall x, i, j | x in txs && 0 <= i < j < |childDeps'[x]| ensures childDeps'[x][i] != childDeps'[x][j] {
      assert i < |childDeps[x]| && childDeps'[x][i] == childDeps[x][i];
    }
  }

  class SpanningForest {
    const txs: set<nat>
    const deps: seq<Dep>
    const parents: seq<set<nat>>
    const children: seq<set<nat>>
    const childDeps: seq<seq<nat>>
    ghost const fr: seq<FeeFrac>

    var active: set<nat>
    var top: seq<SetInfo>
    var rep: seq<nat>
    var chunk: seq<SetInfo>
    var suboptimal: seq<nat>
    var cost: nat
    ghost var history: seq<Step>

    /** The forest of a graph, with every transaction in a chunk of its own. */
    constructor (graph: DepGraph)
      requires Closure(graph.Value()) && Acyclic(graph.Value()) && Positive(graph.Value())
      ensures Valid() && Describes(graph.Value(), K())
      ensures forall x :: x in txs ==> ChunkOf(K(), F(), x).txn == {x}
      ensures active == {} && suboptimal == [] && cost == 0
    {
      var es, n := graph.entries, |graph.entries|;
      var ds, ps, cs, cds := BuildLayout(graph);
      txs, deps, parents, children, childDeps := graph.used, ds, ps, cs, cds;
      fr := FeeRates(graph.Value());
      active, suboptimal, cost := {}, [], 0;
      top := seq(|ds|, _ => SetInfo({}, EMPTY));
      rep := seq(n, x => x);
      chunk := seq(n, x requires 0 <= x < n => SetInfo({x}, es[x].feerate));
      new;
      InitialForest(K(), F());
      history := [];
    }

    ghost function K(): Cluster { Cluster(txs, fr, deps) }

    ghost function F(): Forest
      reads this
    {
      Forest(active, top, rep, chunk)
    }

    ghost predicate StaticOk() {
      ClusterOk(K()) && LayoutOk(txs, deps, |fr|, parents, children, childDeps)
    }

    ghost predicate Valid()
      reads this
    {
      StaticOk() && Consistent(K(), F()) && Accounted()
    }

    /** The state is where the history leads, and the cost is its work. */
    ghost predicate Accounted()
      reads this
    {
      LeadsTo(K(), history, F()) && cost == Work(history)
    }

    /** Take note of an activation. */
    ghost method RecordActivation(e: nat, f: Forest)
      requires StaticOk() && LeadsTo(K(), history, f) && Consistent(K(), f) && Crosses(K(), f, e)
      requires Activates(K(), f, e, F()) && cost == Work(history) + |chunk[f.rep[deps[e].parent]].txn|
      modifies this`history
      ensures Accounted()
    {
      ActivateStep(K(), f, e, F());
      var s := Step(e, true, f, F(), |chunk[f.rep[deps[e].parent]].txn|);
      OneMoreStep(K(), history, s);
      history := history + [s];
    }

    /** Take note of a deactivation. */
    ghost method RecordDeactivation(e: nat, f: Forest)
      requires StaticOk() && LeadsTo(K(), history, f) && Consistent(K(), f)
      requires Deactivates(K(), f, e, F()) && cost == Work(history) + |ChunkOf(K(), f, deps[e].parent).txn|
      modifies this`history
      ensures Accounted()
    {
      DeactivateStep(K(), f, e, F());
      var s := Step(e, false, f, F(), |ChunkOf(K(), f, deps[e].parent).txn|);
      OneMoreStep(K(), history, s);
      history := history + [s];
    }

    /** The inner loop of UpdateChunk: the active dependencies to the children of tx. */
    method UpdateChildDeps(subtract: bool, tx: nat, query: nat, change: SetInfo)
      requires StaticOk() && tx in txs && |top| == |deps|
      modifies this`top
      ensures |top| == |deps|
      ensures forall i {:trigger top[i]} :: 0 <= i < |top| ==>
        top[i] == if i in active && deps[i].parent == tx && query in old(top)[i].txn
                  then Change(subtract, old(top)[i], change) else old(top)[i]
    {
      var list := childDeps[tx];
      for j := 0 to |list|
        invariant |top| == |deps|
        invariant forall i {:trigger top[i]} :: 0 <= i < |top| ==>
          top[i] == if i in active && i in list[..j] && query in old(top)[i].txn
                    then Change(subtract, old(top)[i], change) else old(top)[i]
      {
        var i := list[j];
        assert i !in list[..j];
        if i in active && query in top[i].txn {
          top := top[i := Change(subtract, top[i], change)];
        }
        assert list[..j + 1] == list[..j] + [i];
      }
      assert list[..|list|] == list;
    }

    /** UpdateChunk: give the transactions of a chunk a representative, and add or remove dep_change
        wherever an active dependency of the chunk has query in its top. */
    method UpdateChunk(subtract: bool, txn: set<nat>, query: nat, chunkRep: nat, change: SetInfo)
      requires StaticOk() && |rep| == |fr| && |top| == |deps| && txn <= txs
      modifies this`rep, this`top
      ensures Updated(K(), active, subtract, txn, query, chunkRep, change, old(rep), old(top), rep, top)
    {
      for tx := 0 to |rep|
        invariant Updated(K(), active, subtract, Below(txn, tx), query, chunkRep, change, old(rep), old(top), rep, top)
      {
        if tx in txn {
          rep := rep[tx := chunkRep];
          UpdateChildDeps(subtract, tx, query, change);
        }
      }
      assert Below(txn, |rep|) == txn;
    }

    /** What activation changes. */
    method Connect(e: nat) returns (topRep: nat)
      requires StaticOk() && Consistent(K(), F()) && Crosses(K(), F(), e)
      modifies this`active, this`top, this`rep, this`chunk, this`cost
      ensures Consistent(K(), F()) && Activates(K(), old(F()), e, F())
      ensures topRep == old(rep[deps[e].parent])
      ensures cost == old(cost) + |chunk[topRep].txn|
    {
      ghost var f := F();
      var dep := deps[e];
      assert ChunkOk(K(), f, dep.parent) && ChunkOk(K(), f, dep.child);
      topRep := rep[dep.parent];
      var topPart, bottomPart := chunk[topRep], chunk[rep[dep.child]];
      chunk := chunk[topRep := Join(topPart, bottomPart)];
      cost := cost + |chunk[topRep].txn|;
      UpdateChunk(false, topPart.txn, dep.parent, topRep, bottomPart);
      ghost var rep1, top1 := rep, top;
      UpdateChunk(false, bottomPart.txn, dep.child, topRep, topPart);
      ghost var top2 := top;
      active := active + {e};
      top := top[e := topPart];
      ActivateEffect(K(), f, e, rep1, top1, rep, top2, F());
      ActivateConsistent(K(), f, e, F());
    }

    method Activate(e: nat) returns (topRep: nat)
      requires Valid() && Crosses(K(), F(), e)
      modifies this`active, this`top, this`rep, this`chunk, this`cost, this`history
      ensures Valid() && Activates(K(), old(F()), e, F())
      ensures topRep == old(rep[deps[e].parent])
      ensures cost == old(cost) + |chunk[topRep].txn|
    {
      ghost var f := F();
      topRep := Connect(e);
      RecordActivation(e, f);
    }

    method Deactivate(e: nat)
      requires Valid() && e in active
      modifies this`active, this`top, this`rep, this`chunk, this`cost, this`history
      ensures Valid() && Deactivates(K(), old(F()), e, F())
      ensures cost == old(cost) + |old(ChunkOf(K(), F(), deps[e].parent)).txn|
    {
      ghost var f := F();
      var dep := deps[e];
      DeactivatedParts(K(), f, e);
      assert ChunkOk(K(), f, dep.parent);
      active := active - {e};
      var chunkRep := rep[dep.parent];
      cost := cost + |chunk[chunkRep].txn|;
      var topPart := top[e];
      var bottomPart := Remove(chunk[chunkRep], topPart);
      chunk := chunk[dep.child := bottomPart];
      chunk := chunk[dep.parent := topPart];
      UpdateChunk(true, topPart.txn, dep.parent, dep.parent, bottomPart);
      ghost var rep1, top1 := rep, top;
      UpdateChunk(true, bottomPart.txn, dep.child, dep.child, topPart);
      DeactivateEffect(K(), f, e, rep1, top1, rep, top, F());
      DeactivateConsistent(K(), f, e, F());
      RecordDeactivation(e, f);
    }

    lemma ChildHits(x: nat, s: set<nat>)
      requires StaticOk() && x in txs
      ensures forall j :: 0 <= j < |childDeps[x]| ==> childDeps[x][j] < |deps|
      ensures Hits(deps, childDeps[x], s) == |children[x] * s|
    {
      var list := childDeps[x];
      forall i, j | 0 <= i < j < |list| ensures deps[list[i]].child != deps[list[j]].child {
        assert deps[list[i]].parent == deps[list[j]].parent;
      }
      HitsCount(deps, list, s);
      forall c ensures c in children[x] <==> c in ChildSet(deps, list) {
        InChildSet(deps, list, c);
        if c in children[x] {
          assert Dep(x, c) in deps;
          var i :| 0 <= i < |deps| && deps[i] == Dep(x, c);
          assert i in list;
        }
      }
      assert children[x] == ChildSet(deps, list);
    }

    /** The number of dependencies from transactions of bottom to those of topTxn from position lo on. */
    ghost function DepsFrom(topTxn: set<nat>, bottom: set<nat>, lo: nat): nat
      decreases |children| - lo
    {
      if lo >= |children| then 0
      else (if lo in topTxn then |children[lo] * bottom| else 0) + DepsFrom(topTxn, bottom, lo + 1)
    }

    lemma {:induction false} DepsFromPositive(topTxn: set<nat>, bottom: set<nat>, lo: nat, x: nat)
      requires lo <= x < |children| && x in topTxn && children[x] * bottom != {}
      ensures DepsFrom(topTxn, bottom, lo) > 0
      decreases x - lo
    {
      if lo < x { DepsFromPositive(topTxn, bottom, lo + 1, x); }
    }

    /** Activate some dependency from the chunk of bottomRep to the chunk of topRep, which must exist. */
    method MergeChunks(topRep: nat, bottomRep: nat, ghost i: nat) returns (merged: nat, ghost e: nat)
      requires Valid() && topRep in txs && bottomRep in txs
      requires rep[topRep] == topRep && rep[bottomRep] == bottomRep && topRep != bottomRep
      requires i < |deps| && rep[deps[i].parent] == topRep && rep[deps[i].child] == bottomRep
      modifies this`active, this`top, this`rep, this`chunk, this`cost, this`history
      ensures Valid() && e < |deps| && old(rep[deps[e].parent]) == topRep && old(rep[deps[e].child]) == bottomRep
      ensures Activates(K(), old(F()), e, F()) && merged == topRep
      ensures cost == old(cost) + |chunk[merged].txn|
    {
      var topTxn, bottom := chunk[topRep].txn, chunk[bottomRep].txn;
      assert ChunkOk(K(), F(), topRep) && ChunkOk(K(), F(), bottomRep);
      var numDeps := 0;
      for tx := 0 to |rep|
        invariant numDeps + DepsFrom(topTxn, bottom, tx) == DepsFrom(topTxn, bottom, 0)
      {
        if tx in topTxn { numDeps := numDeps + |children[tx] * bottom|; }
      }
      assert numDeps > 0 by {
        SameChunk(K(), F(), topRep, deps[i].parent);
        SameChunk(K(), F(), bottomRep, deps[i].child);
        assert deps[i].child in children[deps[i].parent] * bottom;
        DepsFromPositive(topTxn, bottom, 0, deps[i].parent);
      }
      var pick: nat :| pick < numDeps;
      for tx := 0 to |rep|
        invariant pick < DepsFrom(topTxn, bottom, tx)
        invariant F() == old(F()) && cost == old(cost) && history == old(history)
      {
        if tx in topTxn {
          var count := |children[tx] * bottom|;
          if pick < count {
            var list := childDeps[tx];
            ChildHits(tx, bottom);
            for j := 0 to |list|
              invariant pick < Hits(deps, list[j..], bottom)
              invariant F() == old(F()) && cost == old(cost) && history == old(history)
            {
              assert list[j..][1..] == list[j + 1..];
              if deps[list[j]].child in bottom {
                if pick == 0 {
                  e := list[j];
                  SameChunk(K(), F(), topRep, tx);
                  SameChunk(K(), F(), bottomRep, deps[e].child);
                  merged := Activate(list[j]);
                  return;
                }
                pick := pick - 1;
              }
            }
            assert false;
          }
          pick := pick - count;
        }
      }
      assert false;
    }

    /** The transactions that tx depends on (upward), or that depend on it (downward). */
    function Reach(down: bool, tx: nat): set<nat>
      requires tx < |parents| && tx < |children|
    {
      if down then children[tx] else parents[tx]
    }

    lemma ReachIsDep(down: bool, tx: nat, z: nat)
      requires StaticOk() && tx in txs && z in Reach(down, tx)
      ensures z in txs && exists i :: 0 <= i < |deps| && Near(down, deps[i]) == tx && Far(down, deps[i]) == z
    {
      var d := if down then Dep(tx, z) else Dep(z, tx);
      assert d in deps;
      var i :| 0 <= i < |deps| && deps[i] == d;
      assert Near(down, deps[i]) == tx && Far(down, deps[i]) == z;
    }

    /** The inner loop of MergeStep: look at the chunks of what one transaction newly reaches. */
    method TestReached(down: bool, t: nat, tx: nat, newly: set<nat>, ghost seen: set<nat>,
                       best0: Option<nat>, feerate0: FeeFrac, tiebreak0: nat)
      returns (best: Option<nat>, feerate: FeeFrac, tiebreak: nat)
      requires Valid() && t in txs && tx in txs && rep[t] == t && rep[tx] == t && seen <= txs
      requires newly <= Reach(down, tx) && forall z :: z in newly ==> z in txs && rep[z] != t
      requires BestSoFar(K(), F(), down, t, seen, best0, feerate0) && (best0.None? ==> tiebreak0 == 0)
      ensures BestSoFar(K(), F(), down, t, seen + newly, best, feerate) && (best.None? ==> tiebreak == 0)
    {
      best, feerate, tiebreak := best0, feerate0, tiebreak0;
      var left := newly;
      ghost var done := seen;
      while left != {}
        invariant left <= newly && seen <= done && forall z :: z in newly ==> z in left || z in done
        invariant BestSoFar(K(), F(), down, t, done, best, feerate) && (best.None? ==> tiebreak == 0)
        decreases left
      {
        var first :| first in left;
        var r := rep[first];
        var c := chunk[r];
        ghost var same := left * c.txn;
        assert first in same && same <= txs && same <= c.txn by { assert ChunkOk(K(), F(), first); }
        left := left - c.txn;
        var cmp := Candidate(down, feerate, c.feerate);
        var rnd :| 0 <= rnd < 0x1_0000_0000_0000_0000;
        if cmp > 0 || (cmp == 0 && rnd < tiebreak) {
          assert cmp > 0 || (best.Some? && cmp == 0);
          SkipCandidate(K(), F(), down, t, done, same, first, best, feerate);
        } else {
          ReachIsDep(down, tx, first);
          ghost var i :| 0 <= i < |deps| && Near(down, deps[i]) == tx && Far(down, deps[i]) == first;
          assert LeadsOut(K(), F(), down, t, i);
          TakeCandidate(K(), F(), down, t, done, same, first, best, feerate, i);
          best, feerate, tiebreak := Some(r), c.feerate, rnd;
        }
        done := done + same;
      }
      assert seen + newly <= done;
    }

    /** Everything that the first n transactions of txn reach has been explored. */
    ghost predicate Explored(down: bool, txn: set<nat>, n: nat, explored: set<nat>)
      requires StaticOk() && txn <= txs
    {
      && txn <= explored <= txs
      && forall i :: 0 <= i < |deps| && Near(down, deps[i]) in txn && Near(down, deps[i]) < n ==>
         Far(down, deps[i]) in explored
    }

    lemma ExploreOne(down: bool, txn: set<nat>, tx: nat, explored: set<nat>)
      requires StaticOk() && txn <= txs && tx in txn && Explored(down, txn, tx, explored)
      ensures Explored(down, txn, tx + 1, explored + Reach(down, tx))
    {
      forall z | z in Reach(down, tx) ensures z in txs { ReachIsDep(down, tx, z); }
    }

    lemma AllReached(down: bool, t: nat, explored: set<nat>, i: nat)
      requires Valid() && t in txs && ChunkOf(K(), F(), t).txn <= txs
      requires Explored(down, ChunkOf(K(), F(), t).txn, |rep|, explored)
      requires LeadsOut(K(), F(), down, t, i)
      ensures Far(down, deps[i]) in explored - ChunkOf(K(), F(), t).txn
    {
      SameChunk(K(), F(), t, Near(down, deps[i]));
      SameChunk(K(), F(), t, Far(down, deps[i]));
    }

    /** Test the chunks that transaction tx of the chunk reaches, as far as they have not been explored. */
    method ExploreFrom(down: bool, chunkRep: nat, tx: nat, explored0: set<nat>, best0: Option<nat>, feerate0: FeeFrac,
                       tiebreak0: nat)
      returns (best: Option<nat>, feerate: FeeFrac, tiebreak: nat, explored: set<nat>)
      requires Valid() && chunkRep in txs && rep[chunkRep] == chunkRep
      requires chunk[chunkRep].txn <= txs && tx in chunk[chunkRep].txn
               && Explored(down, chunk[chunkRep].txn, tx, explored0)
      requires BestSoFar(K(), F(), down, chunkRep, explored0 - chunk[chunkRep].txn, best0, feerate0)
               && (best0.None? ==> tiebreak0 == 0)
      ensures Explored(down, chunk[chunkRep].txn, tx + 1, explored)
      ensures BestSoFar(K(), F(), down, chunkRep, explored - chunk[chunkRep].txn, best, feerate)
              && (best.None? ==> tiebreak == 0)
    {
      ghost var txn := chunk[chunkRep].txn;
      SameChunk(K(), F(), chunkRep, tx);
      var newly := Reach(down, tx) - explored0;
      ExploreOne(down, txn, tx, explored0);
      forall z | z in newly ensures z in txs && rep[z] != chunkRep {
        assert z in explored0 + Reach(down, tx);
        SameChunk(K(), F(), chunkRep, z);
      }
      best, feerate, tiebreak := TestReached(down, chunkRep, tx, newly, explored0 - txn, best0, feerate0, tiebreak0);
      assert explored0 + newly == explored0 + Reach(down, tx);
      assert explored0 - txn + newly == explored0 + newly - txn;
      explored := explored0 + newly;
    }

    /** The search of MergeStep: the chunk to merge with, if any. */
    method FindCandidate(down: bool, chunkRep: nat) returns (best: Option<nat>)
      requires Valid() && chunkRep in txs && rep[chunkRep] == chunkRep
      ensures best.None? ==> Stuck(K(), F(), down, chunkRep)
      ensures best.Some? ==>
        && best.value in txs && rep[best.value] == best.value != chunkRep
        && (exists i ::
             0 <= i < |deps| && LeadsOut(K(), F(), down, chunkRep, i)
             && rep[Far(down, deps[i])] == best.value)
        && (forall i: nat :: LeadsOut(K(), F(), down, chunkRep, i) && rep[Far(down, deps[i])] == best.value ==>
              BestMerge(K(), F(), down, chunkRep, i))
    {
      var txn := chunk[chunkRep].txn;
      assert txn <= txs by { assert ChunkOk(K(), F(), chunkRep); }
      var explored := txn;
      var feerate, tiebreak := chunk[chunkRep].feerate, 0;
      best := None;
      ChunkSize(K(), F(), chunkRep);
      for tx := 0 to |rep|
        invariant Explored(down, txn, tx, explored)
        invariant BestSoFar(K(), F(), down, chunkRep, explored - txn, best, feerate) && (best.None? ==> tiebreak == 0)
      {
        if tx in txn {
          best, feerate, tiebreak, explored := ExploreFrom(down, chunkRep, tx, explored, best, feerate, tiebreak);
        }
      }
      forall i: nat | LeadsOut(K(), F(), down, chunkRep, i) ensures Far(down, deps[i]) in explored - txn {
        AllReached(down, chunkRep, explored, i);
      }
      BestOfAll(K(), F(), down, chunkRep, explored - txn, best, feerate);
    }

    /** One upward or downward merge step of the chunk of chunkRep, by the merge rule, if any. */
    method MergeStep(down: bool, chunkRep: nat) returns (merged: Option<nat>, ghost e: nat)
      requires Valid() && chunkRep in txs && rep[chunkRep] == chunkRep
      modifies this`active, this`top, this`rep, this`chunk, this`cost, this`history
      ensures Valid()
      ensures merged.None? ==> F() == old(F()) && cost == old(cost) && Stuck(K(), F(), down, chunkRep)
      ensures merged.Some? ==>
        && BestMerge(K(), old(F()), down, chunkRep, e) && Activates(K(), old(F()), e, F())
        && merged.value == rep[chunkRep] && cost > old(cost)
    {
      e := 0;
      var best := FindCandidate(down, chunkRep);
      if best.None? {
        return None, 0;
      }
      ghost var i :| 0 <= i < |deps| && LeadsOut(K(), F(), down, chunkRep, i) && rep[Far(down, deps[i])] == best.value;
      var topRep, bottomRep := if down then chunkRep else best.value, if down then best.value else chunkRep;
      var m;
      m, e := MergeChunks(topRep, bottomRep, i);
      MergeEffect(K(), old(F()), down, chunkRep, e, F());
      merged := Some(m);
    }

    ghost predicate QueueOk()
      reads this
    {
      forall j :: 0 <= j < |suboptimal| ==> suboptimal[j] in txs
    }

    /** A sequence of upward or downward merges, as part of an Improve that split dependency e of f0. */
    method MergeSequence(down: bool, tx: nat, ghost f0: Forest, ghost e: nat, ghost f1: Forest, ghost exempt: set<nat>)
      requires Valid() && QueueOk() && e < |deps| && tx == Near(!down, deps[e])
      requires InProgress(K(), down, f0, e, f1, F())
      requires Queued(K(), F(), suboptimal, exempt + {tx})
      modifies this`active, this`top, this`rep, this`chunk, this`cost, this`history, this`suboptimal
      ensures Valid() && QueueOk()
      ensures InProgress(K(), down, f0, e, f1, F()) && Stuck(K(), F(), down, tx)
      ensures Queued(K(), F(), suboptimal, exempt)
      ensures cost >= old(cost)
    {
      var chunkRep := rep[tx];
      RepInChunk(K(), F(), tx);
      while true
        invariant Valid() && QueueOk() && chunkRep == rep[tx] && rep[chunkRep] == chunkRep && chunkRep in txs
        invariant InProgress(K(), down, f0, e, f1, F())
        invariant Queued(K(), F(), suboptimal, exempt + {tx})
        invariant cost >= old(cost)
        decreases |Reps(K(), F())|
      {
        ghost var f := F();
        var merged;
        ghost var b;
        merged, b := MergeStep(down, chunkRep);
        if merged.None? { break; }
        SequenceStep(K(), down, f0, e, f1, f, suboptimal, exempt + {tx}, tx, chunkRep, b, F());
        chunkRep := merged.value;
      }
      SequenceEnd(K(), down, F(), suboptimal, exempt, tx, chunkRep);
      suboptimal := suboptimal + [chunkRep];
    }

    /** Split a chunk at a dependency whose top beats it, and make the state topological again. */
    method Improve(e: nat, ghost c: nat)
      requires Valid() && QueueOk() && Splittable(K(), F(), e)
      requires c in txs && rep[c] == rep[deps[e].parent] && Queued(K(), F(), suboptimal, {c})
      modifies this`active, this`top, this`rep, this`chunk, this`cost, this`history, this`suboptimal
      ensures Valid() && QueueOk()
      ensures Topological(K(), F(), txs) && AsGood(K(), old(F()), F())
      ensures Queued(K(), F(), suboptimal, {})
      ensures cost > old(cost)
    {
      ghost var f0 := F();
      var p, q := deps[e].parent, deps[e].child;
      Deactivate(e);
      assert cost > old(cost) by { assert ChunkOk(K(), f0, p); assert p in ChunkOf(K(), f0, p).txn; }
      SplitInProgress(K(), f0, e, F());
      QueuedAfterSplit(K(), f0, suboptimal, c, e, F());
      assert {p, q} == {q} + {p};
      MergeSequence(false, p, f0, e, f0, {q});
      ghost var f1 := F();
      UpEnds(K(), f0, e, f1);
      assert {q} == {} + {q};
      MergeSequence(true, q, f0, e, f1, {});
      DownEnds(K(), f0, e, f1, F());
    }

    /** Add every chunk representative to the queue, in the order that the inside-out shuffle gives. */
    method QueueAll()
      requires Valid() && suboptimal == []
      modifies this`suboptimal
      ensures Elems(suboptimal) == Reps(K(), F())
    {
      for tx := 0 to |rep|
        invariant Elems(suboptimal) == Below(Reps(K(), F()), tx)
      {
        if tx in txs && rep[tx] == tx {
          var n := |suboptimal|;
          ghost var before := suboptimal;
          suboptimal := suboptimal + [tx];
          var j :| 0 <= j <= n;
          if j != n {
            suboptimal := suboptimal[j := tx][n := suboptimal[j]];
          }
          SwapLast(before, tx, j);
        }
      }
      assert Below(Reps(K(), F()), |rep|) == Reps(K(), F());
    }

    /** Merge chunks until no dependency goes to a chunk of the same or a lower feerate. */
    method MakeTopological()
      requires Valid() && suboptimal == []
      modifies this`active, this`top, this`rep, this`chunk, this`cost, this`history, this`suboptimal
      ensures Valid() && suboptimal == [] && Topological(K(), F(), txs)
    {
      QueueAll();
      forall i: nat | Crosses(K(), F(), i) ensures rep[deps[i].child] in suboptimal {
        RepInChunk(K(), F(), deps[i].child);
        assert rep[deps[i].child] in Elems(suboptimal);
      }
      forall j | 0 <= j < |suboptimal| ensures suboptimal[j] in txs { assert suboptimal[j] in Elems(suboptimal); }
      while suboptimal != []
        invariant Valid() && QueueOk() && ViolationsQueued(K(), F(), suboptimal)
        decreases |Reps(K(), F())|, |suboptimal|
      {
        MakeTopologicalStep();
      }
      NoneQueued(K(), F());
    }

    /** One turn of MakeTopological: try the chunk at the front of the queue in both directions. */
    method MakeTopologicalStep()
      requires Valid() && QueueOk() && suboptimal != [] && ViolationsQueued(K(), F(), suboptimal)
      modifies this`active, this`top, this`rep, this`chunk, this`cost, this`history, this`suboptimal
      ensures Valid() && QueueOk() && ViolationsQueued(K(), F(), suboptimal)
      ensures |Reps(K(), F())| < old(|Reps(K(), F())|) || (F() == old(F()) && |suboptimal| < old(|suboptimal|))
    {
      ghost var f, queue := F(), suboptimal;
      var c := suboptimal[0];
      suboptimal := suboptimal[1..];
      if rep[c] != c {
        ViolationsDrop(K(), f, queue);
        return;
      }
      var flip: bool := *;
      for i := 0 to 2
        invariant F() == f && suboptimal == queue[1..] && Valid()
        invariant i >= 1 ==> Stuck(K(), F(), flip == false, c)
        invariant i >= 2 ==> Stuck(K(), F(), flip == true, c)
      {
        var down := (i == 1) == flip;
        var merged;
        ghost var b;
        merged, b := MergeStep(down, c);
        if merged.Some? {
          ViolationsMerge(K(), f, queue, down, b, F());
          suboptimal := suboptimal + [merged.value];
          return;
        }
      }
      ViolationsDrop(K(), f, queue);
    }

    /** Merge chunks upward in the order of an existing linearization. */
    method LoadLinearization(l: seq<nat>)
      requires Valid() && Elems(l) <= txs
      requires forall x :: x in txs ==> ChunkOf(K(), F(), x).txn == {x}
      modifies this`active, this`top, this`rep, this`chunk, this`cost, this`history
      ensures Valid()
      ensures IsLinearization(K(), l) ==> LoadedUpTo(K(), F(), l, |l|) && Topological(K(), F(), txs)
    {
      LinearizationInRange(K(), l);
      if IsLinearization(K(), l) { LoadBegins(K(), F(), l); }
      for j := 0 to |l|
        invariant Valid() && (IsLinearization(K(), l) ==> LoadedUpTo(K(), F(), l, j))
      {
        assert l[j] in Elems(l);
        LoadOne(l, j);
      }
      assert l[..|l|] == l;
    }

    /** Load one transaction: merge its chunk upward for as long as the merge rule calls for it. */
    method LoadOne(l: seq<nat>, j: nat)
      requires Valid() && j < |l| && l[j] in txs && (IsLinearization(K(), l) ==> LoadedUpTo(K(), F(), l, j))
      modifies this`active, this`top, this`rep, this`chunk, this`cost, this`history
      ensures Valid() && (IsLinearization(K(), l) ==> LoadedUpTo(K(), F(), l, j + 1))
    {
      var chunkRep := rep[l[j]];
      ghost var f, valid := F(), IsLinearization(K(), l);
      RepInChunk(K(), F(), l[j]);
      if valid { LoadNext(K(), f, l, j); }
      while true
        invariant Valid() && chunkRep == rep[l[j]] && rep[chunkRep] == chunkRep && chunkRep in txs
        invariant valid ==> InLoad(K(), l, j, f, F())
        decreases |Reps(K(), F())|
      {
        ghost var g := F();
        var merged;
        ghost var b;
        merged, b := MergeStep(false, chunkRep);
        if merged.None? { break; }
        if valid { LoadMerge(K(), l, j, f, g, chunkRep, b, F()); }
        MergedRep(K(), g, false, l[j], chunkRep, b, F());
        chunkRep := merged.value;
      }
      if valid { LoadDone(K(), l, j, f, F(), chunkRep); }
    }

    /** The search of OptimizeStep: a dependency of the chunk of c whose top beats it, if any. */
    method FindSplit(c: nat) returns (candidate: Option<nat>)
      requires Valid() && c in txs && rep[c] == c
      ensures candidate.None? ==> ChunkOptimal(K(), F(), c)
      ensures candidate.Some? ==>
        && candidate.value in active && rep[deps[candidate.value].parent] == c
        && Higher(top[candidate.value].feerate, chunk[c].feerate)
    {
      candidate := None;
      var tiebreak := 0;
      var txn := chunk[c].txn;
      assert ChunkOk(K(), F(), c);
      for tx := 0 to |rep|
        invariant candidate.None? ==>
          tiebreak == 0 && forall i :: i in active && deps[i].parent in txn && deps[i].parent < tx ==>
            !Higher(top[i].feerate, chunk[c].feerate)
        invariant candidate.Some? ==>
          && candidate.value in active && rep[deps[candidate.value].parent] == c
          && Higher(top[candidate.value].feerate, chunk[c].feerate)
      {
        if tx in txn {
          var list := childDeps[tx];
          for j := 0 to |list|
            invariant candidate.None? ==> tiebreak == 0 && forall i :: i in active && deps[i].parent in txn ==>
              (deps[i].parent < tx || (deps[i].parent == tx && i in list[..j]) ==>
               !Higher(top[i].feerate, chunk[c].feerate))
            invariant candidate.Some? ==>
              && candidate.value in active && rep[deps[candidate.value].parent] == c
              && Higher(top[candidate.value].feerate, chunk[c].feerate)
          {
            assert list[..j + 1] == list[..j] + [list[j]];
            if list[j] in active && FeeRateCompare(top[list[j]].feerate, chunk[c].feerate) > 0 {
              var rnd :| 0 <= rnd < 0x1_0000_0000_0000_0000;
              if rnd >= tiebreak {
                candidate, tiebreak := Some(list[j]), rnd;
              }
            }
          }
          assert list[..|list|] == list;
        }
      }
    }

    /** Try to improve one chunk. Returns false only if the state is optimal. */
    method OptimizeStep() returns (more: bool)
      requires Valid() && QueueOk() && Topological(K(), F(), txs) && Queued(K(), F(), suboptimal, {})
      modifies this`active, this`top, this`rep, this`chunk, this`cost, this`history, this`suboptimal
      ensures Valid() && QueueOk() && Topological(K(), F(), txs) && Queued(K(), F(), suboptimal, {})
      ensures AsGood(K(), old(F()), F())
      ensures !more ==> suboptimal == []
      ensures more ==> cost > old(cost) || (cost == old(cost) && |suboptimal| < old(|suboptimal|))
    {
      while suboptimal != []
        invariant QueueOk() && F() == old(F()) && cost == old(cost) && history == old(history)
        invariant Queued(K(), F(), suboptimal, {}) && |suboptimal| <= old(|suboptimal|)
        decreases |suboptimal|
      {
        ghost var queue := suboptimal;
        var c := suboptimal[0];
        suboptimal := suboptimal[1..];
        QueuedPop(K(), F(), queue);
        if rep[c] == c {
          var candidate := FindSplit(c);
          if candidate.Some? {
            Improve(candidate.value, c);
          } else {
            QueuedOptimal(K(), F(), suboptimal, c);
          }
          return suboptimal != [];
        }
      }
      return false;
    }
  }
}
