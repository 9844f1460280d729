/** The state of the spanning-forest linearization algorithm, src/cluster_linearize.h:598-770, as a
    value: which dependencies are active, and what the implementation caches about them. */
module Forests {
  import opened FeeFracs
  import opened Sums
  import opened Trees
  import opened Flow

  /** A set of transactions together with their combined fee and size. */
  datatype SetInfo = SetInfo(txn: set<nat>, feerate: FeeFrac)

  function Join(a: SetInfo, b: SetInfo): SetInfo {
    SetInfo(a.txn + b.txn, Plus(a.feerate, b.feerate))
  }

  function Remove(a: SetInfo, b: SetInfo): SetInfo {
    SetInfo(a.txn - b.txn, Minus(a.feerate, b.feerate))
  }

  /** What does not change: the transactions, their fees and sizes, and the dependencies. */
  datatype Cluster = Cluster(txs: set<nat>, fr: seq<FeeFrac>, deps: seq<Dep>)

  ghost predicate ClusterOk(k: Cluster) {
    && PositiveSizes(k.fr, k.txs)
    && forall i :: 0 <= i < |k.deps| ==>
         k.deps[i].parent in k.txs && k.deps[i].child in k.txs && k.deps[i].parent != k.deps[i].child
  }

  /** What does change. chunk[r] is used only where rep[r] == r, and top[i] only where i is active. */
  datatype Forest = Forest(active: set<nat>, top: seq<SetInfo>, rep: seq<nat>, chunk: seq<SetInfo>)

  ghost predicate Shaped(k: Cluster, f: Forest) {
    && |f.rep| == |f.chunk| == |k.fr|
    && (forall x :: x in k.txs ==> x < |k.fr|)
    && |f.top| == |k.deps|
    && (forall i :: i in f.active ==> i < |k.deps|)
    && (forall x {:trigger f.rep[x]} :: x in k.txs ==> f.rep[x] in k.txs)
  }

  /** The chunk that x is in. */
  ghost function ChunkOf(k: Cluster, f: Forest, x: nat): SetInfo
    requires Shaped(k, f) && x in k.txs
  {
    f.chunk[f.rep[x]]
  }

  ghost predicate Weighed(k: Cluster, s: SetInfo) {
    s.feerate == FeeRate(k.fr, s.txn)
  }

  /** Chunks are the components of the active dependencies, and share one representative. */
  ghost predicate ChunkOk(k: Cluster, f: Forest, x: nat)
    requires Shaped(k, f) && x in k.txs
  {
    var c := ChunkOf(k, f, x);
    && f.rep[f.rep[x]] == f.rep[x]
    && c.txn <= k.txs
    && IsComponent(k.deps, f.active, c.txn, x)
    && Weighed(k, c)
    && (forall y :: y in c.txn ==> f.rep[y] == f.rep[x])
  }

  /** Every active dependency is a bridge, and its cached top is its parent's side. */
  ghost predicate TopOk(k: Cluster, f: Forest, i: nat)
    requires Shaped(k, f) && i in f.active
  {
    IsTop(k.deps, f.active, i, f.top[i].txn) && Weighed(k, f.top[i])
  }

  ghost predicate Consistent(k: Cluster, f: Forest) {
    && ClusterOk(k)
    && Shaped(k, f)
    && (forall x {:trigger ChunkOk(k, f, x)} :: x in k.txs ==> ChunkOk(k, f, x))
    && (forall i {:trigger TopOk(k, f, i)} :: i in f.active ==> TopOk(k, f, i))
  }

  lemma SameChunk(k: Cluster, f: Forest, x: nat, y: nat)
    requires Consistent(k, f) && x in k.txs && y in k.txs
    ensures f.rep[x] == f.rep[y] <==> y in ChunkOf(k, f, x).txn
    ensures f.rep[x] != f.rep[y] ==> ChunkOf(k, f, x).txn !! ChunkOf(k, f, y).txn
  {
    assert ChunkOk(k, f, x) && ChunkOk(k, f, y);
  }

  // ----- Activating a dependency -----

  /** What activating e does to the cached top of dependency i. */
  ghost function TopOnActivate(k: Cluster, f: Forest, e: nat, i: nat): SetInfo
    requires ClusterOk(k) && Shaped(k, f) && e < |k.deps| && i < |k.deps|
  {
    var p, c := k.deps[e].parent, k.deps[e].child;
    var par, chl := ChunkOf(k, f, p), ChunkOf(k, f, c);
    if i == e then par
    else if i in f.active && k.deps[i].parent in par.txn && p in f.top[i].txn then Join(f.top[i], chl)
    else if i in f.active && k.deps[i].parent in chl.txn && c in f.top[i].txn then Join(f.top[i], par)
    else f.top[i]
  }

  /** g is the state Activate(e) makes of f. */
  ghost predicate Activates(k: Cluster, f: Forest, e: nat, g: Forest) {
    && ClusterOk(k) && Shaped(k, f) && Shaped(k, g) && e < |k.deps|
    && g.active == f.active + {e}
    && var p, c := k.deps[e].parent, k.deps[e].child;
    && var par, chl := ChunkOf(k, f, p), ChunkOf(k, f, c);
    && g.chunk == f.chunk[f.rep[p] := Join(par, chl)]
    && (forall x {:trigger g.rep[x]} :: x in k.txs ==>
          g.rep[x] == if x in par.txn || x in chl.txn then f.rep[p] else f.rep[x])
    && (forall i {:trigger g.top[i]} :: 0 <= i < |k.deps| ==> g.top[i] == TopOnActivate(k, f, e, i))
  }

  /** A dependency between two different chunks. */
  ghost predicate Crosses(k: Cluster, f: Forest, e: nat)
    requires ClusterOk(k) && Shaped(k, f)
  {
    e < |k.deps| && f.rep[k.deps[e].parent] != f.rep[k.deps[e].child]
  }

  lemma CrossingIsInactive(k: Cluster, f: Forest, e: nat)
    requires Consistent(k, f) && Crosses(k, f, e)
    ensures e !in f.active
    ensures ChunkOf(k, f, k.deps[e].parent).txn !! ChunkOf(k, f, k.deps[e].child).txn
  {
    SameChunk(k, f, k.deps[e].parent, k.deps[e].child);
    assert ChunkOk(k, f, k.deps[e].parent);
  }

  lemma ActivatedChunk(k: Cluster, f: Forest, e: nat, g: Forest, x: nat)
    requires Consistent(k, f) && Crosses(k, f, e) && Activates(k, f, e, g) && x in k.txs
    ensures ChunkOk(k, g, x)
    ensures var par, chl := ChunkOf(k, f, k.deps[e].parent), ChunkOf(k, f, k.deps[e].child);
      ChunkOf(k, g, x) == if x in par.txn + chl.txn then Join(par, chl) else ChunkOf(k, f, x)
  {
    var p, c := k.deps[e].parent, k.deps[e].child;
    var par, chl := ChunkOf(k, f, p), ChunkOf(k, f, c);
    CrossingIsInactive(k, f, e);
    assert ChunkOk(k, f, p) && ChunkOk(k, f, c) && ChunkOk(k, f, x);
    SameChunk(k, f, p, x);
    SameChunk(k, f, c, x);
    if x in par.txn || x in chl.txn {
      assert ChunkOf(k, g, x) == Join(par, chl);
      JoinComponents(k.deps, f.active, e, par.txn, chl.txn);
      ComponentOfMember(k.deps, g.active, par.txn + chl.txn, p, x);
      FeeRateUnion(k.fr, par.txn, chl.txn);
    } else {
      assert ChunkOf(k, g, x) == ChunkOf(k, f, x);
      ComponentGrow(k.deps, f.active, g.active, ChunkOf(k, f, x).txn, x);
    }
  }

  lemma ActivatedTop(k: Cluster, f: Forest, e: nat, g: Forest, i: nat)
    requires Consistent(k, f) && Crosses(k, f, e) && Activates(k, f, e, g) && i in g.active
    ensures TopOk(k, g, i)
  {
    var p, c := k.deps[e].parent, k.deps[e].child;
    var par, chl := ChunkOf(k, f, p), ChunkOf(k, f, c);
    CrossingIsInactive(k, f, e);
    assert ChunkOk(k, f, p) && ChunkOk(k, f, c);
    if i == e {
      TopOfJoined(k.deps, f.active, e, par.txn);
    } else {
      assert TopOk(k, f, i);
      var t := f.top[i].txn;
      if k.deps[i].parent in par.txn {
        TopAfterJoinInParent(k.deps, f.active, e, par.txn, chl.txn, i, t);
        if p in t { FeeRateUnion(k.fr, t, chl.txn); }
      } else if k.deps[i].parent in chl.txn {
        TopAfterJoinInChild(k.deps, f.active, e, par.txn, chl.txn, i, t);
        if c in t { FeeRateUnion(k.fr, t, par.txn); }
      } else {
        var q := k.deps[i].parent;
        assert ChunkOk(k, f, q);
        SameChunk(k, f, q, p);
        SameChunk(k, f, q, c);
        TopAfterJoinElsewhere(k.deps, f.active, e, ChunkOf(k, f, q).txn, i, t);
      }
    }
  }

  /** Activating a dependency between two chunks merges them and keeps every cached value right. */
  lemma ActivateConsistent(k: Cluster, f: Forest, e: nat, g: Forest)
    requires Consistent(k, f) && Crosses(k, f, e) && Activates(k, f, e, g)
    ensures Consistent(k, g)
  {
    forall x | x in k.txs ensures ChunkOk(k, g, x) { ActivatedChunk(k, f, e, g, x); }
    forall i | i in g.active ensures TopOk(k, g, i) { ActivatedTop(k, f, e, g, i); }
  }

  // ----- Deactivating a dependency -----

  /** What deactivating e does to the cached top of dependency i. */
  ghost function TopOnDeactivate(k: Cluster, f: Forest, e: nat, i: nat): SetInfo
    requires ClusterOk(k) && Shaped(k, f) && e in f.active && i < |k.deps|
  {
    var p, c := k.deps[e].parent, k.deps[e].child;
    var topPart := f.top[e];
    var bottomPart := Remove(ChunkOf(k, f, p), topPart);
    if i == e || i !in f.active then f.top[i]
    else if k.deps[i].parent in topPart.txn && p in f.top[i].txn then Remove(f.top[i], bottomPart)
    else if k.deps[i].parent in bottomPart.txn && c in f.top[i].txn then Remove(f.top[i], topPart)
    else f.top[i]
  }

  /** g is the state Deactivate(e) makes of f. */
  ghost predicate Deactivates(k: Cluster, f: Forest, e: nat, g: Forest) {
    && ClusterOk(k) && Shaped(k, f) && Shaped(k, g) && e in f.active
    && g.active == f.active - {e}
    && var p, c := k.deps[e].parent, k.deps[e].child;
    && var topPart := f.top[e];
    && var bottomPart := Remove(ChunkOf(k, f, p), topPart);
    && g.chunk == f.chunk[c := bottomPart][p := topPart]
    && (forall x {:trigger g.rep[x]} :: x in k.txs ==>
          g.rep[x] == if x in topPart.txn then p else if x in bottomPart.txn then c else f.rep[x])
    && (forall i {:trigger g.top[i]} :: 0 <= i < |k.deps| ==> g.top[i] == TopOnDeactivate(k, f, e, i))
  }

  lemma DeactivatedParts(k: Cluster, f: Forest, e: nat)
    requires Consistent(k, f) && e in f.active
    ensures var c, t := ChunkOf(k, f, k.deps[e].parent), f.top[e];
      && IsComponent(k.deps, f.active, c.txn, k.deps[e].parent)
      && t.txn <= c.txn && k.deps[e].child in c.txn - t.txn
      && IsComponent(k.deps, f.active - {e}, c.txn - t.txn, k.deps[e].child)
      && Weighed(k, Remove(c, t))
  {
    var c, t := ChunkOf(k, f, k.deps[e].parent), f.top[e];
    assert ChunkOk(k, f, k.deps[e].parent) && TopOk(k, f, e);
    SplitComponent(k.deps, f.active, e, c.txn, t.txn);
    FeeRateUnion(k.fr, t.txn, c.txn - t.txn);
    assert t.txn + (c.txn - t.txn) == c.txn;
  }

  lemma DeactivatedChunk(k: Cluster, f: Forest, e: nat, g: Forest, x: nat)
    requires Consistent(k, f) && Deactivates(k, f, e, g) && x in k.txs
    ensures ChunkOk(k, g, x)
    ensures var t := f.top[e];
      var b := Remove(ChunkOf(k, f, k.deps[e].parent), t);
      ChunkOf(k, g, x) == if x in t.txn then t else if x in b.txn then b else ChunkOf(k, f, x)
  {
    var p, c := k.deps[e].parent, k.deps[e].child;
    var all, t := ChunkOf(k, f, p), f.top[e];
    DeactivatedParts(k, f, e);
    assert ChunkOk(k, f, p) && ChunkOk(k, f, x) && TopOk(k, f, e);
    SameChunk(k, f, p, x);
    var b := Remove(all, t);
    if x in t.txn {
      assert ChunkOf(k, g, x) == t;
      ComponentOfMember(k.deps, g.active, t.txn, p, x);
    } else if x in b.txn {
      assert ChunkOf(k, g, x) == b;
      ComponentOfMember(k.deps, g.active, b.txn, c, x);
    } else {
      SameChunk(k, f, c, x);
      assert f.rep[x] != p && f.rep[x] != c;
      assert ChunkOf(k, g, x) == ChunkOf(k, f, x);
      ComponentShrink(k.deps, f.active, g.active, ChunkOf(k, f, x).txn, x);
    }
  }

  lemma DeactivatedTop(k: Cluster, f: Forest, e: nat, g: Forest, i: nat)
    requires Consistent(k, f) && Deactivates(k, f, e, g) && i in g.active
    ensures TopOk(k, g, i)
  {
    var p, c, q := k.deps[e].parent, k.deps[e].child, k.deps[i].parent;
    var all, te, t := ChunkOf(k, f, p), f.top[e], f.top[i].txn;
    DeactivatedParts(k, f, e);
    assert TopOk(k, f, e) && TopOk(k, f, i);
    var b := all.txn - te.txn;
    if q in te.txn {
      TopAfterSplitInTop(k.deps, f.active, e, all.txn, te.txn, i, t);
      if p in t {
        FeeRateUnion(k.fr, t - b, b);
        assert t - b + b == t;
      }
    } else if q in b {
      TopAfterSplitInBottom(k.deps, f.active, e, all.txn, te.txn, i, t);
      if c in t {
        FeeRateUnion(k.fr, t - te.txn, te.txn);
        assert t - te.txn + te.txn == t;
      }
    } else {
      assert ChunkOk(k, f, q) && ChunkOk(k, f, p);
      SameChunk(k, f, q, p);
      SameChunk(k, f, q, c);
      TopAfterSplitElsewhere(k.deps, f.active, e, ChunkOf(k, f, q).txn, i, t);
    }
  }

  /** Deactivating an active dependency splits its chunk in two and keeps every cached value right. */
  lemma DeactivateConsistent(k: Cluster, f: Forest, e: nat, g: Forest)
    requires Consistent(k, f) && Deactivates(k, f, e, g)
    ensures Consistent(k, g)
  {
    forall x | x in k.txs ensures ChunkOk(k, g, x) { DeactivatedChunk(k, f, e, g, x); }
    forall i | i in g.active ensures TopOk(k, g, i) { DeactivatedTop(k, f, e, g, i); }
  }

  /** Every chunk of N transactions has exactly N-1 active dependencies in it. */
  lemma ChunkIsTree(k: Cluster, f: Forest, x: nat)
    requires Consistent(k, f) && x in k.txs
    ensures |Inside(k.deps, f.active, ChunkOf(k, f, x).txn)| == |ChunkOf(k, f, x).txn| - 1
  {
    var tops := seq(|k.deps|, i requires 0 <= i < |k.deps| && |f.top| == |k.deps| => f.top[i].txn);
    assert ChunkOk(k, f, x);
    forall d | d in f.active && d < |k.deps| ensures IsTop(k.deps, f.active, d, tops[d]) {
      assert TopOk(k, f, d);
    }
    TreeSize(k.deps, f.active, ChunkOf(k, f, x).txn, x, tops);
  }

  /** The transactions of the chunks represented below n. */
  ghost function RepBelow(k: Cluster, f: Forest, n: nat): set<nat>
    requires Shaped(k, f)
  {
    set x | x in k.txs && f.rep[x] < n
  }

  // ----- Histories -----

  /** A dependency was activated, or deactivated, in the state before; how many transactions the chunk had. */
  datatype Step = Step(e: nat, activate: bool, before: Forest, after: Forest, size: nat)

  /** The step can be made, and its size is that of the chunk that it makes or takes apart. */
  ghost predicate StepOk(k: Cluster, s: Step) {
    && Consistent(k, s.before)
    && if s.activate then
         && Crosses(k, s.before, s.e) && Activates(k, s.before, s.e, s.after)
         && s.size == |ChunkOf(k, s.after, k.deps[s.e].parent).txn|
       else
         && Deactivates(k, s.before, s.e, s.after)
         && s.size == |ChunkOf(k, s.before, k.deps[s.e].parent).txn|
  }

  lemma ActivateStep(k: Cluster, f: Forest, e: nat, g: Forest)
    requires Consistent(k, f) && Crosses(k, f, e) && Activates(k, f, e, g)
    ensures StepOk(k, Step(e, true, f, g, |g.chunk[f.rep[k.deps[e].parent]].txn|))
  {
    assert ChunkOk(k, f, k.deps[e].parent);
  }

  lemma DeactivateStep(k: Cluster, f: Forest, e: nat, g: Forest)
    requires Consistent(k, f) && Deactivates(k, f, e, g)
    ensures StepOk(k, Step(e, false, f, g, |ChunkOf(k, f, k.deps[e].parent).txn|))
  {
  }

  /** All transactions are in chunks of their own. */
  ghost predicate Apart(k: Cluster, f: Forest) {
    Consistent(k, f) && f.active == {} && forall x :: x in k.txs ==> ChunkOf(k, f, x).txn == {x}
  }

  /** The state before step i, or the one that all steps lead to. */
  ghost function StateAt(h: seq<Step>, f: Forest, i: nat): Forest {
    if i < |h| then h[i].before else f
  }

  /** Step i can be made and leads to the state before the next one; all transactions are apart at the beginning. */
  ghost predicate Follows(k: Cluster, h: seq<Step>, f: Forest, i: nat) {
    && (i == 0 ==> Apart(k, StateAt(h, f, 0)))
    && (i < |h| ==> StepOk(k, h[i]) && h[i].after == StateAt(h, f, i + 1))
  }

  /** The steps lead to f. */
  ghost predicate LeadsTo(k: Cluster, h: seq<Step>, f: Forest) {
    forall i: nat {:trigger Follows(k, h, f, i)} :: Follows(k, h, f, i)
  }

  ghost function Work(h: seq<Step>): nat {
    if h == [] then 0 else Work(h[..|h| - 1]) + h[|h| - 1].size
  }

  lemma OneMoreStep(k: Cluster, h: seq<Step>, s: Step)
    requires LeadsTo(k, h, s.before) && StepOk(k, s)
    ensures LeadsTo(k, h + [s], s.after) && Work(h + [s]) == Work(h) + s.size
  {
    var h' := h + [s];
    assert h'[..|h|] == h;
    forall i: nat ensures Follows(k, h', s.after, i) { assert Follows(k, h, s.before, i); }
  }
}
