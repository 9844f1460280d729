/** What LoadLinearization builds, src/cluster_linearize.h:947-961, and what optimality of a state
    means, src/cluster_linearize.h:514-523. */
module Loading {
  import opened FeeFracs
  import opened Sums
  import opened Diagrams
  import opened Trees
  import opened Flow
  import opened Forests
  import opened Merging

  /** No part of a chunk that belongs to a has more than the chunk's positive excess over r. */
  ghost predicate PartsBelow(k: Cluster, f: Forest, a: set<nat>, r: real)
    requires Shaped(k, f)
  {
    forall x :: x in k.txs && f.rep[x] == x ==>
      Excess(FeeRate(k.fr, a * f.chunk[x].txn), r) <= Gain(f, false, r, x)
  }

  lemma {:induction false} PartsSum(k: Cluster, f: Forest, a: set<nat>, d: set<nat>, r: real, n: nat)
    requires Consistent(k, f) && a <= k.txs && n <= |f.chunk| && PartsBelow(k, f, a, r)
    requires forall x :: x in a ==> f.rep[x] in d
    ensures Excess(FeeRate(k.fr, a * RepBelow(k, f, n)), r) <= Sum(Gains(f, false, r)[..n], Reps(k, f) * d)
  {
    if n == 0 {
      assert a * RepBelow(k, f, n) == {};
      FeeRateEmpty(k.fr);
    } else {
      var m := n - 1;
      PartsSum(k, f, a, d, r, m);
      assert Gains(f, false, r)[..n][..m] == Gains(f, false, r)[..m];
      if m in Reps(k, f) {
        var part := a * f.chunk[m].txn;
        forall x | x in k.txs ensures f.rep[x] == m <==> x in f.chunk[m].txn { SameChunk(k, f, m, x); }
        assert a * RepBelow(k, f, n) == a * RepBelow(k, f, m) + part;
        FeeRateUnion(k.fr, a * RepBelow(k, f, m), part);
        ExcessPlus(FeeRate(k.fr, a * RepBelow(k, f, m)), FeeRate(k.fr, part), r);
        if m !in d {
          assert part == {};
          FeeRateEmpty(k.fr);
        }
      } else {
        forall x | x in k.txs ensures f.rep[x] != m { RepInChunk(k, f, x); }
        assert a * RepBelow(k, f, n) == a * RepBelow(k, f, m);
      }
    }
  }

  /** The excess of a is at most the gain of the chunks it takes parts from. */
  lemma PartsBelowGain(k: Cluster, f: Forest, a: set<nat>, d: set<nat>, r: real)
    requires Consistent(k, f) && a <= k.txs && PartsBelow(k, f, a, r)
    requires forall x :: x in a ==> f.rep[x] in d
    ensures Excess(FeeRate(k.fr, a), r) <= TotalGain(k, f, false, r, d)
  {
    var n := |f.chunk|;
    PartsSum(k, f, a, d, r, n);
    assert Gains(f, false, r)[..n] == Gains(f, false, r);
    forall x | x in k.txs ensures f.rep[x] < n { RepInChunk(k, f, x); }
    assert a * RepBelow(k, f, n) == a;
  }

  /** d is made of whole chunks. */
  ghost predicate WholeChunks(k: Cluster, f: Forest, d: set<nat>)
    requires Shaped(k, f)
  {
    d <= k.txs && forall x, y :: x in d && y in ChunkOf(k, f, x).txn ==> y in d
  }

  lemma WholeBelowGain(k: Cluster, f: Forest, d: set<nat>, r: real)
    requires Consistent(k, f) && WholeChunks(k, f, d)
    ensures Excess(FeeRate(k.fr, d), r) <= TotalGain(k, f, false, r, d)
  {
    forall x | x in k.txs && f.rep[x] == x
      ensures Excess(FeeRate(k.fr, d * f.chunk[x].txn), r) <= Gain(f, false, r, x)
    {
      var c := f.chunk[x].txn;
      assert ChunkOk(k, f, x);
      if y :| y in d * c {
        SameChunk(k, f, x, y);
        assert d * c == c;
      } else {
        assert d * c == {};
        FeeRateEmpty(k.fr);
      }
    }
    forall x | x in d ensures f.rep[x] in d { RepInChunk(k, f, x); }
    PartsBelowGain(k, f, d, d, r);
  }

  // ----- Optimality -----

  /** No active dependency of the chunk of x has a top of higher feerate than the chunk. */
  ghost predicate ChunkOptimal(k: Cluster, f: Forest, x: nat)
    requires ClusterOk(k) && Shaped(k, f) && x in k.txs
  {
    forall i :: i in f.active && k.deps[i].parent in ChunkOf(k, f, x).txn ==>
      !Higher(f.top[i].feerate, ChunkOf(k, f, x).feerate)
  }

  /** With every child it contains, a contains the child's parents. */
  ghost predicate AncestorClosed(k: Cluster, a: set<nat>) {
    a <= k.txs && forall i :: 0 <= i < |k.deps| && k.deps[i].child in a ==> k.deps[i].parent in a
  }

  /** No ancestor-closed part of an optimal chunk has a higher feerate than the chunk. */
  lemma OptimalChunk(k: Cluster, f: Forest, x: nat, a: set<nat>)
    requires Consistent(k, f) && x in k.txs && ChunkOptimal(k, f, x) && AncestorClosed(k, a)
    ensures Excess(FeeRate(k.fr, a * ChunkOf(k, f, x).txn), ChunkRate(k, f, x)) <= 0.0
  {
    var c, r := ChunkOf(k, f, x), ChunkRate(k, f, x);
    assert ChunkOk(k, f, x);
    ChunkSize(k, f, x);
    var w := Excesses(k.fr, r);
    var tops := seq(|k.deps|, i requires 0 <= i < |k.deps| && |f.top| == |k.deps| => f.top[i].txn);
    forall d | d in f.active && d < |k.deps| && k.deps[d].parent in c.txn
      ensures IsTop(k.deps, f.active, d, tops[d]) && Sum(w, tops[d]) <= 0.0
    {
      assert TopOk(k, f, d);
      var t := f.top[d];
      assert k.deps[d].parent in t.txn;
      assert t.feerate.size > 0 by { TopSize(k, f, d); }
      CompareIsRate(t.feerate, c.feerate);
      ExcessSign(t.feerate, r);
      ExcessIsSum(k.fr, t.txn, r);
    }
    ExcessIsSum(k.fr, c.txn, r);
    ExcessSign(c.feerate, r);
    NoPartBeatsTree(k.deps, f.active, c.txn, x, tops, w, a * c.txn);
    ExcessIsSum(k.fr, a * c.txn, r);
  }

  lemma TopSize(k: Cluster, f: Forest, d: nat)
    requires Consistent(k, f) && d in f.active
    ensures f.top[d].feerate.size > 0
  {
    assert TopOk(k, f, d) && ChunkOk(k, f, k.deps[d].parent);
    var t, p := f.top[d].txn, k.deps[d].parent;
    SplitComponent(k.deps, f.active, d, ChunkOf(k, f, p).txn, t);
    assert p in t && p < |k.fr|;
    SizePositive(k.fr, t);
  }

  lemma OptimalPart(k: Cluster, f: Forest, x: nat, a: set<nat>, r: real)
    requires Consistent(k, f) && x in k.txs && f.rep[x] == x && ChunkOptimal(k, f, x) && AncestorClosed(k, a)
    ensures Excess(FeeRate(k.fr, a * f.chunk[x].txn), r) <= Gain(f, false, r, x)
  {
    var c := f.chunk[x];
    var part := a * c.txn;
    assert ChunkOk(k, f, x);
    ChunkSize(k, f, x);
    if y :| y in part {
      OptimalChunk(k, f, x, a);
      assert y < |k.fr|;
      SizePositive(k.fr, part);
      ExcessSign(FeeRate(k.fr, part), Rate(c.feerate));
      SizeMonotone(k.fr, part, c.txn);
      SmallerAndLower(FeeRate(k.fr, part), c.feerate, r);
    } else {
      assert part == {};
      FeeRateEmpty(k.fr);
    }
  }

  /** In an optimal state, no ancestor-closed set is above any supporting line of the chunks. */
  lemma OptimalState(k: Cluster, f: Forest, a: set<nat>, r: real)
    requires Consistent(k, f) && AncestorClosed(k, a)
    requires forall x {:trigger ChunkOptimal(k, f, x)} :: x in k.txs ==> ChunkOptimal(k, f, x)
    ensures Excess(FeeRate(k.fr, a), r) <= TotalGain(k, f, false, r, k.txs)
  {
    forall x | x in k.txs && f.rep[x] == x
      ensures Excess(FeeRate(k.fr, a * f.chunk[x].txn), r) <= Gain(f, false, r, x)
    {
      assert ChunkOptimal(k, f, x);
      OptimalPart(k, f, x, a, r);
    }
    PartsBelowGain(k, f, a, k.txs, r);
  }

  // ----- Loading a linearization -----

  /** After the transactions of d have been loaded. */
  ghost predicate Loaded(k: Cluster, f: Forest, d: set<nat>) {
    && Consistent(k, f)
    && AncestorClosed(k, d)
    && WholeChunks(k, f, d)
    && Topological(k, f, d)
    && (forall x :: x in k.txs && x !in d ==> ChunkOf(k, f, x).txn == {x})
  }

  ghost function LoadRun(f: Forest, d: set<nat>, x: nat): Run {
    Run(f, d, {}, x, false)
  }

  /** The next transaction, whose parents are loaded, starts a run of upward merges. */
  lemma LoadStarts(k: Cluster, f: Forest, d: set<nat>, x: nat)
    requires Loaded(k, f, d) && x in k.txs && x !in d && AncestorClosed(k, d + {x})
    ensures RunInv(k, LoadRun(f, d, x), f, x)
  {
    var run := LoadRun(f, d, x);
    assert ChunkOf(k, f, x).txn == {x};
    forall i: nat | LeadsOut(k, f, false, x, i) ensures k.deps[i].parent in d {
      SameChunk(k, f, x, k.deps[i].child);
      SameChunk(k, f, x, k.deps[i].parent);
    }
    forall r: real ensures TotalGain(k, f, false, r, d + {x}) >= TotalGain(k, f, false, r, d) {
      var w := Gains(f, false, r);
      SumMonotone(w, Reps(k, f) * d, w, Reps(k, f) * (d + {x}));
    }
  }

  lemma LoadEnds(k: Cluster, f: Forest, d: set<nat>, x: nat, g: Forest)
    requires Loaded(k, f, d) && x in k.txs && x !in d && AncestorClosed(k, d + {x})
    requires RunInv(k, LoadRun(f, d, x), g, x) && Stuck(k, g, false, x)
    ensures Loaded(k, g, d + {x})
    ensures forall r: real :: TotalGain(k, g, false, r, d + {x}) >= TotalGain(k, f, false, r, d)
  {
    var run, w := LoadRun(f, d, x), ChunkOf(k, g, x).txn;
    assert ChunkOk(k, g, x);
    assert d + w == d + {x};
    forall y, z | y in d + {x} && z in ChunkOf(k, g, y).txn ensures z in d + {x} {
      SameChunk(k, g, x, y);
      if y !in w { assert g.rep[y] == f.rep[y]; }
    }
    forall y | y in k.txs && y !in d + {x} ensures ChunkOf(k, g, y).txn == {y} {
      assert g.rep[y] == f.rep[y];
    }
    forall i: nat | i < |k.deps| && Crosses(k, g, i) && k.deps[i].parent in d + {x} && k.deps[i].child in d + {x}
      ensures ChunkRate(k, g, k.deps[i].child) < ChunkRate(k, g, k.deps[i].parent)
    {
      LoadEndsAt(k, f, d, x, g, i);
    }
  }

  lemma LoadEndsAt(k: Cluster, f: Forest, d: set<nat>, x: nat, g: Forest, i: nat)
    requires Loaded(k, f, d) && x in k.txs && x !in d && AncestorClosed(k, d + {x})
    requires RunInv(k, LoadRun(f, d, x), g, x) && Stuck(k, g, false, x)
    requires Crosses(k, g, i) && k.deps[i].parent in d + {x} && k.deps[i].child in d + {x}
    ensures ChunkRate(k, g, k.deps[i].child) < ChunkRate(k, g, k.deps[i].parent)
  {
    var u, v, w := k.deps[i].child, k.deps[i].parent, ChunkOf(k, g, x).txn;
    SameChunk(k, g, x, u);
    SameChunk(k, g, x, v);
    assert ChunkOk(k, g, x);
    if u in w {
      assert LeadsOut(k, g, false, x, i);
    } else {
      assert u in d && v in d;
      assert g.rep[u] == f.rep[u] && ChunkOf(k, g, u) == ChunkOf(k, f, u);
      SameChunk(k, f, u, v);
      SameChunk(k, g, u, v);
      assert Crosses(k, f, i);
      if v !in w { assert g.rep[v] == f.rep[v]; }
    }
  }
}
