/** What Improve does, src/cluster_linearize.h:884-904: splitting a chunk whose top beats it and then
    merging the top upward and the bottom downward makes the state topological again, and never worse. */
module Improving {
  import opened FeeFracs
  import opened Sums
  import opened Forests
  import opened Merging

  /** At every feerate, f is worth at least as much as f0. */
  ghost predicate AsGood(k: Cluster, f0: Forest, f: Forest)
    requires Shaped(k, f0) && Shaped(k, f)
  {
    forall r: real :: TotalGain(k, f, false, r, k.txs) >= TotalGain(k, f0, false, r, k.txs)
  }

  // ----- Gains counted from above and from below differ by a constant -----

  ghost function ChunkExcesses(f: Forest, r: real): (w: seq<real>)
    ensures |w| == |f.chunk| && forall x :: 0 <= x < |w| ==> w[x] == Excess(f.chunk[x].feerate, r)
  {
    seq(|f.chunk|, x requires 0 <= x < |f.chunk| => Excess(f.chunk[x].feerate, r))
  }

  lemma {:induction false} ExcessOfChunks(k: Cluster, f: Forest, r: real, n: nat)
    requires Consistent(k, f) && n <= |f.chunk|
    ensures Sum(ChunkExcesses(f, r)[..n], Reps(k, f)) == Excess(FeeRate(k.fr, RepBelow(k, f, n)), r)
  {
    if n == 0 {
      assert RepBelow(k, f, n) == {};
      FeeRateEmpty(k.fr);
    } else {
      var m := n - 1;
      ExcessOfChunks(k, f, r, m);
      assert ChunkExcesses(f, r)[..n][..m] == ChunkExcesses(f, r)[..m];
      if m in Reps(k, f) {
        assert ChunkOk(k, f, m);
        var c := f.chunk[m].txn;
        forall x | x in k.txs ensures f.rep[x] == m <==> x in c { SameChunk(k, f, m, x); }
        assert RepBelow(k, f, n) == RepBelow(k, f, m) + c;
        FeeRateUnion(k.fr, RepBelow(k, f, m), c);
        ExcessPlus(FeeRate(k.fr, RepBelow(k, f, m)), FeeRate(k.fr, c), r);
      } else {
        forall x | x in k.txs ensures f.rep[x] != m { RepInChunk(k, f, x); }
        assert RepBelow(k, f, n) == RepBelow(k, f, m);
      }
    }
  }

  /** The gains above r exceed the shortfalls below r by the excess of the whole cluster. */
  lemma GainDuality(k: Cluster, f: Forest, r: real)
    requires Consistent(k, f)
    ensures TotalGain(k, f, false, r, k.txs) - TotalGain(k, f, true, r, k.txs) == Excess(FeeRate(k.fr, k.txs), r)
  {
    var n := |f.chunk|;
    ExcessOfChunks(k, f, r, n);
    assert ChunkExcesses(f, r)[..n] == ChunkExcesses(f, r);
    forall x | x in k.txs ensures f.rep[x] < n { RepInChunk(k, f, x); }
    assert RepBelow(k, f, n) == k.txs;
    assert Reps(k, f) * k.txs == Reps(k, f);
    SumDifference(Gains(f, false, r), Gains(f, true, r), ChunkExcesses(f, r), Reps(k, f));
  }

  lemma AsGoodFromBelow(k: Cluster, f0: Forest, f: Forest)
    requires Consistent(k, f0) && Consistent(k, f)
    ensures AsGood(k, f0, f) <==> forall r: real :: TotalGain(k, f, true, r, k.txs) >= TotalGain(k, f0, true, r, k.txs)
  {
    forall r: real
      ensures TotalGain(k, f, false, r, k.txs) - TotalGain(k, f0, false, r, k.txs)
           == TotalGain(k, f, true, r, k.txs) - TotalGain(k, f0, true, r, k.txs)
    {
      GainDuality(k, f0, r);
      GainDuality(k, f, r);
    }
  }

  // ----- Two states with the same chunks -----

  ghost predicate SameChunks(k: Cluster, f0: Forest, f: Forest)
    requires Shaped(k, f0) && Shaped(k, f)
  {
    forall x {:trigger ChunkOf(k, f, x)} :: x in k.txs ==> ChunkOf(k, f, x) == ChunkOf(k, f0, x)
  }

  lemma SameChunksTopological(k: Cluster, f0: Forest, f: Forest)
    requires Consistent(k, f0) && Consistent(k, f) && SameChunks(k, f0, f) && Topological(k, f0, k.txs)
    ensures Topological(k, f, k.txs)
  {
    forall i: nat | i < |k.deps| && Crosses(k, f, i)
      ensures ChunkRate(k, f, k.deps[i].child) < ChunkRate(k, f, k.deps[i].parent)
    {
      var p, c := k.deps[i].parent, k.deps[i].child;
      SameChunk(k, f, p, c);
      SameChunk(k, f0, p, c);
      assert ChunkOf(k, f, p) == ChunkOf(k, f0, p) && ChunkOf(k, f, c) == ChunkOf(k, f0, c);
      assert Crosses(k, f0, i);
    }
  }

  // ----- The split -----

  /** e may be deactivated by Improve: the state is topological and e's top beats its chunk. */
  ghost predicate Splittable(k: Cluster, f0: Forest, e: nat) {
    && Consistent(k, f0) && Topological(k, f0, k.txs) && e in f0.active
    && Higher(f0.top[e].feerate, ChunkOf(k, f0, k.deps[e].parent).feerate)
  }

  ghost predicate Split(k: Cluster, f0: Forest, e: nat, f: Forest) {
    Splittable(k, f0, e) && Deactivates(k, f0, e, f)
  }

  /** The run of upward merges that follows the split, and the run of downward merges after that. */
  ghost function UpRun(k: Cluster, f0: Forest, e: nat): Run
    requires Splittable(k, f0, e)
  {
    Run(f0, k.txs, ChunkOf(k, f0, k.deps[e].parent).txn - f0.top[e].txn, k.deps[e].parent, false)
  }

  ghost function DownRun(k: Cluster, f0: Forest, e: nat, f: Forest): Run
    requires Splittable(k, f0, e) && Shaped(k, f)
  {
    Run(f0, k.txs, ChunkOf(k, f, k.deps[e].parent).txn, k.deps[e].child, true)
  }

  lemma SplitFacts(k: Cluster, f0: Forest, e: nat, f: Forest)
    requires Split(k, f0, e, f)
    ensures Consistent(k, f)
    ensures var p, c := k.deps[e].parent, k.deps[e].child;
      var all, t, b := ChunkOf(k, f0, p), ChunkOf(k, f, p), ChunkOf(k, f, c);
      && t == f0.top[e] && b == Remove(all, t) && t.txn !! b.txn && all.txn == t.txn + b.txn
      && p in t.txn && c in b.txn && ChunkOf(k, f0, c) == all
      && f.rep[p] == p && f.rep[c] == c
      && all.feerate == Plus(t.feerate, b.feerate)
      && Rate(b.feerate) < Rate(all.feerate) < Rate(t.feerate)
  {
    var p, c := k.deps[e].parent, k.deps[e].child;
    DeactivateConsistent(k, f0, e, f);
    DeactivatedParts(k, f0, e);
    DeactivatedChunk(k, f0, e, f, p);
    DeactivatedChunk(k, f0, e, f, c);
    SameChunk(k, f0, p, c);
    assert ChunkOk(k, f, p) && ChunkOk(k, f, c) && TopOk(k, f0, e);
    ChunkSize(k, f0, p);
    ChunkSize(k, f, p);
    ChunkSize(k, f, c);
    var all, t, b := ChunkOf(k, f0, p).feerate, ChunkOf(k, f, p).feerate, ChunkOf(k, f, c).feerate;
    CompareIsRate(t, all);
    assert Plus(t, b) == Plus(b, t) == all;
    if Rate(t) <= Rate(b) { RateOfPlus(t, b); } else { RateOfPlus(b, t); }
  }

  /** The split replaces the representative of the chunk by the two ends of e. */
  lemma SplitReps(k: Cluster, f0: Forest, e: nat, f: Forest)
    requires Split(k, f0, e, f)
    ensures var p, c := k.deps[e].parent, k.deps[e].child;
      && f0.rep[p] in Reps(k, f0)
      && p !in Reps(k, f0) - {f0.rep[p]} && c !in Reps(k, f0) - {f0.rep[p]}
      && Reps(k, f) == Reps(k, f0) - {f0.rep[p]} + {p, c}
  {
    SplitFacts(k, f0, e, f);
    var p, c := k.deps[e].parent, k.deps[e].child;
    RepInChunk(k, f0, p);
    SameChunk(k, f0, p, c);
    forall x | x in k.txs
      ensures x in Reps(k, f) <==> (x in Reps(k, f0) && x != f0.rep[p]) || x == p || x == c
    {
      SameChunk(k, f0, p, x);
      DeactivatedChunk(k, f0, e, f, x);
    }
  }

  lemma SplitGain(k: Cluster, f0: Forest, e: nat, f: Forest, r: real)
    requires Split(k, f0, e, f)
    ensures Shaped(k, f)
    ensures TotalGain(k, f, false, r, k.txs) >= TotalGain(k, f0, false, r, k.txs)
  {
    SplitFacts(k, f0, e, f);
    var p, c := k.deps[e].parent, k.deps[e].child;
    var a := f0.rep[p];
    var before, after := Reps(k, f0) * k.txs, Reps(k, f) * k.txs;
    SplitReps(k, f0, e, f);
    assert after == before - {a} + {p, c};
    var w, v := Gains(f0, false, r), Gains(f, false, r);
    ExcessPlus(f.chunk[p].feerate, f.chunk[c].feerate, r);
    SumSplit(w, v, before, a, p, c);
  }

  /** Unless the top depends on the bottom, the run of upward merges starts well. */
  lemma UpRunStarts(k: Cluster, f0: Forest, e: nat, f: Forest)
    requires Split(k, f0, e, f)
    requires Shaped(k, f) && forall i: nat :: LeadsOut(k, f, false, k.deps[e].parent, i) ==>
      k.deps[i].parent !in ChunkOf(k, f, k.deps[e].child).txn
    ensures RunInv(k, UpRun(k, f0, e), f, k.deps[e].parent)
  {
    SplitFacts(k, f0, e, f);
    var run, p, c := UpRun(k, f0, e), k.deps[e].parent, k.deps[e].child;
    var all := ChunkOf(k, f0, p).txn;
    assert run.other == ChunkOf(k, f, c).txn;
    assert ChunkOk(k, f0, p);
    forall y | y in all ensures ChunkOf(k, f0, y) == ChunkOf(k, f0, p) { SameChunk(k, f0, p, y); }
    assert RunOk(k, run) by {
      forall x, y | x in run.scope && y in ChunkOf(k, run.start, x).txn ensures y in run.scope {
        assert ChunkOk(k, f0, x);
      }
    }
    assert Bounded(k, run, f, p) by { UpRunBounded(k, f0, e, f); }
    assert Untouched(k, run, f, p) by {
      forall y | y in k.txs ensures y in run.other ==> ChunkOf(k, f, y).txn == run.other {
        SameChunk(k, f, c, y);
      }
      forall y | y in k.txs && y !in ChunkOf(k, f, p).txn && y !in run.other
        ensures f.rep[y] == f0.rep[y] && f.chunk[f.rep[y]] == f0.chunk[f.rep[y]]
      {
        DeactivatedChunk(k, f0, e, f, y);
      }
    }
    assert k.txs + ChunkOf(k, f, p).txn == k.txs by { assert ChunkOk(k, f, p); }
    forall r: real ensures TotalGain(k, f, false, r, k.txs) >= TotalGain(k, f0, false, r, k.txs) {
      SplitGain(k, f0, e, f, r);
    }
  }

  lemma UpRunBounded(k: Cluster, f0: Forest, e: nat, f: Forest)
    requires Split(k, f0, e, f) && RunOk(k, UpRun(k, f0, e))
    requires Shaped(k, f) && forall i: nat :: LeadsOut(k, f, false, k.deps[e].parent, i) ==>
      k.deps[i].parent !in ChunkOf(k, f, k.deps[e].child).txn
    ensures Bounded(k, UpRun(k, f0, e), f, k.deps[e].parent)
  {
    SplitFacts(k, f0, e, f);
    var run, p, c := UpRun(k, f0, e), k.deps[e].parent, k.deps[e].child;
    forall y | y in ChunkOf(k, f, p).txn ensures ChunkRate(k, f0, y) == ChunkRate(k, f0, p) {
      SameChunk(k, f0, p, y);
    }
    forall i: nat | LeadsOut(k, f, false, p, i)
      ensures var z := k.deps[i].parent;
        z in k.txs && z !in run.other && ChunkRate(k, f0, p) < ChunkRate(k, f0, z)
    {
      var u, z := k.deps[i].child, k.deps[i].parent;
      SameChunk(k, f, p, u);
      SameChunk(k, f, p, z);
      SameChunk(k, f0, p, u);
      SameChunk(k, f0, p, z);
      assert Crosses(k, f0, i);
    }
  }

  /** If the top depends on the bottom, the first merge is with the bottom: any other chunk that the
      top depends on beats the whole chunk, and so beats the bottom. */
  lemma MergeBackPick(k: Cluster, f0: Forest, e: nat, f: Forest, i: nat, b: nat)
    requires Split(k, f0, e, f) && Shaped(k, f)
    requires LeadsOut(k, f, false, k.deps[e].parent, i) && k.deps[i].parent in ChunkOf(k, f, k.deps[e].child).txn
    requires BestMerge(k, f, false, k.deps[e].parent, b)
    ensures f.rep[k.deps[b].parent] == k.deps[e].child && f.rep[k.deps[b].child] == k.deps[e].parent
  {
    SplitFacts(k, f0, e, f);
    var p, c := k.deps[e].parent, k.deps[e].child;
    var z, u := k.deps[b].parent, k.deps[b].child;
    SameChunk(k, f, c, k.deps[i].parent);
    SameChunk(k, f, c, z);
    if z !in ChunkOf(k, f, c).txn {
      SameChunk(k, f, p, z);
      SameChunk(k, f, p, u);
      SameChunk(k, f0, p, u);
      SameChunk(k, f0, p, z);
      DeactivatedChunk(k, f0, e, f, z);
      assert Crosses(k, f0, b);
      assert false;
    }
  }

  /** Then the chunk is together again. */
  lemma MergeBackChunks(k: Cluster, f0: Forest, e: nat, f: Forest, b: nat, g: Forest)
    requires Split(k, f0, e, f) && Consistent(k, f) && Crosses(k, f, b) && Activates(k, f, b, g)
    requires f.rep[k.deps[b].child] == k.deps[e].parent && f.rep[k.deps[b].parent] == k.deps[e].child
    ensures SameChunks(k, f0, g)
  {
    SplitFacts(k, f0, e, f);
    var p, c := k.deps[e].parent, k.deps[e].child;
    var all := ChunkOf(k, f0, p);
    assert Join(ChunkOf(k, f, c), ChunkOf(k, f, p)) == all;
    forall x | x in k.txs ensures ChunkOf(k, g, x) == ChunkOf(k, f0, x) {
      ActivatedChunk(k, f, b, g, x);
      DeactivatedChunk(k, f0, e, f, x);
      SameChunk(k, f0, p, x);
    }
  }

  lemma MergeBack(k: Cluster, f0: Forest, e: nat, f: Forest, i: nat, b: nat, g: Forest)
    requires Split(k, f0, e, f) && Shaped(k, f)
    requires LeadsOut(k, f, false, k.deps[e].parent, i) && k.deps[i].parent in ChunkOf(k, f, k.deps[e].child).txn
    requires BestMerge(k, f, false, k.deps[e].parent, b) && Activates(k, f, b, g)
    ensures Consistent(k, g) && Topological(k, g, k.txs) && AsGood(k, f0, g)
  {
    SplitFacts(k, f0, e, f);
    MergeBackPick(k, f0, e, f, i, b);
    ActivateConsistent(k, f, b, g);
    MergeBackChunks(k, f0, e, f, b, g);
    SameChunksTopological(k, f0, g);
    assert ChunkOf(k, g, k.deps[b].parent) == ChunkOf(k, f0, k.deps[e].parent) by {
      SameChunk(k, f, k.deps[e].child, k.deps[b].parent);
      SameChunk(k, f0, k.deps[e].parent, k.deps[b].parent);
    }
    forall r: real ensures TotalGain(k, g, false, r, k.txs) >= TotalGain(k, f0, false, r, k.txs) {
      MergeBackGain(k, f0, e, f, b, g, r);
    }
  }

  lemma MergeBackGain(k: Cluster, f0: Forest, e: nat, f: Forest, b: nat, g: Forest, r: real)
    requires Split(k, f0, e, f) && Consistent(k, f) && Crosses(k, f, b) && Activates(k, f, b, g)
    requires f.rep[k.deps[b].child] == k.deps[e].parent && f.rep[k.deps[b].parent] == k.deps[e].child
    requires ChunkOf(k, g, k.deps[b].parent) == ChunkOf(k, f0, k.deps[e].parent)
    ensures TotalGain(k, g, false, r, k.txs) == TotalGain(k, f0, false, r, k.txs)
  {
    SplitFacts(k, f0, e, f);
    var p, c := k.deps[e].parent, k.deps[e].child;
    var a := f0.rep[p];
    var before, after := Reps(k, f0) * k.txs, Reps(k, g) * k.txs;
    SplitReps(k, f0, e, f);
    StepReps(k, f, b, g);
    assert after == before - {a} + {c};
    SumRelabel(Gains(f0, false, r), Gains(g, false, r), before, a, c);
  }

  // ----- The downward run, and the state it ends in -----

  /** The bottom's feerate is below the chunk's. */
  lemma BottomRate(k: Cluster, f0: Forest, e: nat)
    requires Splittable(k, f0, e)
    ensures var all := ChunkOf(k, f0, k.deps[e].parent);
      Rate(FeeRate(k.fr, all.txn - f0.top[e].txn)) < Rate(all.feerate)
  {
    var p, c := k.deps[e].parent, k.deps[e].child;
    var all, t := ChunkOf(k, f0, p), f0.top[e];
    DeactivatedParts(k, f0, e);
    ChunkSize(k, f0, p);
    assert ChunkOk(k, f0, p) && TopOk(k, f0, e);
    var b := Remove(all, t);
    SizePositive(k.fr, t.txn);
    SizePositive(k.fr, b.txn);
    assert p in t.txn && c in b.txn;
    CompareIsRate(t.feerate, all.feerate);
    assert Plus(t.feerate, b.feerate) == Plus(b.feerate, t.feerate) == all.feerate;
    if Rate(t.feerate) <= Rate(b.feerate) {
      RateOfPlus(t.feerate, b.feerate);
    } else {
      RateOfPlus(b.feerate, t.feerate);
    }
  }

  /** During the upward run the bottom stays a chunk of its own. */
  lemma BottomStays(k: Cluster, f0: Forest, e: nat, f: Forest)
    requires Splittable(k, f0, e) && RunInv(k, UpRun(k, f0, e), f, k.deps[e].parent)
    ensures var p, c := k.deps[e].parent, k.deps[e].child;
      && c in UpRun(k, f0, e).other && UpRun(k, f0, e).other != {}
      && ChunkOf(k, f, c).txn == UpRun(k, f0, e).other
      && ChunkRate(k, f, c) < ChunkRate(k, f0, c) == ChunkRate(k, f0, p)
      && ChunkOf(k, f, c).txn !! ChunkOf(k, f, p).txn
      && f0.rep[c] == f0.rep[p]
  {
    var p, c := k.deps[e].parent, k.deps[e].child;
    DeactivatedParts(k, f0, e);
    BottomRate(k, f0, e);
    assert ChunkOk(k, f, c) && ChunkOk(k, f0, p);
    SameChunk(k, f0, p, c);
    SameChunk(k, f, p, c);
  }

  lemma DownRunOk(k: Cluster, f0: Forest, e: nat, f: Forest)
    requires Splittable(k, f0, e) && RunInv(k, UpRun(k, f0, e), f, k.deps[e].parent)
    ensures RunOk(k, DownRun(k, f0, e, f))
  {
    var run := DownRun(k, f0, e, f);
    BottomStays(k, f0, e, f);
    assert ChunkOk(k, f, k.deps[e].parent);
    forall x, y | x in run.scope && y in ChunkOf(k, f0, x).txn ensures y in run.scope { assert ChunkOk(k, f0, x); }
  }

  lemma DownRunBounded(k: Cluster, f0: Forest, e: nat, f: Forest)
    requires Splittable(k, f0, e) && RunInv(k, UpRun(k, f0, e), f, k.deps[e].parent)
    requires RunOk(k, DownRun(k, f0, e, f))
    ensures Bounded(k, DownRun(k, f0, e, f), f, k.deps[e].child)
  {
    var run, p, c := DownRun(k, f0, e, f), k.deps[e].parent, k.deps[e].child;
    BottomStays(k, f0, e, f);
    var bottom := ChunkOf(k, f, c).txn;
    forall y | y in bottom ensures y in k.txs && f0.rep[y] == f0.rep[p] {
      assert ChunkOk(k, f0, p);
      SameChunk(k, f0, p, y);
    }
    forall i: nat | LeadsOut(k, f, true, c, i)
      ensures var z := k.deps[i].child; z !in run.other && ChunkRate(k, f0, z) < ChunkRate(k, f0, p)
    {
      var u, z := k.deps[i].parent, k.deps[i].child;
      SameChunk(k, f, c, u);
      SameChunk(k, f, c, z);
      SameChunk(k, f, p, z);
      if z in run.other {
        assert LeadsOut(k, f, false, p, i);
        assert false;
      }
      assert f.rep[z] == f0.rep[z];
      if f0.rep[z] == f0.rep[p] {
        SameChunk(k, f0, p, z);
        SameChunk(k, f0, p, c);
        OutsideBoth(k, f0, e, f, z);
        assert false;
      }
      assert Crosses(k, f0, i);
    }
  }

  /** What neither grew from the top nor is the bottom was never in the chunk that was split. */
  lemma OutsideBoth(k: Cluster, f0: Forest, e: nat, f: Forest, z: nat)
    requires Splittable(k, f0, e) && RunInv(k, UpRun(k, f0, e), f, k.deps[e].parent) && z in k.txs
    requires z !in ChunkOf(k, f, k.deps[e].parent).txn && z !in UpRun(k, f0, e).other
    ensures f0.rep[z] != f0.rep[k.deps[e].parent]
  {
    var p := k.deps[e].parent;
    assert f.rep[z] == f0.rep[z];
    SameChunk(k, f0, z, p);
    SameChunk(k, f, z, p);
    SameChunk(k, f, p, z);
  }

  /** Once the upward merges are done, the run of downward merges starts well. */
  lemma DownRunStarts(k: Cluster, f0: Forest, e: nat, f: Forest)
    requires Splittable(k, f0, e) && RunInv(k, UpRun(k, f0, e), f, k.deps[e].parent)
    ensures RunInv(k, DownRun(k, f0, e, f), f, k.deps[e].child)
  {
    var run, p, c := DownRun(k, f0, e, f), k.deps[e].parent, k.deps[e].child;
    DownRunOk(k, f0, e, f);
    DownRunBounded(k, f0, e, f);
    BottomStays(k, f0, e, f);
    assert Untouched(k, run, f, c) by {
      forall y | y in run.other ensures ChunkOf(k, f, y).txn == run.other && y !in ChunkOf(k, f, c).txn {
        assert ChunkOk(k, f, p);
        SameChunk(k, f, p, y);
      }
      assert ChunkOk(k, f, c);
    }
    assert k.txs + ChunkOf(k, f, p).txn == k.txs == k.txs + ChunkOf(k, f, c).txn by {
      assert ChunkOk(k, f, p) && ChunkOk(k, f, c);
    }
    AsGoodFromBelow(k, f0, f);
  }

  /** After both runs no dependency is left that asks for a merge, and nothing has been lost. */
  lemma ImproveEnds(k: Cluster, f0: Forest, e: nat, f: Forest, g: Forest)
    requires Splittable(k, f0, e)
    requires RunInv(k, UpRun(k, f0, e), f, k.deps[e].parent) && Stuck(k, f, false, k.deps[e].parent)
    requires RunInv(k, DownRun(k, f0, e, f), g, k.deps[e].child) && Stuck(k, g, true, k.deps[e].child)
    ensures Topological(k, g, k.txs) && AsGood(k, f0, g)
  {
    forall i: nat | i < |k.deps| && Crosses(k, g, i)
      ensures ChunkRate(k, g, k.deps[i].child) < ChunkRate(k, g, k.deps[i].parent)
    {
      ImproveEndsAt(k, f0, e, f, g, i);
    }
    assert k.txs + ChunkOf(k, g, k.deps[e].child).txn == k.txs by { assert ChunkOk(k, g, k.deps[e].child); }
    AsGoodFromBelow(k, f0, g);
  }

  /** Where a transaction is after both runs, and how the feerate of its chunk has moved. */
  lemma ImproveMoves(k: Cluster, f0: Forest, e: nat, f: Forest, g: Forest, x: nat)
    requires Splittable(k, f0, e) && x in k.txs
    requires RunInv(k, UpRun(k, f0, e), f, k.deps[e].parent)
    requires RunInv(k, DownRun(k, f0, e, f), g, k.deps[e].child)
    ensures var p, c := k.deps[e].parent, k.deps[e].child;
      var up, down, whole := ChunkRate(k, f, p), ChunkRate(k, g, c), ChunkRate(k, f0, p);
      && down < whole < up
      && (x in ChunkOf(k, f, p).txn ==>
            x !in ChunkOf(k, g, c).txn && ChunkRate(k, g, x) == up && whole <= ChunkRate(k, f0, x) <= up)
      && (x in ChunkOf(k, g, c).txn ==>
            ChunkRate(k, g, x) == down && down <= ChunkRate(k, f0, x) <= whole)
      && (x !in ChunkOf(k, f, p).txn && x !in ChunkOf(k, g, c).txn ==>
            g.rep[x] == f0.rep[x] && ChunkRate(k, g, x) == ChunkRate(k, f0, x))
  {
    var p, c := k.deps[e].parent, k.deps[e].child;
    BottomStays(k, f0, e, f);
    assert ChunkOk(k, f, p) && ChunkOk(k, g, c) && ChunkOk(k, g, x);
    SameChunk(k, g, c, x);
  }

  /** A dependency out of the chunk that grew upward does not reach the one that grew downward. */
  lemma UpChunkAvoidsDown(k: Cluster, f0: Forest, e: nat, f: Forest, g: Forest, i: nat)
    requires Splittable(k, f0, e) && i < |k.deps|
    requires RunInv(k, UpRun(k, f0, e), f, k.deps[e].parent) && Stuck(k, f, false, k.deps[e].parent)
    requires RunInv(k, DownRun(k, f0, e, f), g, k.deps[e].child)
    requires k.deps[i].child in ChunkOf(k, f, k.deps[e].parent).txn
    requires k.deps[i].parent !in ChunkOf(k, f, k.deps[e].parent).txn
    ensures k.deps[i].parent !in ChunkOf(k, g, k.deps[e].child).txn
    ensures ChunkRate(k, f, k.deps[e].parent) < ChunkRate(k, g, k.deps[i].parent)
  {
    var p, u, v := k.deps[e].parent, k.deps[i].child, k.deps[i].parent;
    BottomStays(k, f0, e, f);
    SameChunk(k, f, p, u);
    SameChunk(k, f, p, v);
    assert LeadsOut(k, f, false, p, i);
    ImproveMoves(k, f0, e, f, g, v);
    assert f.rep[v] == f0.rep[v];
  }

  lemma ImproveEndsAt(k: Cluster, f0: Forest, e: nat, f: Forest, g: Forest, i: nat)
    requires Splittable(k, f0, e)
    requires RunInv(k, UpRun(k, f0, e), f, k.deps[e].parent) && Stuck(k, f, false, k.deps[e].parent)
    requires RunInv(k, DownRun(k, f0, e, f), g, k.deps[e].child) && Stuck(k, g, true, k.deps[e].child)
    requires Crosses(k, g, i)
    ensures ChunkRate(k, g, k.deps[i].child) < ChunkRate(k, g, k.deps[i].parent)
  {
    var p, c, u, v := k.deps[e].parent, k.deps[e].child, k.deps[i].child, k.deps[i].parent;
    ImproveMoves(k, f0, e, f, g, u);
    ImproveMoves(k, f0, e, f, g, v);
    var up, down := ChunkOf(k, f, p).txn, ChunkOf(k, g, c).txn;
    SameChunk(k, g, c, u);
    SameChunk(k, g, c, v);
    SameChunk(k, g, u, v);
    if u in up {
      UpChunkAvoidsDown(k, f0, e, f, g, i);
    } else if v in down {
      assert LeadsOut(k, g, true, c, i);
    } else if u in down && v in up {
    } else {
      // At most one end was touched, so the ends were in different chunks to begin with.
      EndsApart(k, f0, e, f, g, i);
      assert Crosses(k, f0, i);
    }
  }

  lemma EndsApart(k: Cluster, f0: Forest, e: nat, f: Forest, g: Forest, i: nat)
    requires Splittable(k, f0, e)
    requires RunInv(k, UpRun(k, f0, e), f, k.deps[e].parent)
    requires RunInv(k, DownRun(k, f0, e, f), g, k.deps[e].child)
    requires Crosses(k, g, i)
    requires var touched := ChunkOf(k, f, k.deps[e].parent).txn + ChunkOf(k, g, k.deps[e].child).txn;
      k.deps[i].child !in touched || k.deps[i].parent !in touched
    ensures f0.rep[k.deps[i].child] != f0.rep[k.deps[i].parent]
  {
    var touched := ChunkOf(k, f, k.deps[e].parent).txn + ChunkOf(k, g, k.deps[e].child).txn;
    var u, v := k.deps[i].child, k.deps[i].parent;
    var x, y := if u !in touched then u else v, if u !in touched then v else u;
    assert g.rep[x] == f0.rep[x] && ChunkOf(k, g, x) == ChunkOf(k, f0, x);
    SameChunk(k, f0, x, y);
    SameChunk(k, g, x, y);
  }
}
