/** Merge steps of the spanning-forest algorithm: what a run of upward merges, or of downward merges,
    of one growing chunk keeps. Both directions are treated at once: "near" is the end of a dependency
    on the side of the growing chunk and "far" the other one, and feerates are compared by a key that
    is negated when merging downward. */
module Merging {
  import opened FeeFracs
  import opened Sums
  import opened Diagrams
  import opened Trees
  import opened Forests

  function Near(down: bool, d: Dep): nat { if down then d.parent else d.child }

  function Far(down: bool, d: Dep): nat { if down then d.child else d.parent }

  ghost function Key(down: bool, r: real): real { if down then -r else r }

  ghost function ChunkRate(k: Cluster, f: Forest, x: nat): real
    requires Shaped(k, f) && x in k.txs
  {
    Rate(ChunkOf(k, f, x).feerate)
  }

  ghost function ChunkKey(k: Cluster, f: Forest, down: bool, x: nat): real
    requires Shaped(k, f) && x in k.txs
  {
    Key(down, ChunkRate(k, f, x))
  }

  lemma ChunkSize(k: Cluster, f: Forest, x: nat)
    requires Consistent(k, f) && x in k.txs
    ensures ChunkOf(k, f, x).feerate.size > 0
  {
    assert ChunkOk(k, f, x);
    var c := ChunkOf(k, f, x).txn;
    assert x in c && x < |k.fr|;
    SizePositive(k.fr, c);
  }

  /** No dependency within d goes from a chunk to one of the same or a lower feerate. */
  ghost predicate Topological(k: Cluster, f: Forest, d: set<nat>)
    requires ClusterOk(k) && Shaped(k, f)
  {
    forall i :: 0 <= i < |k.deps| && Crosses(k, f, i) && k.deps[i].parent in d && k.deps[i].child in d ==>
      ChunkRate(k, f, k.deps[i].child) < ChunkRate(k, f, k.deps[i].parent)
  }

  ghost function Reps(k: Cluster, f: Forest): set<nat>
    requires Shaped(k, f)
  {
    set x | x in k.txs && f.rep[x] == x
  }

  /** What chunk x earns above the feerate r (falls short of it, when merging downward), if positive. */
  ghost function Gain(f: Forest, down: bool, r: real, x: nat): real
    requires x < |f.chunk|
  {
    Pos(Key(down, Excess(f.chunk[x].feerate, r)))
  }

  ghost function Gains(f: Forest, down: bool, r: real): (w: seq<real>)
    ensures |w| == |f.chunk| && forall x :: 0 <= x < |w| ==> w[x] == Gain(f, down, r, x)
  {
    seq(|f.chunk|, x requires 0 <= x < |f.chunk| => Gain(f, down, r, x))
  }

  /** The total gain of the chunks of f whose representative is in d. */
  ghost function TotalGain(k: Cluster, f: Forest, down: bool, r: real, d: set<nat>): real
    requires Shaped(k, f)
  {
    Sum(Gains(f, down, r), Reps(k, f) * d)
  }

  lemma GainSign(k: Cluster, f: Forest, down: bool, r: real, x: nat)
    requires Consistent(k, f) && x in k.txs && f.rep[x] == x
    ensures ChunkKey(k, f, down, x) <= Key(down, r) ==> Gain(f, down, r, x) == 0.0
    ensures ChunkKey(k, f, down, x) > Key(down, r) ==>
      Gain(f, down, r, x) == Key(down, Excess(f.chunk[x].feerate, r)) > 0.0
  {
    ChunkSize(k, f, x);
    ExcessSign(f.chunk[x].feerate, r);
  }

  /** Dependency e leads from the chunk of t to another chunk. */
  ghost predicate LeadsOut(k: Cluster, f: Forest, down: bool, t: nat, e: nat)
    requires ClusterOk(k) && Shaped(k, f) && t in k.txs
  {
    Crosses(k, f, e) && f.rep[Near(down, k.deps[e])] == f.rep[t]
  }

  /** No merge of the chunk of t in this direction is called for. */
  ghost predicate Stuck(k: Cluster, f: Forest, down: bool, t: nat)
    requires ClusterOk(k) && Shaped(k, f) && t in k.txs
  {
    forall i: nat :: LeadsOut(k, f, down, t, i) ==>
      ChunkKey(k, f, down, t) < ChunkKey(k, f, down, Far(down, k.deps[i]))
  }

  /** e leads to the chunk that the merge rule picks. */
  ghost predicate BestMerge(k: Cluster, f: Forest, down: bool, t: nat, e: nat)
    requires ClusterOk(k) && Shaped(k, f) && t in k.txs
  {
    && LeadsOut(k, f, down, t, e)
    && ChunkKey(k, f, down, Far(down, k.deps[e])) <= ChunkKey(k, f, down, t)
    && forall i: nat :: LeadsOut(k, f, down, t, i) ==>
         ChunkKey(k, f, down, Far(down, k.deps[e])) <= ChunkKey(k, f, down, Far(down, k.deps[i]))
  }

  /** A run of merges: the state it is compared with, the transactions that state is about, the
      chunk it must not touch, and a transaction of the growing chunk that bounds that other chunk. */
  datatype Run = Run(start: Forest, scope: set<nat>, other: set<nat>, anchor: nat, down: bool)

  ghost predicate RunOk(k: Cluster, run: Run) {
    && Consistent(k, run.start)
    && run.scope <= k.txs && run.other <= run.scope
    && (run.other != {} ==> run.anchor in run.scope)
    && Topological(k, run.start, run.scope)
    && (forall i :: 0 <= i < |k.deps| && Near(run.down, k.deps[i]) in run.scope ==>
        Far(run.down, k.deps[i]) in run.scope)
    && (forall x, y :: x in run.scope && y in ChunkOf(k, run.start, x).txn ==> y in run.scope)
    && (forall y :: y in run.other ==>
          ChunkKey(k, run.start, run.down, y) <= ChunkKey(k, run.start, run.down, run.anchor))
  }

  /** Everything the growing chunk has taken in had, at the start, no greater key than the growing
      chunk has now, and no greater key than what it leads out to. */
  ghost predicate Bounded(k: Cluster, run: Run, f: Forest, t: nat)
    requires RunOk(k, run) && Shaped(k, f) && t in k.txs
  {
    && (forall y :: y in ChunkOf(k, f, t).txn && y in run.scope ==>
          ChunkKey(k, run.start, run.down, y) <= ChunkKey(k, f, run.down, t))
    && (forall i: nat :: LeadsOut(k, f, run.down, t, i) ==>
          var z := Far(run.down, k.deps[i]);
          && z in run.scope && z !in run.other
          && forall y :: y in ChunkOf(k, f, t).txn && y in run.scope ==>
               ChunkKey(k, run.start, run.down, y) <= ChunkKey(k, run.start, run.down, z))
    && (run.other != {} ==> StrictlyAbove(k, run, f, t))
  }

  /** The anchor's key at the start is no greater than that of anything taken in, and less than that
      of the growing chunk and of what it leads out to. */
  ghost predicate StrictlyAbove(k: Cluster, run: Run, f: Forest, t: nat)
    requires ClusterOk(k) && Shaped(k, run.start) && Shaped(k, f) && t in k.txs && run.anchor in k.txs
             && run.scope <= k.txs
  {
    var a := ChunkKey(k, run.start, run.down, run.anchor);
    && a < ChunkKey(k, f, run.down, t)
    && (forall y :: y in ChunkOf(k, f, t).txn && y in run.scope ==> a <= ChunkKey(k, run.start, run.down, y))
    && (forall i: nat :: LeadsOut(k, f, run.down, t, i) ==>
        a < ChunkKey(k, run.start, run.down, Far(run.down, k.deps[i])))
  }

  /** Chunks other than the growing one, and the one not touched, are as at the start. */
  ghost predicate Untouched(k: Cluster, run: Run, f: Forest, t: nat)
    requires RunOk(k, run) && Shaped(k, f) && t in k.txs
  {
    && (forall y {:trigger f.rep[y]} :: y in k.txs && y !in ChunkOf(k, f, t).txn && y !in run.other ==>
          f.rep[y] == run.start.rep[y] && f.chunk[f.rep[y]] == run.start.chunk[f.rep[y]])
    && (forall y :: y in run.other ==> ChunkOf(k, f, y).txn == run.other && y !in ChunkOf(k, f, t).txn)
    && (run.other != {} ==> run.anchor in ChunkOf(k, f, t).txn)
    && (forall y :: y in ChunkOf(k, f, t).txn ==> y in run.scope || y in ChunkOf(k, run.start, t).txn)
  }

  /** At every feerate, the state f is worth at least as much as the start of the run. */
  ghost predicate NoLoss(k: Cluster, run: Run, f: Forest, t: nat)
    requires RunOk(k, run) && Shaped(k, f) && t in k.txs
  {
    forall r: real :: TotalGain(k, f, run.down, r, run.scope + ChunkOf(k, f, t).txn)
                   >= TotalGain(k, run.start, run.down, r, run.scope)
  }

  ghost predicate RunInv(k: Cluster, run: Run, f: Forest, t: nat) {
    && RunOk(k, run) && Consistent(k, f) && t in k.txs
    && Bounded(k, run, f, t) && Untouched(k, run, f, t) && NoLoss(k, run, f, t)
  }

  // ----- One merge step keeps the invariant of the run -----

  /** The facts about a merge step that the lemmas below share. */
  lemma StepFacts(k: Cluster, run: Run, f: Forest, t: nat, e: nat, g: Forest)
    requires RunInv(k, run, f, t) && BestMerge(k, f, run.down, t, e) && Activates(k, f, e, g)
    ensures Consistent(k, g)
    ensures var z := Far(run.down, k.deps[e]);
      && z in run.scope && z !in run.other && z in ChunkOf(k, f, z).txn
      && f.rep[z] == run.start.rep[z] && ChunkOf(k, f, z) == ChunkOf(k, run.start, z)
      && ChunkOf(k, f, z).txn !! ChunkOf(k, f, t).txn && ChunkOf(k, f, z).txn !! run.other
      && ChunkOf(k, f, z).txn <= run.scope
      && ChunkOf(k, g, t).txn == ChunkOf(k, f, t).txn + ChunkOf(k, f, z).txn
      && ChunkKey(k, f, run.down, z) <= ChunkKey(k, g, run.down, t)
  {
    var z, u := Far(run.down, k.deps[e]), Near(run.down, k.deps[e]);
    ActivateConsistent(k, f, e, g);
    ActivatedChunk(k, f, e, g, t);
    SameChunk(k, f, t, u);
    SameChunk(k, f, t, z);
    CrossingIsInactive(k, f, e);
    assert f.rep[z] == run.start.rep[z];
    assert ChunkOk(k, f, z) && ChunkOk(k, f, t);
    forall y | y in ChunkOf(k, f, z).txn ensures y !in run.other {
      if y in run.other {
        SameChunk(k, f, z, y);
        assert false;
      }
    }
    ChunkSize(k, f, t);
    ChunkSize(k, f, z);
    var a, b := ChunkOf(k, f, t).feerate, ChunkOf(k, f, z).feerate;
    assert Plus(a, b) == Plus(b, a);
    if run.down { RateOfPlus(a, b); } else { RateOfPlus(b, a); }
  }

  lemma StepBounded(k: Cluster, run: Run, f: Forest, t: nat, e: nat, g: Forest)
    requires RunInv(k, run, f, t) && BestMerge(k, f, run.down, t, e) && Activates(k, f, e, g)
    ensures Shaped(k, g) && Bounded(k, run, g, t)
  {
    StepFacts(k, run, f, t, e, g);
    var z := Far(run.down, k.deps[e]);
    var old', new' := ChunkOf(k, f, t).txn, ChunkOf(k, g, t).txn;
    var zkey := ChunkKey(k, run.start, run.down, z);
    forall y | y in new' && y in run.scope ensures ChunkKey(k, run.start, run.down, y) <= zkey {
      if y !in old' {
        SameChunk(k, f, z, y);
        assert f.rep[y] == run.start.rep[y];
      }
    }
    forall i: nat | LeadsOut(k, g, run.down, t, i)
      ensures var v := Far(run.down, k.deps[i]);
        v in run.scope && v !in run.other && zkey <= ChunkKey(k, run.start, run.down, v)
    {
      StepLeadsOut(k, run, f, t, e, g, i);
    }
    if run.other != {} { StepStrict(k, run, f, t, e, g); }
  }

  lemma StepStrict(k: Cluster, run: Run, f: Forest, t: nat, e: nat, g: Forest)
    requires RunInv(k, run, f, t) && BestMerge(k, f, run.down, t, e) && Activates(k, f, e, g)
    requires run.other != {}
    ensures Shaped(k, g) && StrictlyAbove(k, run, g, t)
  {
    StepFacts(k, run, f, t, e, g);
    var z := Far(run.down, k.deps[e]);
    forall y | y in ChunkOf(k, g, t).txn && y in run.scope
      ensures ChunkKey(k, run.start, run.down, run.anchor) <= ChunkKey(k, run.start, run.down, y)
    {
      if y !in ChunkOf(k, f, t).txn {
        SameChunk(k, f, z, y);
        assert f.rep[y] == run.start.rep[y];
      }
    }
    forall i: nat | LeadsOut(k, g, run.down, t, i)
      ensures ChunkKey(k, run.start, run.down, run.anchor) < ChunkKey(k, run.start, run.down, Far(run.down, k.deps[i]))
    {
      StepLeadsOut(k, run, f, t, e, g, i);
    }
  }

  /** Where the grown chunk leads out to, the key is no less than that of the chunk taken in. */
  lemma StepLeadsOut(k: Cluster, run: Run, f: Forest, t: nat, e: nat, g: Forest, i: nat)
    requires RunInv(k, run, f, t) && BestMerge(k, f, run.down, t, e) && Activates(k, f, e, g)
    requires Shaped(k, g) && LeadsOut(k, g, run.down, t, i)
    ensures var v := Far(run.down, k.deps[i]);
      && v in run.scope && v !in run.other
      && ChunkKey(k, run.start, run.down, Far(run.down, k.deps[e])) <= ChunkKey(k, run.start, run.down, v)
  {
    StepFacts(k, run, f, t, e, g);
    var z, u, v := Far(run.down, k.deps[e]), Near(run.down, k.deps[i]), Far(run.down, k.deps[i]);
    SameChunk(k, g, t, u);
    SameChunk(k, g, t, v);
    assert v !in ChunkOf(k, f, t).txn && v !in ChunkOf(k, f, z).txn;
    SameChunk(k, f, t, v);
    SameChunk(k, f, t, u);
    SameChunk(k, f, z, u);
    SameChunk(k, f, z, v);
    assert f.rep[z] == run.start.rep[z];
    if u in ChunkOf(k, f, t).txn {
      assert LeadsOut(k, f, run.down, t, i);
      assert f.rep[v] == run.start.rep[v];
    } else {
      // u was in the chunk taken in, which is as it was at the start.
      assert f.rep[u] == run.start.rep[u];
      SameChunk(k, run.start, z, v);
      assert Crosses(k, run.start, i);
      assert ChunkKey(k, run.start, run.down, u) < ChunkKey(k, run.start, run.down, v);
      assert LeadsOut(k, f, run.down, t, e);
      if v in run.other {
        assert false;
      }
    }
  }

  lemma StepUntouched(k: Cluster, run: Run, f: Forest, t: nat, e: nat, g: Forest)
    requires RunInv(k, run, f, t) && BestMerge(k, f, run.down, t, e) && Activates(k, f, e, g)
    ensures Shaped(k, g) && Untouched(k, run, g, t)
  {
    StepFacts(k, run, f, t, e, g);
    var z := Far(run.down, k.deps[e]);
    SameChunk(k, f, t, Near(run.down, k.deps[e]));
    forall y | y in k.txs && y !in ChunkOf(k, g, t).txn && y !in run.other
      ensures g.rep[y] == run.start.rep[y] && g.chunk[g.rep[y]] == run.start.chunk[g.rep[y]]
    {
      ActivatedChunk(k, f, e, g, y);
      assert f.rep[y] == run.start.rep[y];
    }
    forall y | y in run.other ensures ChunkOf(k, g, y).txn == run.other && y !in ChunkOf(k, g, t).txn {
      ActivatedChunk(k, f, e, g, y);
    }
  }

  /** A merge at a feerate that both chunks are on the winning side of loses nothing. */
  lemma StepGainKept(k: Cluster, run: Run, f: Forest, t: nat, e: nat, g: Forest, r: real)
    requires RunInv(k, run, f, t) && BestMerge(k, f, run.down, t, e) && Activates(k, f, e, g)
    requires Key(run.down, r) < ChunkKey(k, f, run.down, Far(run.down, k.deps[e]))
    ensures Shaped(k, g)
    ensures TotalGain(k, g, run.down, r, run.scope + ChunkOf(k, g, t).txn)
         == TotalGain(k, f, run.down, r, run.scope + ChunkOf(k, f, t).txn)
  {
    StepFacts(k, run, f, t, e, g);
    var z := Far(run.down, k.deps[e]);
    var rt, rz, rp := f.rep[t], f.rep[z], f.rep[k.deps[e].parent];
    RepInChunk(k, f, t);
    RepInChunk(k, f, z);
    var before, after := Reps(k, f) * (run.scope + ChunkOf(k, f, t).txn),
                         Reps(k, g) * (run.scope + ChunkOf(k, g, t).txn);
    assert after == before - {rt, rz} + {rp} by { StepReps(k, f, e, g); }
    var w, v := Gains(f, run.down, r), Gains(g, run.down, r);
    assert v[rp] == w[rt] + w[rz] by { GainOfMerged(k, f, run.down, r, t, e, g); }
    SumMerge(w, v, before, rt, rz, rp);
  }

  lemma GainOfMerged(k: Cluster, f: Forest, down: bool, r: real, t: nat, e: nat, g: Forest)
    requires Consistent(k, f) && t in k.txs && BestMerge(k, f, down, t, e) && Activates(k, f, e, g)
    requires Key(down, r) < ChunkKey(k, f, down, Far(down, k.deps[e]))
    ensures Gain(g, down, r, f.rep[k.deps[e].parent]) ==
      Gain(f, down, r, f.rep[t]) + Gain(f, down, r, f.rep[Far(down, k.deps[e])])
  {
    var rt, rz := f.rep[t], f.rep[Far(down, k.deps[e])];
    RepInChunk(k, f, t);
    RepInChunk(k, f, Far(down, k.deps[e]));
    GainSign(k, f, down, r, rt);
    GainSign(k, f, down, r, rz);
    ExcessPlus(f.chunk[rt].feerate, f.chunk[rz].feerate, r);
    ExcessPlus(f.chunk[rz].feerate, f.chunk[rt].feerate, r);
  }

  lemma RepInChunk(k: Cluster, f: Forest, x: nat)
    requires Consistent(k, f) && x in k.txs
    ensures f.rep[x] in ChunkOf(k, f, x).txn && f.rep[f.rep[x]] == f.rep[x]
  {
    assert ChunkOk(k, f, x) && ChunkOk(k, f, f.rep[x]);
    SameChunk(k, f, x, f.rep[x]);
  }

  /** Activating e removes its child's representative from the representatives. */
  lemma StepReps(k: Cluster, f: Forest, e: nat, g: Forest)
    requires Consistent(k, f) && Crosses(k, f, e) && Activates(k, f, e, g)
    ensures Reps(k, g) == Reps(k, f) - {f.rep[k.deps[e].child]}
    ensures f.rep[k.deps[e].child] in Reps(k, f) && f.rep[k.deps[e].parent] in Reps(k, g)
    ensures f.rep[k.deps[e].child] != f.rep[k.deps[e].parent]
  {
    var p, c := k.deps[e].parent, k.deps[e].child;
    RepInChunk(k, f, p);
    RepInChunk(k, f, c);
    forall x | x in k.txs ensures x in Reps(k, g) <==> x in Reps(k, f) && x != f.rep[c] {
      SameChunk(k, f, p, x);
      SameChunk(k, f, c, x);
    }
  }

  /** At any other feerate, whatever the run has touched was worth nothing at its start. */
  lemma StepGainAnew(k: Cluster, run: Run, f: Forest, t: nat, e: nat, g: Forest, r: real)
    requires RunInv(k, run, f, t) && BestMerge(k, f, run.down, t, e) && Activates(k, f, e, g)
    requires Key(run.down, r) >= ChunkKey(k, f, run.down, Far(run.down, k.deps[e]))
    ensures Shaped(k, g)
    ensures TotalGain(k, g, run.down, r, run.scope + ChunkOf(k, g, t).txn)
         >= TotalGain(k, run.start, run.down, r, run.scope)
  {
    StepFacts(k, run, f, t, e, g);
    StepUntouched(k, run, f, t, e, g);
    var z, s0 := Far(run.down, k.deps[e]), run.start;
    var before, after := Reps(k, s0) * run.scope, Reps(k, g) * (run.scope + ChunkOf(k, g, t).txn);
    var w, v := Gains(s0, run.down, r), Gains(g, run.down, r);
    forall x | 0 <= x < |w| ensures Term(w, before, x) <= Term(v, after, x) {
      if x in before {
        if x in ChunkOf(k, g, t).txn || x in run.other {
          TouchedKey(k, run, f, t, e, x);
          GainSign(k, s0, run.down, r, x);
        } else {
          assert g.rep[x] == s0.rep[x] && x in after;
        }
      }
    }
    SumMonotone(w, before, v, after);
  }

  /** Whatever the run has touched had at the start no greater key than the chunk now taken in. */
  lemma TouchedKey(k: Cluster, run: Run, f: Forest, t: nat, e: nat, x: nat)
    requires RunInv(k, run, f, t) && BestMerge(k, f, run.down, t, e) && x in run.scope
    requires x in ChunkOf(k, f, t).txn || x in ChunkOf(k, f, Far(run.down, k.deps[e])).txn || x in run.other
    ensures ChunkKey(k, run.start, run.down, x) <= ChunkKey(k, f, run.down, Far(run.down, k.deps[e]))
  {
    var z := Far(run.down, k.deps[e]);
    SameChunk(k, f, t, z);
    SameChunk(k, f, t, x);
    assert f.rep[z] == run.start.rep[z];
    if x in ChunkOf(k, f, t).txn {
    } else if x in run.other {
      assert run.anchor in ChunkOf(k, f, t).txn;
    } else {
      SameChunk(k, f, z, x);
      assert f.rep[x] == run.start.rep[x];
    }
  }

  /** One merge step by the merge rule keeps the invariant of the run. */
  lemma StepKeepsRun(k: Cluster, run: Run, f: Forest, t: nat, e: nat, g: Forest)
    requires RunInv(k, run, f, t) && BestMerge(k, f, run.down, t, e) && Activates(k, f, e, g)
    ensures RunInv(k, run, g, t)
  {
    ActivateConsistent(k, f, e, g);
    StepBounded(k, run, f, t, e, g);
    StepUntouched(k, run, f, t, e, g);
    forall r: real ensures TotalGain(k, g, run.down, r, run.scope + ChunkOf(k, g, t).txn)
                        >= TotalGain(k, run.start, run.down, r, run.scope) {
      if Key(run.down, r) < ChunkKey(k, f, run.down, Far(run.down, k.deps[e])) {
        StepGainKept(k, run, f, t, e, g, r);
      } else {
        StepGainAnew(k, run, f, t, e, g, r);
      }
    }
  }
}
