/** What holds between the merges of Improve, and which chunks may still be improvable. */
module Progress {
  import opened FeeFracs
  import opened Forests
  import opened Merging
  import opened Improving
  import opened Loading
  import opened Chunking
  import opened Orders

  /** The state is topological again, and at least as good as f0. */
  ghost predicate Settled(k: Cluster, f0: Forest, f: Forest) {
    Consistent(k, f0) && Consistent(k, f) && Topological(k, f, k.txs) && AsGood(k, f0, f)
  }

  /** Just split, and the top depends on the bottom. */
  ghost predicate BackPending(k: Cluster, f0: Forest, e: nat, f: Forest) {
    Split(k, f0, e, f) && Consistent(k, f)
    && exists i: nat ::
        LeadsOut(k, f, false, k.deps[e].parent, i)
        && k.deps[i].parent in ChunkOf(k, f, k.deps[e].child).txn
  }

  /** Between the merges of the upward sequence, or (down) of the downward one that began at f1. */
  ghost predicate InProgress(k: Cluster, down: bool, f0: Forest, e: nat, f1: Forest, f: Forest) {
    && Splittable(k, f0, e) && Consistent(k, f) && Shaped(k, f1)
    && (|| Settled(k, f0, f)
        || (!down && BackPending(k, f0, e, f))
        || (!down && RunInv(k, UpRun(k, f0, e), f, k.deps[e].parent))
        || (down && UpDone(k, f0, e, f1) && RunInv(k, DownRun(k, f0, e, f1), f, k.deps[e].child)))
  }

  /** The upward sequence has come to its end. */
  ghost predicate UpDone(k: Cluster, f0: Forest, e: nat, f: Forest)
    requires Splittable(k, f0, e)
  {
    RunInv(k, UpRun(k, f0, e), f, k.deps[e].parent) && Stuck(k, f, false, k.deps[e].parent)
  }

  lemma SettledIsStuck(k: Cluster, f0: Forest, f: Forest, down: bool, t: nat)
    requires Settled(k, f0, f) && t in k.txs
    ensures Stuck(k, f, down, t)
  {
    forall i: nat | LeadsOut(k, f, down, t, i)
      ensures ChunkKey(k, f, down, t) < ChunkKey(k, f, down, Far(down, k.deps[i]))
    {
      assert ChunkOf(k, f, Near(down, k.deps[i])) == ChunkOf(k, f, t);
      assert Crosses(k, f, i);
    }
  }

  lemma SplitInProgress(k: Cluster, f0: Forest, e: nat, f: Forest)
    requires Split(k, f0, e, f)
    ensures InProgress(k, false, f0, e, f0, f)
  {
    SplitFacts(k, f0, e, f);
    if !BackPending(k, f0, e, f) {
      UpRunStarts(k, f0, e, f);
    }
  }

  lemma MergeInProgress(k: Cluster, down: bool, f0: Forest, e: nat, f1: Forest, f: Forest, b: nat, g: Forest)
    requires InProgress(k, down, f0, e, f1, f)
    requires BestMerge(k, f, down, Near(!down, k.deps[e]), b) && Activates(k, f, b, g)
    ensures InProgress(k, down, f0, e, f1, g)
  {
    var t := Near(!down, k.deps[e]);
    ActivateConsistent(k, f, b, g);
    if Settled(k, f0, f) {
      SettledIsStuck(k, f0, f, down, t);
      assert false;
    } else if !down && BackPending(k, f0, e, f) {
      var i: nat :| LeadsOut(k, f, false, k.deps[e].parent, i)
      && k.deps[i].parent in ChunkOf(k, f, k.deps[e].child).txn;
      MergeBack(k, f0, e, f, i, b, g);
    } else if !down {
      StepKeepsRun(k, UpRun(k, f0, e), f, t, b, g);
    } else {
      StepKeepsRun(k, DownRun(k, f0, e, f1), f, t, b, g);
    }
  }

  /** When the upward sequence has ended, the downward one may begin. */
  lemma UpEnds(k: Cluster, f0: Forest, e: nat, f: Forest)
    requires InProgress(k, false, f0, e, f0, f) && Stuck(k, f, false, k.deps[e].parent)
    ensures InProgress(k, true, f0, e, f, f)
  {
    if Settled(k, f0, f) {
    } else if BackPending(k, f0, e, f) {
      SplitFacts(k, f0, e, f);
      assert false;
    } else {
      DownRunStarts(k, f0, e, f);
    }
  }

  lemma DownEnds(k: Cluster, f0: Forest, e: nat, f: Forest, g: Forest)
    requires InProgress(k, true, f0, e, f, g) && Stuck(k, g, true, k.deps[e].child)
    ensures Settled(k, f0, g)
  {
    if !Settled(k, f0, g) {
      ImproveEnds(k, f0, e, f, g);
    }
  }

  // ----- Which chunks may still be improvable -----

  /** A chunk that is neither queued nor the chunk of an exempted transaction has no active dependency
      whose top beats it. */
  ghost predicate Queued(k: Cluster, f: Forest, queue: seq<nat>, exempt: set<nat>) {
    && Consistent(k, f)
    && forall x {:trigger ChunkOptimal(k, f, x)} :: x in k.txs ==>
         f.rep[x] in queue || ChunkOptimal(k, f, x) || ChunkOf(k, f, x).txn * exempt != {}
  }

  lemma QueuedAfterMerge(k: Cluster, f: Forest, queue: seq<nat>, exempt: set<nat>, t: nat, down: bool, b: nat,
                         g: Forest)
    requires Queued(k, f, queue, exempt) && t in exempt && t in k.txs
    requires LeadsOut(k, f, down, t, b) && Activates(k, f, b, g)
    ensures Queued(k, g, queue, exempt)
  {
    ActivateConsistent(k, f, b, g);
    ActivatedChunk(k, f, b, g, t);
    SameChunk(k, f, t, Near(down, k.deps[b]));
    forall x | x in k.txs
      ensures g.rep[x] in queue || ChunkOptimal(k, g, x) || ChunkOf(k, g, x).txn * exempt != {}
    {
      ActivatedChunk(k, f, b, g, x);
      if x in ChunkOf(k, g, t).txn {
        assert ChunkOk(k, g, t);
        assert t in ChunkOf(k, g, x).txn * exempt;
      } else {
        assert ChunkOf(k, g, x) == ChunkOf(k, f, x) && g.rep[x] == f.rep[x];
        if ChunkOptimal(k, f, x) { OptimalAfterMerge(k, f, b, g, x); }
      }
    }
  }

  lemma OptimalAfterMerge(k: Cluster, f: Forest, b: nat, g: Forest, x: nat)
    requires Consistent(k, f) && Crosses(k, f, b) && Activates(k, f, b, g) && x in k.txs && ChunkOptimal(k, f, x)
    requires x !in ChunkOf(k, f, k.deps[b].parent).txn && x !in ChunkOf(k, f, k.deps[b].child).txn
    ensures ChunkOptimal(k, g, x)
  {
    ActivatedChunk(k, f, b, g, x);
    SameChunk(k, f, k.deps[b].parent, x);
    SameChunk(k, f, k.deps[b].child, x);
    forall i | i in g.active && k.deps[i].parent in ChunkOf(k, g, x).txn
      ensures !Higher(g.top[i].feerate, ChunkOf(k, g, x).feerate)
    {
      SameChunk(k, f, x, k.deps[i].parent);
      SameChunk(k, f, k.deps[b].parent, k.deps[i].parent);
      SameChunk(k, f, k.deps[b].child, k.deps[i].parent);
      assert g.top[i] == f.top[i];
    }
  }

  lemma QueuedAfterSplit(k: Cluster, f: Forest, queue: seq<nat>, c: nat, e: nat, g: Forest)
    requires Queued(k, f, queue, {c}) && c in k.txs && Split(k, f, e, g) && f.rep[k.deps[e].parent] == f.rep[c]
    ensures Queued(k, g, queue, {k.deps[e].parent, k.deps[e].child})
  {
    SplitFacts(k, f, e, g);
    var p, q := k.deps[e].parent, k.deps[e].child;
    forall x | x in k.txs
      ensures g.rep[x] in queue || ChunkOptimal(k, g, x) || ChunkOf(k, g, x).txn * {p, q} != {}
    {
      DeactivatedChunk(k, f, e, g, x);
      SameChunk(k, f, p, x);
      SameChunk(k, f, c, x);
      if x in ChunkOf(k, g, p).txn {
        assert p in ChunkOf(k, g, x).txn * {p, q};
      } else if x in ChunkOf(k, g, q).txn {
        assert q in ChunkOf(k, g, x).txn * {p, q};
      } else {
        assert c !in ChunkOf(k, f, x).txn by { SameChunk(k, f, x, c); }
        if ChunkOptimal(k, f, x) { OptimalAfterSplit(k, f, e, g, x); }
      }
    }
  }

  lemma OptimalAfterSplit(k: Cluster, f: Forest, e: nat, g: Forest, x: nat)
    requires Split(k, f, e, g) && x in k.txs && ChunkOptimal(k, f, x)
    requires x !in ChunkOf(k, f, k.deps[e].parent).txn
    ensures ChunkOptimal(k, g, x)
  {
    SplitFacts(k, f, e, g);
    DeactivatedChunk(k, f, e, g, x);
    var p := k.deps[e].parent;
    SameChunk(k, f, p, x);
    forall i | i in g.active && k.deps[i].parent in ChunkOf(k, g, x).txn
      ensures !Higher(g.top[i].feerate, ChunkOf(k, g, x).feerate)
    {
      SameChunk(k, f, x, k.deps[i].parent);
      SameChunk(k, f, p, k.deps[i].parent);
      assert g.top[i] == f.top[i];
    }
  }

  lemma QueuedPush(k: Cluster, f: Forest, queue: seq<nat>, exempt: set<nat>, t: nat)
    requires Queued(k, f, queue, exempt + {t}) && t in k.txs
    ensures Queued(k, f, queue + [f.rep[t]], exempt)
  {
    forall x | x in k.txs
      ensures f.rep[x] in queue + [f.rep[t]] || ChunkOptimal(k, f, x) || ChunkOf(k, f, x).txn * exempt != {}
    {
      SameChunk(k, f, x, t);
      if ChunkOf(k, f, x).txn * (exempt + {t}) != {} && ChunkOf(k, f, x).txn * exempt == {} {
        assert t in ChunkOf(k, f, x).txn;
      }
    }
  }

  /** Popping an entry leaves its chunk, if it still is one, exempted. */
  lemma QueuedPop(k: Cluster, f: Forest, queue: seq<nat>)
    requires Queued(k, f, queue, {}) && queue != [] && queue[0] in k.txs
    ensures Queued(k, f, queue[1..], {queue[0]})
    ensures f.rep[queue[0]] != queue[0] ==> Queued(k, f, queue[1..], {})
  {
    var c := queue[0];
    forall x | x in k.txs
      ensures f.rep[x] in queue[1..] || ChunkOptimal(k, f, x)
              || (f.rep[x] == c && f.rep[c] == c && c in ChunkOf(k, f, x).txn)
    {
      assert ChunkOf(k, f, x).txn * {} == {};
      RepInChunk(k, f, x);
    }
    forall x | x in k.txs && c in ChunkOf(k, f, x).txn ensures ChunkOf(k, f, x).txn * {c} != {} {
      assert c in ChunkOf(k, f, x).txn * {c};
    }
  }

  /** One turn of a merge sequence. */
  lemma SequenceStep(k: Cluster, down: bool, f0: Forest, e: nat, f1: Forest, f: Forest, queue: seq<nat>,
                     exempt: set<nat>, t: nat, r: nat, b: nat, g: Forest)
    requires InProgress(k, down, f0, e, f1, f) && t == Near(!down, k.deps[e]) && r == f.rep[t]
    requires Queued(k, f, queue, exempt) && t in exempt
    requires BestMerge(k, f, down, r, b) && Activates(k, f, b, g)
    ensures InProgress(k, down, f0, e, f1, g) && Queued(k, g, queue, exempt)
    ensures g.rep[t] == g.rep[r] && g.rep[g.rep[t]] == g.rep[t] && g.rep[t] in k.txs
    ensures |Reps(k, g)| < |Reps(k, f)|
  {
    RepInChunk(k, f, t);
    assert BestMerge(k, f, down, t, b) by {
      forall i: nat ensures LeadsOut(k, f, down, t, i) <==> LeadsOut(k, f, down, r, i) {}
    }
    MergeInProgress(k, down, f0, e, f1, f, b, g);
    QueuedAfterMerge(k, f, queue, exempt, t, down, b, g);
    StepReps(k, f, b, g);
    SameChunk(k, f, t, Near(down, k.deps[b]));
    SameChunk(k, f, t, r);
    RepInChunk(k, g, t);
  }

  /** The end of a merge sequence. */
  lemma SequenceEnd(k: Cluster, down: bool, f: Forest, queue: seq<nat>, exempt: set<nat>, t: nat, r: nat)
    requires Queued(k, f, queue, exempt + {t}) && t in k.txs && r == f.rep[t] && f.rep[r] == r && r in k.txs
    requires Stuck(k, f, down, r)
    ensures Stuck(k, f, down, t) && Queued(k, f, queue + [r], exempt)
  {
    forall i: nat | LeadsOut(k, f, down, t, i)
      ensures ChunkKey(k, f, down, t) < ChunkKey(k, f, down, Far(down, k.deps[i]))
    {
      assert LeadsOut(k, f, down, r, i);
    }
    QueuedPush(k, f, queue, exempt, t);
  }

  // ----- Which dependencies may still ask for a merge -----

  /** Every dependency from a chunk to one of the same or a lower feerate touches a queued chunk. */
  ghost predicate ViolationsQueued(k: Cluster, f: Forest, queue: seq<nat>) {
    && Consistent(k, f)
    && forall i: nat :: Crosses(k, f, i) ==>
         || ChunkRate(k, f, k.deps[i].child) < ChunkRate(k, f, k.deps[i].parent)
         || f.rep[k.deps[i].child] in queue || f.rep[k.deps[i].parent] in queue
  }

  lemma NoneQueued(k: Cluster, f: Forest)
    requires ViolationsQueued(k, f, [])
    ensures Topological(k, f, k.txs)
  {
  }

  /** An entry may be dropped when it is not a representative any more, or asks for no merge. */
  lemma ViolationsDrop(k: Cluster, f: Forest, queue: seq<nat>)
    requires ViolationsQueued(k, f, queue) && queue != [] && queue[0] in k.txs
    requires f.rep[queue[0]] != queue[0] || (Stuck(k, f, false, queue[0]) && Stuck(k, f, true, queue[0]))
    ensures ViolationsQueued(k, f, queue[1..])
  {
    var c := queue[0];
    forall i: nat | Crosses(k, f, i)
      ensures || ChunkRate(k, f, k.deps[i].child) < ChunkRate(k, f, k.deps[i].parent)
              || f.rep[k.deps[i].child] in queue[1..] || f.rep[k.deps[i].parent] in queue[1..]
    {
      RepInChunk(k, f, k.deps[i].child);
      RepInChunk(k, f, k.deps[i].parent);
      if f.rep[c] == c {
        if f.rep[k.deps[i].child] == c { assert LeadsOut(k, f, false, c, i); }
        if f.rep[k.deps[i].parent] == c { assert LeadsOut(k, f, true, c, i); }
      }
    }
  }

  /** After a merge of the chunk at the front of the queue, the merged chunk is queued instead. */
  lemma ViolationsMerge(k: Cluster, f: Forest, queue: seq<nat>, down: bool, b: nat, g: Forest)
    requires ViolationsQueued(k, f, queue) && queue != [] && queue[0] in k.txs && f.rep[queue[0]] == queue[0]
    requires LeadsOut(k, f, down, queue[0], b) && Activates(k, f, b, g)
    ensures ViolationsQueued(k, g, queue[1..] + [g.rep[queue[0]]])
    ensures |Reps(k, g)| < |Reps(k, f)| && g.rep[queue[0]] in k.txs
  {
    var c := queue[0];
    ActivateConsistent(k, f, b, g);
    StepReps(k, f, b, g);
    forall i: nat | Crosses(k, g, i)
      ensures || ChunkRate(k, g, k.deps[i].child) < ChunkRate(k, g, k.deps[i].parent)
              || g.rep[k.deps[i].child] in queue[1..] + [g.rep[c]] || g.rep[k.deps[i].parent] in queue[1..] + [g.rep[c]]
    {
      ViolationAfterMerge(k, f, c, down, b, g, i);
    }
  }

  /** Only the merged chunk has new dependencies to other chunks. */
  lemma ViolationAfterMerge(k: Cluster, f: Forest, c: nat, down: bool, b: nat, g: Forest, i: nat)
    requires Consistent(k, f) && c in k.txs && LeadsOut(k, f, down, c, b) && Activates(k, f, b, g)
    requires Consistent(k, g) && Crosses(k, g, i)
    ensures var p, q := k.deps[i].parent, k.deps[i].child;
      || g.rep[p] == g.rep[c] || g.rep[q] == g.rep[c]
      || (&& Crosses(k, f, i) && g.rep[p] == f.rep[p] != f.rep[c] && g.rep[q] == f.rep[q] != f.rep[c]
          && ChunkRate(k, g, p) == ChunkRate(k, f, p) && ChunkRate(k, g, q) == ChunkRate(k, f, q))
  {
    var p, q := k.deps[i].parent, k.deps[i].child;
    ActivatedChunk(k, f, b, g, p);
    ActivatedChunk(k, f, b, g, q);
    ActivatedChunk(k, f, b, g, c);
    SameChunk(k, f, c, Near(down, k.deps[b]));
    SameChunk(k, f, c, p);
    SameChunk(k, f, c, q);
    SameChunk(k, g, c, p);
    SameChunk(k, g, c, q);
  }

  // ----- Loading a linearization -----

  /** The first j transactions of l have been loaded. */
  ghost predicate LoadedUpTo(k: Cluster, f: Forest, l: seq<nat>, j: nat) {
    && j <= |l| && ClusterOk(k) && InRange(k.fr, l)
    && Loaded(k, f, Elems(l[..j])) && PrefixesBelow(k, f, l, j, Elems(l[..j]))
  }

  /** In the middle of the merges of the transaction at position j. */
  ghost predicate InLoad(k: Cluster, l: seq<nat>, j: nat, f: Forest, g: Forest) {
    && IsLinearization(k, l) && j < |l| && LoadedUpTo(k, f, l, j)
    && RunInv(k, LoadRun(f, Elems(l[..j]), l[j]), g, l[j])
  }

  lemma LoadBegins(k: Cluster, f: Forest, l: seq<nat>)
    requires Consistent(k, f) && IsLinearization(k, l) && InRange(k.fr, l)
    requires forall x :: x in k.txs ==> ChunkOf(k, f, x).txn == {x}
    ensures LoadedUpTo(k, f, l, 0)
  {
    assert Elems(l[..0]) == {};
    forall r: real, m: nat | m <= 0 ensures Excess(FeeSum(k.fr, l[..m]), r) <= TotalGain(k, f, false, r, {}) {
      var w := Gains(f, false, r);
      assert Reps(k, f) * {} == {};
      Sums.SumEmpty(w);
    }
  }

  lemma LoadNext(k: Cluster, f: Forest, l: seq<nat>, j: nat)
    requires IsLinearization(k, l) && j < |l| && LoadedUpTo(k, f, l, j)
    ensures InLoad(k, l, j, f, f)
  {
    ElemsNext(l, j);
    PrefixClosed(k, l, j + 1);
    LoadStarts(k, f, Elems(l[..j]), l[j]);
  }

  lemma LoadMerge(k: Cluster, l: seq<nat>, j: nat, f: Forest, g: Forest, r: nat, b: nat, h: Forest)
    requires InLoad(k, l, j, f, g) && r == g.rep[l[j]] && r in k.txs
    requires BestMerge(k, g, false, r, b) && Activates(k, g, b, h)
    ensures InLoad(k, l, j, f, h)
  {
    RepInChunk(k, g, l[j]);
    assert BestMerge(k, g, false, l[j], b) by {
      forall i: nat ensures LeadsOut(k, g, false, l[j], i) <==> LeadsOut(k, g, false, r, i) {}
    }
    StepKeepsRun(k, LoadRun(f, Elems(l[..j]), l[j]), g, l[j], b, h);
  }

  lemma LoadDone(k: Cluster, l: seq<nat>, j: nat, f: Forest, g: Forest, r: nat)
    requires InLoad(k, l, j, f, g) && r == g.rep[l[j]] && r in k.txs && g.rep[r] == r && Stuck(k, g, false, r)
    ensures LoadedUpTo(k, g, l, j + 1)
  {
    ElemsNext(l, j);
    PrefixClosed(k, l, j + 1);
    forall i: nat | LeadsOut(k, g, false, l[j], i)
      ensures ChunkKey(k, g, false, l[j]) < ChunkKey(k, g, false, Far(false, k.deps[i]))
    {
      assert LeadsOut(k, g, false, r, i);
    }
    LoadEnds(k, f, Elems(l[..j]), l[j], g);
    PrefixesNext(k, f, l, j, g);
  }
}
