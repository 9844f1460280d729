/** CCheckQueue, src/checkqueue.h:34-190, as a state machine: the critical sections of the master and the
    workers are atomic steps, and any thread may take the next one. */
module CheckQueues {
  import opened Basics

  /** A check, and what running it returns: nothing, or an error. */
  datatype Check = Check(id: nat, outcome: Option<nat>)

  /** What a thread keeps of its batch: how many checks it has run, and whether it runs them at all. */
  datatype Batch = Batch(checks: seq<Check>, pos: nat, doWork: bool)

  /** Where a thread is. Outside: not in Loop, the master only. Entering: before its first critical
      section. Cleaning: before the critical section that cleans up after a batch. Holding: in the
      critical section. Waiting, Notified: asleep on the condition variable, or woken but without the
      lock. Working: running the checks of its batch. */
  datatype Thread =
    | Outside
    | Entering(local: Option<nat>)
    | Cleaning(local: Option<nat>, batch: Batch)
    | Holding(local: Option<nat>)
    | Waiting(local: Option<nat>)
    | Notified(local: Option<nat>)
    | Working(local: Option<nat>, batch: Batch)

  /** The checks of the current round: added, run, and those of finished batches, run or skipped. */
  datatype Round = Round(added: multiset<Check>, ran: multiset<Check>, finished: multiset<Check>,
                         skipped: multiset<Check>)

  const NEW_ROUND := Round(multiset{}, multiset{}, multiset{}, multiset{})
  const MASTER: nat := 0

  datatype State = State(queue: seq<Check>, nTodo: int, nIdle: int, nTotal: int, result: Option<nat>,
                         threads: seq<Thread>, batchSize: nat, round: Round)

  datatype Step = Add(checks: seq<Check>) | Complete | Acquire(i: nat) | Run(i: nat) | Finish(i: nat) | Wake(i: nat)

  // ----- The steps -----

  function With(s: State, i: nat, t: Thread): State
    requires i < |s.threads|
  {
    s.(threads := s.threads[i := t])
  }

  /** Notify the master, if it waits. */
  function NotifyMaster(s: State): State
    requires |s.threads| > 0
  {
    var t := s.threads[MASTER];
    if t.Waiting? then With(s, MASTER, Notified(t.local)) else s
  }

  /** Clean up after a batch. */
  function Cleaned(s: State, i: nat): State
    requires i < |s.threads| && s.threads[i].Cleaning? && s.threads[i].batch.pos <= |s.threads[i].batch.checks|
  {
    var t, b := s.threads[i], s.threads[i].batch;
    var swap := t.local.Some? && s.result.None?;
    With(s, i, Holding(if swap then s.result else t.local)).(
      result := if swap then t.local else s.result,
      nTodo := s.nTodo - |b.checks|,
      round := s.round.(finished := s.round.finished + multiset(b.checks[..b.pos]),
                        skipped := s.round.skipped + multiset(b.checks[b.pos..])))
  }

  /** Clean up after a batch, and tell the master if it was the last one. */
  function CleanUp(s: State, i: nat): State
    requires i < |s.threads| && s.threads[i].Cleaning? && s.threads[i].batch.pos <= |s.threads[i].batch.checks|
  {
    var s1 := Cleaned(s, i);
    if s1.nTodo == 0 && i != MASTER then NotifyMaster(s1) else s1
  }

  /** Take the lock: for the first time, after a batch, or on waking up. */
  function Enter(s: State, i: nat): State
    requires i < |s.threads| && (s.threads[i].Entering? || s.threads[i].Cleaning? || s.threads[i].Notified?)
    requires s.threads[i].Cleaning? ==> s.threads[i].batch.pos <= |s.threads[i].batch.checks|
  {
    var t := s.threads[i];
    if t.Cleaning? then CleanUp(s, i)
    else if t.Entering? then With(s, i, Holding(t.local)).(nTotal := s.nTotal + 1)
    else With(s, i, Holding(t.local)).(nIdle := s.nIdle - 1)
  }

  /** An even share of the queue, but no more than the batch size and no less than one. */
  function BatchLength(s: State): (n: nat)
    ensures s.queue != [] ==> 1 <= n <= |s.queue|
  {
    var share := if s.nTotal + s.nIdle >= 0 then |s.queue| / (s.nTotal + s.nIdle + 1) else 0;
    var capped := if s.batchSize < share then s.batchSize else share;
    if capped < 1 then 1 else capped
  }

  predicate Returns(s: State, i: nat) {
    s.queue == [] && i == MASTER && s.nTodo == 0
  }

  /** With the lock held: return the result of the round, or go to sleep, or take checks from the end of the queue. */
  function Leave(s: State, i: nat): State
    requires i < |s.threads| && s.threads[i].Holding?
  {
    var t := s.threads[i];
    if Returns(s, i) then With(s, i, Outside).(nTotal := s.nTotal - 1, result := None, round := NEW_ROUND)
    else if s.queue == [] then With(s, i, Waiting(t.local)).(nIdle := s.nIdle + 1)
    else
      var n := |s.queue| - BatchLength(s);
      With(s, i, Working(t.local, Batch(s.queue[n..], 0, s.result.None?))).(queue := s.queue[..n])
  }

  /** The checks of a batch are run in order until one returns an error, if they are run at all. */
  predicate BatchDone(t: Thread)
    requires t.Working?
  {
    !t.batch.doWork || t.batch.pos >= |t.batch.checks| || (t.batch.pos > 0 && t.local.Some?)
  }

  predicate Enabled(s: State, step: Step) {
    match step
    case Add(checks) => |s.threads| > 0 && s.threads[MASTER].Outside?
    case Complete => |s.threads| > 0 && s.threads[MASTER].Outside?
    case Acquire(i) =>
      i < |s.threads| && (s.threads[i].Entering? || s.threads[i].Notified?
                          || (s.threads[i].Cleaning? && s.threads[i].batch.pos <= |s.threads[i].batch.checks|))
    case Run(i) => i < |s.threads| && s.threads[i].Working? && !BatchDone(s.threads[i])
    case Finish(i) => i < |s.threads| && s.threads[i].Working? && BatchDone(s.threads[i])
    case Wake(i) => i < |s.threads| && s.threads[i].Waiting?
  }

  function Apply(s: State, step: Step): State
    requires Enabled(s, step)
  {
    match step
    case Add(checks) =>
      s.(queue := s.queue + checks, nTodo := s.nTodo + |checks|,
         round := s.round.(added := s.round.added + multiset(checks)))
    case Complete => With(s, MASTER, Entering(None))
    case Acquire(i) => Leave(Enter(s, i), i)
    case Run(i) =>
      var t := s.threads[i];
      var check := t.batch.checks[t.batch.pos];
      With(s, i, Working(check.outcome, t.batch.(pos := t.batch.pos + 1)))
        .(round := s.round.(ran := s.round.ran + multiset{check}))
    case Finish(i) => With(s, i, Cleaning(s.threads[i].local, s.threads[i].batch))
    case Wake(i) => With(s, i, Notified(s.threads[i].local))
  }

  predicate Initial(s: State) {
    && s.queue == [] && s.nTodo == s.nIdle == s.nTotal == 0 && s.result == None && s.round == NEW_ROUND
    && |s.threads| > 0 && s.threads[MASTER].Outside?
    && forall i :: 0 < i < |s.threads| ==> s.threads[i] == Entering(None)
  }

  // ----- Sums over the threads -----

  function Times(l: seq<Check>, c: Check): nat {
    multiset(l)[c]
  }

  /** What a thread contributes: how many checks it has in flight; how often c is among them, and among
      those of them that were run; being in the loop; being idle. */
  datatype Tally = Tally(size: int, flight: int, executed: int, inside: int, idle: int)

  function TallyOf(t: Thread, c: Check): Tally {
    var inside := if t.Outside? || t.Entering? then 0 else 1;
    var idle := if t.Waiting? || t.Notified? then 1 else 0;
    if (t.Cleaning? || t.Working?) && t.batch.pos <= |t.batch.checks|
    then Tally(|t.batch.checks|, Times(t.batch.checks, c), Times(t.batch.checks[..t.batch.pos], c), inside, idle)
    else Tally(0, 0, 0, inside, idle)
  }

  function Plus(a: Tally, b: Tally): Tally {
    Tally(a.size + b.size, a.flight + b.flight, a.executed + b.executed, a.inside + b.inside, a.idle + b.idle)
  }

  function Sum(ts: seq<Thread>, c: Check): Tally {
    if ts == [] then Tally(0, 0, 0, 0, 0) else Plus(Sum(ts[..|ts| - 1], c), TallyOf(ts[|ts| - 1], c))
  }

  lemma PlusSwap(a: Tally, b: Tally, c: Tally)
    ensures Plus(Plus(a, b), c) == Plus(Plus(a, c), b)
  {
  }

  /** The sum is that of one thread and the rest, and replacing that thread keeps the rest. */
  lemma {:induction false} SumSplit(ts: seq<Thread>, i: nat, t: Thread, c: Check) returns (rest: Tally)
    requires i < |ts|
    ensures Sum(ts, c) == Plus(rest, TallyOf(ts[i], c)) && Sum(ts[i := t], c) == Plus(rest, TallyOf(t, c))
  {
    var n := |ts| - 1;
    if i == n {
      rest := Sum(ts[..n], c);
      assert ts[i := t][..n] == ts[..n];
    } else {
      var r := SumSplit(ts[..n], i, t, c);
      rest := Plus(r, TallyOf(ts[n], c));
      PlusSwap(r, TallyOf(ts[i], c), TallyOf(ts[n], c));
      PlusSwap(r, TallyOf(t, c), TallyOf(ts[n], c));
      assert ts[i := t][..n] == ts[..n][i := t];
    }
  }

  // ----- The invariant -----

  /** A batch that is run has errors at most at its last run check, whose outcome is the local result;
      one that is not run has seen an error of this round. */
  ghost predicate BatchOk(b: Batch, local: Option<nat>, result: Option<nat>) {
    && b.checks != [] && b.pos <= |b.checks|
    && (!b.doWork ==> b.pos == 0 && result.Some?)
    && (b.pos > 0 ==> local == b.checks[b.pos - 1].outcome)
    && (forall k :: 0 <= k < b.pos - 1 ==> b.checks[k].outcome.None?)
  }

  ghost predicate ThreadOk(t: Thread, result: Option<nat>) {
    && (t.Working? || t.Cleaning? ==> BatchOk(t.batch, t.local, result))
    && (t.Cleaning? && t.batch.doWork ==> t.batch.pos > 0 && (t.local.Some? || t.batch.pos == |t.batch.checks|))
  }

  ghost predicate ThreadsOk(s: State) {
    forall i :: 0 <= i < |s.threads| ==> ThreadOk(s.threads[i], s.result)
  }

  /** The counters count, and every check of the round is queued, in flight, finished or skipped. */
  ghost predicate CountedAt(s: State, c: Check) {
    var sum := Sum(s.threads, c);
    && s.nTodo == |s.queue| + sum.size && s.nTotal == sum.inside && s.nIdle == sum.idle
    && s.round.added[c] == Times(s.queue, c) + sum.flight + s.round.finished[c] + s.round.skipped[c]
    && s.round.ran[c] == s.round.finished[c] + sum.executed
  }

  ghost predicate Counted(s: State) {
    forall c {:trigger CountedAt(s, c)} :: CountedAt(s, c)
  }

  ghost predicate FromRound(c: Check, v: nat, checks: multiset<Check>) {
    c in checks && c.outcome == Some(v)
  }

  ghost predicate ResultOk(s: State) {
    && (s.result.None? ==> s.round.skipped == multiset{} && forall c :: c in s.round.finished ==> c.outcome.None?)
    && (s.result.Some? ==> exists c :: FromRound(c, s.result.value, s.round.finished))
  }

  ghost predicate Base(s: State) {
    && |s.threads| > 0 && (forall i :: 0 < i < |s.threads| ==> !s.threads[i].Outside?)
    && ThreadsOk(s) && Counted(s) && ResultOk(s)
  }

  /** The master sleeps, not yet notified, only while others have checks in flight. */
  ghost predicate Asleep(s: State)
    requires |s.threads| > 0
  {
    s.threads[MASTER].Waiting? ==> s.queue == [] && s.nTodo > 0
  }

  ghost predicate NobodyHolds(s: State) {
    forall i :: 0 <= i < |s.threads| ==> !s.threads[i].Holding?
  }

  ghost predicate Inv(s: State) {
    Base(s) && Asleep(s) && NobodyHolds(s)
  }

  // ----- Every step keeps it -----

  lemma {:induction false} NothingYet(ts: seq<Thread>, c: Check)
    requires forall i :: 0 <= i < |ts| ==> ts[i].Outside? || ts[i].Entering?
    ensures Sum(ts, c) == Tally(0, 0, 0, 0, 0)
  {
    if ts != [] { NothingYet(ts[..|ts| - 1], c); }
  }

  lemma InitialCounted(s: State)
    requires Initial(s)
    ensures Counted(s)
  {
    forall c ensures CountedAt(s, c) { NothingYet(s.threads, c); }
  }

  lemma InitialInv(s: State)
    requires Initial(s)
    ensures Inv(s)
  {
    InitialCounted(s);
    assert ThreadsOk(s);
  }

  lemma AddInv(s: State, checks: seq<Check>)
    requires Inv(s) && Enabled(s, Add(checks))
    ensures Inv(Apply(s, Add(checks)))
  {
    var s' := Apply(s, Add(checks));
    forall c ensures CountedAt(s', c) {
      assert CountedAt(s, c);
      assert multiset(s.queue + checks) == multiset(s.queue) + multiset(checks);
    }
  }

  /** Counting after one thread has moved, from what it contributed before and contributes now. */
  lemma Recount(s: State, i: nat, s': State)
    requires Counted(s) && i < |s.threads| == |s'.threads| && s'.threads == s.threads[i := s'.threads[i]]
    requires forall c :: Shift(s, i, s', c)
    ensures Counted(s')
  {
    forall c ensures CountedAt(s', c) {
      assert CountedAt(s, c) && Shift(s, i, s', c);
      var rest := SumSplit(s.threads, i, s'.threads[i], c);
    }
  }

  ghost predicate Shift(s: State, i: nat, s': State, c: Check)
    requires i < |s.threads| == |s'.threads|
  {
    var a, b := TallyOf(s.threads[i], c), TallyOf(s'.threads[i], c);
    && s'.nTodo - s.nTodo == |s'.queue| - |s.queue| + b.size - a.size
    && s'.nTotal - s.nTotal == b.inside - a.inside && s'.nIdle - s.nIdle == b.idle - a.idle
    && s'.round.added[c] + Times(s.queue, c) + a.flight + s.round.finished[c] + s.round.skipped[c] ==
         s.round.added[c] + Times(s'.queue, c) + b.flight + s'.round.finished[c] + s'.round.skipped[c]
    && s'.round.ran[c] + s.round.finished[c] + a.executed == s.round.ran[c] + s'.round.finished[c] + b.executed
  }

  lemma RunInv(s: State, i: nat)
    requires Inv(s) && Enabled(s, Run(i))
    ensures Inv(Apply(s, Run(i)))
  {
    var t, s' := s.threads[i], Apply(s, Run(i));
    var k := t.batch.pos;
    assert ThreadOk(t, s.result);
    forall c ensures Shift(s, i, s', c) {
      assert t.batch.checks[..k + 1] == t.batch.checks[..k] + [t.batch.checks[k]];
    }
    Recount(s, i, s');
    assert ThreadOk(s'.threads[i], s'.result);
  }

  /** A thread that moves without changing anything that is counted. */
  lemma MoveBase(s: State, i: nat, t: Thread)
    requires Base(s) && i < |s.threads| && ThreadOk(t, s.result)
             && (forall c :: TallyOf(t, c) == TallyOf(s.threads[i], c))
    requires i > MASTER ==> !t.Outside?
    ensures Base(With(s, i, t))
  {
    var s' := With(s, i, t);
    forall c ensures Shift(s, i, s', c) { assert TallyOf(t, c) == TallyOf(s.threads[i], c); }
    Recount(s, i, s');
  }

  lemma {:induction false} SizeNonNegative(ts: seq<Thread>, c: Check)
    ensures Sum(ts, c).size >= 0 && Sum(ts, c).inside >= 0 && Sum(ts, c).idle >= 0
  {
    if ts != [] { SizeNonNegative(ts[..|ts| - 1], c); }
  }

  const ANY := Check(0, None)

  lemma NeverNegative(s: State)
    requires Counted(s)
    ensures s.nTodo >= |s.queue| && s.nTotal >= 0 && s.nIdle >= 0
  {
    assert CountedAt(s, ANY);
    SizeNonNegative(s.threads, ANY);
  }

  lemma EnterInv(s: State, i: nat)
    requires Inv(s) && Enabled(s, Acquire(i)) && !s.threads[i].Cleaning?
    ensures Base(Enter(s, i)) && Asleep(Enter(s, i)) && Enter(s, i).threads[i].Holding?
  {
    var s' := Enter(s, i);
    forall c ensures Shift(s, i, s', c) {}
    Recount(s, i, s');
  }

  // ----- Cleaning up -----

  lemma CleanedCounted(s: State, i: nat)
    requires Base(s) && i < |s.threads| && s.threads[i].Cleaning?
    ensures s.threads[i].batch.pos <= |s.threads[i].batch.checks| && Counted(Cleaned(s, i))
  {
    assert ThreadOk(s.threads[i], s.result);
    var s', b := Cleaned(s, i), s.threads[i].batch;
    assert b.checks == b.checks[..b.pos] + b.checks[b.pos..];
    forall c ensures Shift(s, i, s', c) {}
    Recount(s, i, s');
  }

  /** Of a batch that was run without an error nothing was skipped and nothing failed; otherwise the
      result is set from now on, to the outcome of a finished check. */
  lemma CleanedResult(s: State, i: nat)
    requires Base(s) && i < |s.threads| && s.threads[i].Cleaning?
    ensures s.threads[i].batch.pos <= |s.threads[i].batch.checks| && ResultOk(Cleaned(s, i))
  {
    var t, b := s.threads[i], s.threads[i].batch;
    assert ThreadOk(t, s.result);
    var s' := Cleaned(s, i);
    var run := b.checks[..b.pos];
    if s'.result.None? {
      assert b.checks[b.pos..] == [];
      forall c | c in s'.round.finished ensures c.outcome.None? {
        if c in multiset(run) {
          var k :| 0 <= k < |run| && run[k] == c;
        }
      }
    } else if s.result.None? {
      var c := b.checks[b.pos - 1];
      assert run[b.pos - 1] == c && c in run;
      assert FromRound(c, s'.result.value, s'.round.finished);
    } else {
      var c :| FromRound(c, s.result.value, s.round.finished);
      assert FromRound(c, s'.result.value, s'.round.finished);
    }
  }

  lemma CleanUpInv(s: State, i: nat)
    requires Inv(s) && Enabled(s, Acquire(i)) && s.threads[i].Cleaning?
    ensures Base(Enter(s, i)) && Asleep(Enter(s, i)) && Enter(s, i).threads[i].Holding?
  {
    CleanedCounted(s, i);
    CleanedResult(s, i);
    var s1 := Cleaned(s, i);
    forall k | 0 <= k < |s1.threads| ensures ThreadOk(s1.threads[k], s1.result) {
      assert ThreadOk(s.threads[k], s.result);
    }
    assert Base(s1);
    NeverNegative(s1);
    if s1.nTodo == 0 && i != MASTER && s1.threads[MASTER].Waiting? {
      MoveBase(s1, MASTER, Notified(s1.threads[MASTER].local));
    }
  }

  // ----- Leaving the critical section -----

  lemma ReturnInv(s: State)
    requires Base(s) && s.threads[MASTER].Holding? && Returns(s, MASTER)
    ensures Base(Leave(s, MASTER))
  {
    var s' := Leave(s, MASTER);
    forall c ensures CountedAt(s', c) {
      assert CountedAt(s, c);
      NothingInFlight(s.threads, c);
      var rest := SumSplit(s.threads, MASTER, Outside, c);
    }
    forall k | 0 <= k < |s'.threads| ensures ThreadOk(s'.threads[k], s'.result) {
      assert ThreadOk(s.threads[k], s.result);
      if s.threads[k].Working? || s.threads[k].Cleaning? {
        assert CountedAt(s, ANY);
        SomeInFlight(s.threads, k, ANY);
      }
    }
  }

  lemma {:induction false} NothingInFlight(ts: seq<Thread>, c: Check)
    requires Sum(ts, c).size == 0
    ensures Sum(ts, c).flight == 0 && Sum(ts, c).executed == 0
  {
    if ts != [] {
      SizeNonNegative(ts[..|ts| - 1], c);
      NothingInFlight(ts[..|ts| - 1], c);
    }
  }

  lemma {:induction false} SomeInFlight(ts: seq<Thread>, i: nat, c: Check)
    requires i < |ts| && (ts[i].Working? || ts[i].Cleaning?) && ts[i].batch.pos <= |ts[i].batch.checks|
    ensures Sum(ts, c).size >= |ts[i].batch.checks|
  {
    var n := |ts| - 1;
    if i < n { SomeInFlight(ts[..n], i, c); } else { SizeNonNegative(ts[..n], c); }
  }

  lemma WaitInv(s: State, i: nat)
    requires Base(s) && Asleep(s) && i < |s.threads| && s.threads[i].Holding? && s.queue == [] && !Returns(s, i)
    ensures Base(Leave(s, i)) && Asleep(Leave(s, i))
  {
    var s' := Leave(s, i);
    forall c ensures Shift(s, i, s', c) {}
    Recount(s, i, s');
    NeverNegative(s');
  }

  lemma TakeInv(s: State, i: nat)
    requires Base(s) && Asleep(s) && i < |s.threads| && s.threads[i].Holding? && s.queue != []
    ensures Base(Leave(s, i)) && Asleep(Leave(s, i))
  {
    var s', n := Leave(s, i), |s.queue| - BatchLength(s);
    assert s.queue == s.queue[..n] + s.queue[n..];
    forall c ensures Shift(s, i, s', c) {}
    Recount(s, i, s');
  }

  /** What one critical section does to the other threads: it wakes the master, or nothing. */
  lemma AcquireOthers(s: State, i: nat, k: nat)
    requires Inv(s) && Enabled(s, Acquire(i)) && k < |s.threads| && k != i
    ensures var t, t' := s.threads[k], Apply(s, Acquire(i)).threads[k];
      t' == t || (k == MASTER && t.Waiting? && t'.Notified? && Enter(s, i).nTodo == 0 && s.threads[i].Cleaning?)
  {
  }

  lemma AcquireInv(s: State, i: nat)
    requires Inv(s) && Enabled(s, Acquire(i))
    ensures Inv(Apply(s, Acquire(i)))
  {
    if s.threads[i].Cleaning? { CleanUpInv(s, i); } else { EnterInv(s, i); }
    var e := Enter(s, i);
    if Returns(e, i) { ReturnInv(e); } else if e.queue == [] { WaitInv(e, i); } else { TakeInv(e, i); }
    var s' := Apply(s, Acquire(i));
    forall k | 0 <= k < |s'.threads| ensures !s'.threads[k].Holding? {
      if k != i { AcquireOthers(s, i, k); }
    }
  }

  lemma StepInv(s: State, step: Step)
    requires Inv(s) && Enabled(s, step)
    ensures Inv(Apply(s, step))
  {
    match step
    case Add(checks) => AddInv(s, checks);
    case Complete => MoveBase(s, MASTER, Entering(None));
    case Acquire(i) => AcquireInv(s, i);
    case Run(i) => RunInv(s, i);
    case Finish(i) =>
      var t := s.threads[i];
      assert ThreadOk(t, s.result);
      MoveBase(s, i, Cleaning(t.local, t.batch));
    case Wake(i) => MoveBase(s, i, Notified(s.threads[i].local));
  }

  // ----- Runs -----

  ghost predicate Steps(states: seq<State>, steps: seq<Step>, k: nat)
    requires k < |steps| && |states| == |steps| + 1
  {
    Enabled(states[k], steps[k]) && states[k + 1] == Apply(states[k], steps[k])
  }

  /** Any interleaving of the steps of the master and of the workers. */
  ghost predicate IsRun(states: seq<State>, steps: seq<Step>) {
    && |states| == |steps| + 1
    && forall k {:trigger Steps(states, steps, k)} :: 0 <= k < |steps| ==> Steps(states, steps, k)
  }

  lemma {:induction false} RunsKeepInv(states: seq<State>, steps: seq<Step>, k: nat)
    requires IsRun(states, steps) && Initial(states[0]) && k <= |steps|
    ensures Inv(states[k])
  {
    if k == 0 {
      InitialInv(states[0]);
    } else {
      RunsKeepInv(states, steps, k - 1);
      assert Steps(states, steps, k - 1);
      StepInv(states[k - 1], steps[k - 1]);
    }
  }

  /** When Complete returns, it returns nothing if and only if no check added in the round fails, and then
      each of them was run exactly once; and what it returns otherwise is the outcome of one of them. */
  lemma CompleteResult(s: State)
    requires Inv(s) && Enabled(s, Acquire(MASTER)) && Returns(Enter(s, MASTER), MASTER)
    ensures var e := Enter(s, MASTER);
      && e.round.added == s.round.added
      && (e.result.None? <==> forall c :: c in e.round.added ==> c.outcome.None?)
      && (e.result.None? ==> e.round.ran == e.round.added)
      && (e.result.Some? ==> exists c :: FromRound(c, e.result.value, e.round.added))
  {
    if s.threads[MASTER].Cleaning? { CleanUpInv(s, MASTER); } else { EnterInv(s, MASTER); }
    var e := Enter(s, MASTER);
    forall c
      ensures e.round.added[c] == e.round.finished[c] + e.round.skipped[c] && e.round.ran[c] == e.round.finished[c]
    {
      assert CountedAt(e, c);
      NothingInFlight(e.threads, c);
    }
    if e.result.None? {
      assert e.round.ran == e.round.added;
    } else {
      var c :| FromRound(c, e.result.value, e.round.finished);
      assert e.round.added[c] >= e.round.finished[c] > 0;
      assert FromRound(c, e.result.value, e.round.added);
    }
  }

  /** Whenever Complete returns in a run, it returns the right result. */
  lemma CompleteCorrect(states: seq<State>, steps: seq<Step>, k: nat)
    requires IsRun(states, steps) && Initial(states[0]) && k < |steps| && steps[k] == Acquire(MASTER)
    requires Enabled(states[k], Acquire(MASTER)) && Returns(Enter(states[k], MASTER), MASTER)
    ensures var s, e := states[k], Enter(states[k], MASTER);
      && (e.result.None? <==> forall c :: c in s.round.added ==> c.outcome.None?)
      && (e.result.None? ==> e.round.ran == s.round.added)
      && (e.result.Some? ==> exists c :: FromRound(c, e.result.value, s.round.added))
      && states[k + 1].round == NEW_ROUND && states[k + 1].result == None && states[k + 1].queue == []
  {
    RunsKeepInv(states, steps, k);
    assert Steps(states, steps, k);
    CompleteResult(states[k]);
  }

  // ----- Nobody waits for nothing -----

  lemma {:induction false} WhoIsBusy(ts: seq<Thread>, c: Check) returns (i: nat)
    requires Sum(ts, c).size > 0
    ensures i < |ts| && (ts[i].Working? || ts[i].Cleaning?) && ts[i].batch.checks != []
  {
    var n := |ts| - 1;
    if TallyOf(ts[n], c).size > 0 { i := n; } else { i := WhoIsBusy(ts[..n], c); }
  }

  /** While the master sleeps and was not notified, some worker has a batch in flight. */
  lemma AsleepMeansBusy(s: State) returns (i: nat)
    requires Inv(s) && s.threads[MASTER].Waiting?
    ensures 0 < i < |s.threads| && (s.threads[i].Working? || s.threads[i].Cleaning?) && s.threads[i].batch.checks != []
  {
    assert CountedAt(s, ANY);
    i := WhoIsBusy(s.threads, ANY);
  }

  ghost predicate Own(step: Step) {
    step.Acquire? || step.Run? || step.Finish?
  }

  /** As long as Complete has not returned, some thread can go on without being woken up. */
  lemma NeverStuck(s: State) returns (step: Step)
    requires Inv(s) && !s.threads[MASTER].Outside?
    ensures Own(step) && Enabled(s, step)
  {
    var i: nat := MASTER;
    if s.threads[MASTER].Waiting? { i := AsleepMeansBusy(s); }
    var t := s.threads[i];
    assert ThreadOk(t, s.result);
    step := if t.Working? then if BatchDone(t) then Finish(i) else Run(i) else Acquire(i);
  }

  // ----- And the steps come to an end -----

  function Effort(t: Thread): nat {
    match t
    case Entering(_) => 2
    case Cleaning(_, _) => 2
    case Notified(_) => 1
    case Working(_, b) => 3 + if b.pos <= |b.checks| then |b.checks| - b.pos else 0
    case _ => 0
  }

  function Efforts(ts: seq<Thread>): nat {
    if ts == [] then 0 else Efforts(ts[..|ts| - 1]) + Effort(ts[|ts| - 1])
  }

  function Work(s: State): nat {
    4 * |s.queue| + Efforts(s.threads)
  }

  lemma {:induction false} EffortSplit(ts: seq<Thread>, i: nat, t: Thread)
    requires i < |ts|
    ensures Efforts(ts[i := t]) == Efforts(ts) - Effort(ts[i]) + Effort(t)
  {
    var n := |ts| - 1;
    if i == n {
      assert ts[i := t][..n] == ts[..n];
    } else {
      EffortSplit(ts[..n], i, t);
      assert ts[i := t][..n] == ts[..n][i := t];
    }
  }

  lemma EnterEffort(s: State, i: nat)
    requires Inv(s) && Enabled(s, Acquire(i))
    ensures Enter(s, i).queue == s.queue && Efforts(Enter(s, i).threads) < Efforts(s.threads)
  {
    var e := Enter(s, i);
    var t := Holding(e.threads[i].local);
    EffortSplit(s.threads, i, t);
    if s.threads[i].Cleaning? && e.threads != s.threads[i := t] {
      var m := s.threads[MASTER];
      EffortSplit(s.threads[i := t], MASTER, Notified(m.local));
    }
  }

  lemma LeaveEffort(s: State, i: nat)
    requires i < |s.threads| && s.threads[i].Holding?
    ensures Work(Leave(s, i)) <= Work(s)
  {
    var s' := Leave(s, i);
    EffortSplit(s.threads, i, s'.threads[i]);
  }

  lemma StepsDecrease(s: State, step: Step)
    requires Inv(s) && Enabled(s, step) && Own(step)
    ensures Work(Apply(s, step)) < Work(s)
  {
    match step
    case Acquire(i) =>
      if s.threads[i].Cleaning? { CleanUpInv(s, i); }
      EnterEffort(s, i);
      LeaveEffort(Enter(s, i), i);
    case Run(i) =>
      assert ThreadOk(s.threads[i], s.result);
      EffortSplit(s.threads, i, Apply(s, step).threads[i]);
    case Finish(i) => EffortSplit(s.threads, i, Apply(s, step).threads[i]);
  }

  /**
   * In whatever order the threads go on, after a bounded number of steps without further wake-ups Complete has
   * returned.
   */
  lemma {:induction false} CompleteReturns(states: seq<State>, steps: seq<Step>)
    requires IsRun(states, steps) && Inv(states[0]) && (forall k :: 0 <= k < |steps| ==> Own(steps[k]))
    ensures |steps| + Work(states[|steps|]) <= Work(states[0]) && Inv(states[|steps|])
    ensures (forall step :: Own(step) ==> !Enabled(states[|steps|], step)) ==> states[|steps|].threads[MASTER].Outside?
  {
    var n := |steps|;
    if n > 0 {
      var before, s1 := states[..n], steps[..n - 1];
      forall k | 0 <= k < |s1| ensures Steps(before, s1, k) { assert Steps(states, steps, k); }
      CompleteReturns(before, s1);
      assert Steps(states, steps, n - 1);
      StepInv(states[n - 1], steps[n - 1]);
      StepsDecrease(states[n - 1], steps[n - 1]);
    }
    if !states[n].threads[MASTER].Outside? {
      var step := NeverStuck(states[n]);
    }
  }
}
