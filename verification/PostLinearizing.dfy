/** PostLinearize, src/cluster_linearize.h:1375-1574. */
module PostLinearizing {
  import opened FeeFracs
  import opened Diagrams
  import opened Chunking
  import opened Orders
  import opened Passes
  import opened PassGains
  import opened TreePasses
  import opened GroupLists
  import opened DepGraphs
  import opened PassResults
  import opened Linearizing
  import opened PassShapes

  lemma BubbleUnfold(fr: seq<FeeFrac>, deps: seq<set<nat>>, before: seq<seq<nat>>, c: seq<nat>, after: seq<seq<nat>>)
    requires AllReady(fr, deps, before) && c != [] && Ready(fr, deps, c) && AllReady(fr, deps, after)
    ensures before == [] || !Higher(FeeSum(fr, c), FeeSum(fr, before[|before| - 1])) ==>
      Bubble(fr, deps, before, c, after) == before + [c] + after
    ensures before != [] && Higher(FeeSum(fr, c), FeeSum(fr, before[|before| - 1])) ==>
      var n := |before| - 1;
      && AllReady(fr, deps, before[..n]) && AllReady(fr, deps, [before[n]] + after)
      && Ready(fr, deps, before[n] + c) && Known(deps, c)
      && Bubble(fr, deps, before, c, after) ==
           if DependsOn(deps, c, before[n]) then Bubble(fr, deps, before[..n], before[n] + c, after)
           else Bubble(fr, deps, before[..n], c, [before[n]] + after)
  {
    if before != [] { InRangeConcat(fr, before[|before| - 1], c); }
  }

  /** What the entries of c, of the group before it and of the group after it say. */
  lemma Neighbours(fr: seq<FeeFrac>, deps: seq<set<nat>>, entries: seq<TxEntry>, before: seq<seq<nat>>, c: seq<nat>,
                   after: seq<seq<nat>>)
    requires ListRep(fr, deps, entries, before + [c] + after)
    ensures NonEmpty(before) && c != [] && NonEmpty(after) && Tail(c) + 1 < |entries|
    ensures GroupRep(fr, deps, entries, c)
    ensures var e := entries[Tail(c) + 1];
      && e.feerate == FeeSum(fr, c) && e.deps == DepsOf(deps, c)
      && e.prevGroup == (if before == [] then SENTINEL else Tail(before[|before| - 1]) + 1)
    ensures before == [] ==> entries[SENTINEL].feerate == EMPTY
    ensures before != [] ==>
      var p := before[|before| - 1];
      && GroupRep(fr, deps, entries, p) && Tail(p) + 1 < |entries|
      && entries[Tail(p) + 1].feerate == FeeSum(fr, p) && entries[Tail(p) + 1].group == Elems(p)
    ensures after != [] ==> Tail(after[0]) + 1 < |entries|
  {
    var groups, n := before + [c] + after, |before|;
    forall j | 0 <= j < |before| ensures before[j] != [] { assert groups[j] == before[j]; }
    forall j | 0 <= j < |after| ensures after[j] != [] { assert groups[n + 1 + j] == after[j]; }
    assert groups[n] == c;
    assert GroupRep(fr, deps, entries, groups[n]);
    assert LinkOk(entries, Tails(groups), n);
    if n > 0 {
      assert groups[n - 1] == before[n - 1];
      assert GroupRep(fr, deps, entries, groups[n - 1]);
    }
    if after != [] {
      assert groups[n + 1] == after[0];
      assert GroupRep(fr, deps, entries, groups[n + 1]);
    }
  }

  lemma MergePosition(before: seq<seq<nat>>, c: seq<nat>, after: seq<seq<nat>>)
    requires before != []
    ensures var groups, n := before + [c] + after, |before| - 1;
      && groups[n] == before[n] && groups[n + 1] == c
      && MergeAt(groups, n) == before[..n] + [before[n] + c] + after
      && SwapAt(groups, n) == before[..n] + [c] + ([before[n]] + after)
      && (after == [] <==> n + 2 == |groups|) && (after != [] ==> groups[n + 2] == after[0])
  {
    var groups, n := before + [c] + after, |before| - 1;
    assert groups[..n] == before[..n] && groups[n + 2..] == after;
  }

  /** Between two turns of the cycle: prev, cur and next are the tails of three consecutive groups. */
  ghost predicate CycleInv(fr: seq<FeeFrac>, deps: seq<set<nat>>, entries: seq<TxEntry>, before: seq<seq<nat>>,
                           c: seq<nat>, after: seq<seq<nat>>, next: nat, cur: nat, prev: nat, goal: seq<seq<nat>>) {
    && ListRep(fr, deps, entries, before + [c] + after)
    && AllReady(fr, deps, before) && c != [] && Ready(fr, deps, c) && AllReady(fr, deps, after)
    && Bubble(fr, deps, before, c, after) == goal
    && cur == Tail(c) + 1 < |entries|
    && prev == (if before == [] then SENTINEL else Tail(before[|before| - 1]) + 1) && prev < |entries|
    && next == (if after == [] then SENTINEL else Tail(after[0]) + 1) && next < |entries|
  }

  lemma CycleFacts(fr: seq<FeeFrac>, deps: seq<set<nat>>, entries: seq<TxEntry>, before: seq<seq<nat>>, c: seq<nat>,
                   after: seq<seq<nat>>, next: nat, cur: nat, prev: nat, goal: seq<seq<nat>>)
    requires CycleInv(fr, deps, entries, before, c, after, next, cur, prev, goal)
    ensures Higher(entries[cur].feerate, entries[prev].feerate) <==>
      before != [] && Higher(FeeSum(fr, c), FeeSum(fr, before[|before| - 1]))
    ensures entries[cur].firstTx < |entries|
    ensures Higher(entries[cur].feerate, entries[prev].feerate) ==>
      (entries[cur].deps * entries[prev].group != {} <==> DependsOn(deps, c, before[|before| - 1]))
    ensures !Higher(entries[cur].feerate, entries[prev].feerate) ==> goal == before + [c] + after
  {
    Neighbours(fr, deps, entries, before, c, after);
    BubbleUnfold(fr, deps, before, c, after);
  }

  lemma MergeTurnList(fr: seq<FeeFrac>, deps: seq<set<nat>>, entries: seq<TxEntry>, before: seq<seq<nat>>, c: seq<nat>,
                      after: seq<seq<nat>>)
    requires ListRep(fr, deps, entries, before + [c] + after) && before != [] && before[|before| - 1] != [] && c != []
    requires Tail(c) + 1 < |entries| && Tail(before[|before| - 1]) + 1 < |entries|
             && entries[Tail(c) + 1].firstTx < |entries|
    ensures var n := |before| - 1;
      ListRep(fr, deps, MergedEntries(entries, Tail(c) + 1, Tail(before[n]) + 1), before[..n] + [before[n] + c] + after)
  {
    Neighbours(fr, deps, entries, before, c, after);
    MergePosition(before, c, after);
    ListMerge(fr, deps, entries, before + [c] + after, |before| - 1);
  }

  lemma SwapTurnList(fr: seq<FeeFrac>, deps: seq<set<nat>>, entries: seq<TxEntry>, before: seq<seq<nat>>, c: seq<nat>,
                     after: seq<seq<nat>>)
    requires ListRep(fr, deps, entries, before + [c] + after) && before != [] && NonEmpty(before) && c != []
             && NonEmpty(after)
    requires Tail(c) + 1 < |entries| && Tail(before[|before| - 1]) + 1 < |entries| && NextTail(after, 0) < |entries|
    ensures var n := |before| - 1;
      ListRep(fr, deps, SwappedEntries(entries, NextTail(after, 0), Tail(c) + 1, Tail(before[n]) + 1),
              before[..n] + [c] + ([before[n]] + after))
  {
    MergePosition(before, c, after);
    ListSwap(fr, deps, entries, before + [c] + after, |before| - 1);
  }

  /** The group before the one before c. */
  lemma PrevOfPrev(fr: seq<FeeFrac>, deps: seq<set<nat>>, entries: seq<TxEntry>, before: seq<seq<nat>>, c: seq<nat>,
                   after: seq<seq<nat>>)
    requires ListRep(fr, deps, entries, before + [c] + after) && before != []
    ensures NonEmpty(before) && Tail(before[|before| - 1]) + 1 < |entries|
    ensures
      var n := |before| - 1;
      entries[Tail(before[n]) + 1].prevGroup == if n == 0 then SENTINEL else Tail(before[n - 1]) + 1
    ensures entries[Tail(before[|before| - 1]) + 1].prevGroup < |entries|
  {
    var groups, n := before + [c] + after, |before| - 1;
    var tails := Tails(groups);
    forall j | 0 <= j < |before| ensures before[j] != [] { assert groups[j] == before[j]; }
    assert LinkOk(entries, tails, n) && tails[n] == Tail(before[n]) + 1;
    if n > 0 { assert LinkOk(entries, tails, n - 1) && tails[n - 1] == Tail(before[n - 1]) + 1; }
  }

  lemma MergeTurn(fr: seq<FeeFrac>, deps: seq<set<nat>>, entries: seq<TxEntry>, before: seq<seq<nat>>, c: seq<nat>,
                  after: seq<seq<nat>>, next: nat, cur: nat, prev: nat, goal: seq<seq<nat>>)
    requires CycleInv(fr, deps, entries, before, c, after, next, cur, prev, goal) && before != []
    requires Higher(FeeSum(fr, c), FeeSum(fr, before[|before| - 1])) && DependsOn(deps, c, before[|before| - 1])
    requires entries[cur].firstTx < |entries|
    ensures var n := |before| - 1;
      CycleInv(fr, deps, MergedEntries(entries, cur, prev), before[..n], before[n] + c, after, next, cur,
               entries[prev].prevGroup, goal)
    ensures |MergedEntries(entries, cur, prev)| == |entries|
  {
    var n := |before| - 1;
    BubbleUnfold(fr, deps, before, c, after);
    MergeTurnList(fr, deps, entries, before, c, after);
    PrevOfPrev(fr, deps, entries, before, c, after);
    MergedElsewhere(entries, cur, prev, cur);
  }

  lemma SwapTurn(fr: seq<FeeFrac>, deps: seq<set<nat>>, entries: seq<TxEntry>, before: seq<seq<nat>>, c: seq<nat>,
                 after: seq<seq<nat>>, next: nat, cur: nat, prev: nat, goal: seq<seq<nat>>)
    requires CycleInv(fr, deps, entries, before, c, after, next, cur, prev, goal) && before != []
    requires Higher(FeeSum(fr, c), FeeSum(fr, before[|before| - 1])) && !DependsOn(deps, c, before[|before| - 1])
    ensures var n := |before| - 1;
      CycleInv(fr, deps, SwappedEntries(entries, next, cur, prev), before[..n], c, [before[n]] + after, prev, cur,
               entries[prev].prevGroup, goal)
  {
    var n := |before| - 1;
    BubbleUnfold(fr, deps, before, c, after);
    SwapTurnList(fr, deps, entries, before, c, after);
    PrevOfPrev(fr, deps, entries, before, c, after);
    assert ([before[n]] + after)[0] == before[n];
  }

  /** The merge and swap cycle for the group at cur, which is last in the list. */
  method MergeSwapCycle(entries0: seq<TxEntry>, cur: nat, ghost fr: seq<FeeFrac>, ghost deps: seq<set<nat>>,
                        ghost before0: seq<seq<nat>>, ghost c0: seq<nat>)
    returns (entries: seq<TxEntry>)
    requires AllReady(fr, deps, before0) && c0 != [] && Ready(fr, deps, c0) && cur == Tail(c0) + 1
    requires ListRep(fr, deps, entries0, before0 + [c0] + [])
    ensures |entries| == |entries0| && ListRep(fr, deps, entries, Bubble(fr, deps, before0, c0, []))
  {
    entries := entries0;
    ghost var before, c, after: seq<seq<nat>> := before0, c0, [];
    ghost var goal := Bubble(fr, deps, before0, c0, []);
    Neighbours(fr, deps, entries, before, c, after);
    var next, prev := SENTINEL, entries[cur].prevGroup;
    while Higher(entries[cur].feerate, entries[prev].feerate)
      invariant |entries| == |entries0| && CycleInv(fr, deps, entries, before, c, after, next, cur, prev, goal)
      decreases |before|
    {
      CycleFacts(fr, deps, entries, before, c, after, next, cur, prev, goal);
      ghost var n := |before| - 1;
      var preprev := entries[prev].prevGroup;
      if entries[cur].deps * entries[prev].group != {} {
        MergeTurn(fr, deps, entries, before, c, after, next, cur, prev, goal);
        entries := MergedEntries(entries, cur, prev);
        before, c := before[..n], before[n] + c;
      } else {
        SwapTurn(fr, deps, entries, before, c, after, next, cur, prev, goal);
        entries := SwappedEntries(entries, next, cur, prev);
        before, after := before[..n], [before[n]] + after;
        next := prev;
      }
      prev := preprev;
    }
    CycleFacts(fr, deps, entries, before, c, after, next, cur, prev, goal);
  }

  // ----- One pass -----

  /** The entries with a new group of the one transaction x at the end of the list. */
  function AppendedEntries(entries: seq<TxEntry>, x: nat, deps: set<nat>, feerate: FeeFrac): (r: seq<TxEntry>)
    requires x + 1 < |entries|
    ensures |r| == |entries|
  {
    var cur := x + 1;
    var e1 := entries[cur := TxEntry(NO_PREV_TX, cur, entries[SENTINEL].prevGroup, {x}, deps, feerate)];
    e1[SENTINEL := e1[SENTINEL].(prevGroup := cur)]
  }

  lemma ListAppend(fr: seq<FeeFrac>, deps: seq<set<nat>>, entries: seq<TxEntry>, groups: seq<seq<nat>>, x: nat)
    requires ListRep(fr, deps, entries, groups) && x + 1 < |entries| && Ready(fr, deps, [x])
    requires forall j :: 0 <= j < |groups| ==> x !in groups[j]
    ensures ListRep(fr, deps, AppendedEntries(entries, x, deps[[x][0]], fr[[x][0]]), groups + [[x]])
  {
    var e, now := AppendedEntries(entries, x, deps[[x][0]], fr[[x][0]]), groups + [[x]];
    var tails: seq<nat> := Tails(groups);
    assert NonEmpty(now);
    forall j | 0 <= j < |now| ensures GroupRep(fr, deps, e, now[j]) {
      if j < |groups| {
        assert now[j] == groups[j] && GroupRep(fr, deps, entries, groups[j]);
        forall y | y in groups[j] ensures y + 1 < |entries| && SameButLink(entries[y + 1], e[y + 1]) {}
        GroupRepFrame(fr, deps, entries, e, groups[j]);
      } else {
        AppendedGroup(fr, deps, e, x);
      }
    }
    forall j | 0 <= j < |tails| ensures tails[j] != x + 1 { assert Tail(groups[j]) in groups[j]; }
    LinksAppend(entries, tails, x + 1, e);
    assert Tails(now) == tails + [x + 1];
    assert Apart(now) by {
      forall j | 0 <= j < |groups| ensures Elems(groups[j]) !! Elems([x]) {}
    }
  }

  lemma AppendedGroup(fr: seq<FeeFrac>, deps: seq<set<nat>>, e: seq<TxEntry>, x: nat)
    requires Ready(fr, deps, [x]) && x + 1 < |e| && x < |deps| && x < |fr|
    requires var t := e[x + 1];
            t.prevTx == NO_PREV_TX && t.firstTx == x + 1 && t.group == {x} && t.deps == deps[x]
            && t.feerate == fr[x]
    ensures GroupRep(fr, deps, e, [x])
  {
    assert Elems([x]) == {x} && [x][..0] == [];
    assert PrevOk(e, [x], 0);
  }

  /** The elements of the groups of a pass over the first i elements of s. */
  lemma NotYetGrouped(fr: seq<FeeFrac>, deps: seq<set<nat>>, s: seq<nat>, i: nat)
    requires Ready(fr, deps, s) && InOrder(deps, s) && i < |s|
    ensures Ready(fr, deps, s[..i]) && Ready(fr, deps, [s[i]]) && Ready(fr, deps, s[..i + 1])
    ensures forall j :: 0 <= j < |PassGroups(fr, deps, s[..i])| ==> s[i] !in PassGroups(fr, deps, s[..i])[j]
    ensures PassGroups(fr, deps, s[..i + 1]) == Bubble(fr, deps, PassGroups(fr, deps, s[..i]), [s[i]], [])
  {
    assert InOrder(deps, s[..i]);
    PassResult(fr, deps, s[..i]);
    var groups := PassGroups(fr, deps, s[..i]);
    forall j, k | 0 <= j < |groups| && 0 <= k < |groups[j]| ensures groups[j][k] != s[i] {
      InFlatten(groups, j, k);
      assert groups[j][k] in Elems(s[..i]);
      var m :| 0 <= m < i && s[m] == groups[j][k];
      assert MayFollow(deps, s[m], s[i]);
    }
    assert s[..i + 1][..i] == s[..i];
  }

  lemma {:induction false} InFlatten(groups: seq<seq<nat>>, j: nat, k: nat)
    requires j < |groups| && k < |groups[j]|
    ensures groups[j][k] in Elems(Flatten(groups))
  {
    if j == 0 {
      assert Flatten(groups)[k] == groups[0][k];
    } else {
      InFlatten(groups[1..], j - 1, k);
      var i :| 0 <= i < |Flatten(groups[1..])| && Flatten(groups[1..])[i] == groups[j][k];
      assert Flatten(groups)[|groups[0]| + i] == groups[j][k];
    }
  }

  /** Append a group of one transaction, and move it to its place. */
  method InsertNext(graph: DepGraph, rev: bool, entries0: seq<TxEntry>, idx: nat, ghost groups: seq<seq<nat>>)
    returns (entries: seq<TxEntry>)
    requires var g := graph.Value();
            ListRep(Fees(g, rev), Relation(g, rev), entries0, groups)
            && AllReady(Fees(g, rev), Relation(g, rev), groups)
    requires var g := graph.Value(); |entries0| == |g.entries| + 1 && Ready(Fees(g, rev), Relation(g, rev), [idx])
    requires forall j :: 0 <= j < |groups| ==> idx !in groups[j]
    ensures var g := graph.Value();
      |entries| == |entries0| && ListRep(Fees(g, rev), Relation(g, rev), entries,
                                         Bubble(Fees(g, rev), Relation(g, rev), groups, [idx], []))
  {
    ghost var fr, deps := Fees(graph.Value(), rev), Relation(graph.Value(), rev);
    assert [idx][0] == idx && idx < |graph.entries|;
    ListAppend(fr, deps, entries0, groups, idx);
    var deps1 := if rev then graph.entries[idx].descendants else graph.entries[idx].ancestors;
    entries := AppendedEntries(entries0, idx, deps1, Signed(rev, graph.entries[idx].feerate));
    assert groups + [[idx]] == groups + [[idx]] + [];
    entries := MergeSwapCycle(entries, idx + 1, fr, deps, groups, [idx]);
  }

  /** Put every transaction of the list into a group, and the groups in order. */
  method BuildGroups(graph: DepGraph, a: array<nat>, rev: bool, entries0: seq<TxEntry>) returns (entries: seq<TxEntry>)
    requires var g := graph.Value(); var s := Turned(rev, a[..]);
      Ready(Fees(g, rev), Relation(g, rev), s) && InOrder(Relation(g, rev), s) && |entries0| == |g.entries| + 1
    requires entries0[SENTINEL].feerate == EMPTY
    ensures var g := graph.Value();
      ListRep(Fees(g, rev), Relation(g, rev), entries, PassGroups(Fees(g, rev), Relation(g, rev), Turned(rev, a[..])))
    ensures |entries| == |entries0|
  {
    ghost var g := graph.Value();
    ghost var fr, deps, s := Fees(g, rev), Relation(g, rev), Turned(rev, a[..]);
    entries := entries0[SENTINEL := entries0[SENTINEL].(prevGroup := SENTINEL)];
    ghost var groups: seq<seq<nat>> := [];
    assert ListRep(fr, deps, entries, groups);
    for i := 0 to a.Length
      invariant |entries| == |entries0| && Ready(fr, deps, s[..i])
      invariant ListRep(fr, deps, entries, groups) && groups == PassGroups(fr, deps, s[..i])
    {
      var idx := a[if rev then a.Length - 1 - i else i];
      assert idx == s[i];
      NotYetGrouped(fr, deps, s, i);
      entries := InsertNext(graph, rev, entries, idx, groups);
      groups := Bubble(fr, deps, groups, [idx], []);
    }
    assert s[..a.Length] == s;
  }

  // ----- Writing the list back -----

  /** The n-th transaction written goes to the n-th position from the start, or from the end. */
  function Position(rev: bool, length: nat, n: nat): nat
    requires n < length
  {
    if rev then n else length - 1 - n
  }

  /** The last n elements of f are in place. */
  ghost predicate WrittenAt(rev: bool, a: seq<nat>, f: seq<nat>, n: nat)
    requires |a| == |f| && n < |f|
  {
    a[Position(rev, |a|, n)] == f[|f| - 1 - n]
  }

  ghost predicate Written(rev: bool, a: seq<nat>, f: seq<nat>, n: nat)
    requires |a| == |f| && n <= |f|
  {
    forall m {:trigger WrittenAt(rev, a, f, m)} :: 0 <= m < n ==> WrittenAt(rev, a, f, m)
  }

  lemma WriteOne(rev: bool, a: seq<nat>, f: seq<nat>, n: nat, a': seq<nat>)
    requires |a| == |f| && n < |f| && Written(rev, a, f, n)
    requires a' == a[Position(rev, |a|, n) := f[|f| - 1 - n]]
    ensures Written(rev, a', f, n + 1)
  {
    forall m | 0 <= m < n + 1 ensures WrittenAt(rev, a', f, m) {
      if m < n { assert WrittenAt(rev, a, f, m); }
    }
  }

  lemma AllWritten(rev: bool, a: seq<nat>, f: seq<nat>)
    requires |a| == |f| && Written(rev, a, f, |f|)
    ensures a == Turned(rev, f)
  {
    forall i | 0 <= i < |a| ensures a[i] == Turned(rev, f)[i] {
      assert WrittenAt(rev, a, f, if rev then i else |f| - 1 - i);
    }
  }

  /** The elements of g are in f from off on. */
  ghost predicate SitsAt(f: seq<nat>, off: int, g: seq<nat>) {
    0 <= off && off + |g| <= |f| && forall k :: 0 <= k < |g| ==> f[off + k] == g[k]
  }

  /** Where the elements of group j are in the flattened list. */
  lemma GroupPlace(groups: seq<seq<nat>>, j: nat)
    requires j < |groups|
    ensures var off := |Flatten(groups[..j])|;
      |Flatten(groups[..j + 1])| == off + |groups[j]| <= |Flatten(groups)| && SitsAt(Flatten(groups), off, groups[j])
  {
    assert groups[..j + 1] == groups[..j] + [groups[j]] && groups == groups[..j + 1] + groups[j + 1..];
    FlattenConcat(groups[..j], [groups[j]]);
    FlattenConcat(groups[..j + 1], groups[j + 1..]);
    assert Flatten([groups[j]]) == groups[j];
  }

  /** Write one group, from its last transaction to its first. */
  method WriteGroup(a: array<nat>, rev: bool, entries: seq<TxEntry>, cur: nat, done0: nat, ghost fr: seq<FeeFrac>,
                    ghost deps: seq<set<nat>>, ghost g: seq<nat>, ghost f: seq<nat>, ghost off: nat) returns (done: nat)
    requires GroupRep(fr, deps, entries, g) && cur == Tail(g) + 1
    requires a.Length == |f| && done0 <= |f| && Written(rev, a[..], f, done0)
    requires SitsAt(f, off, g) && off == |f| - done0 - |g|
    modifies a
    ensures done == done0 + |g| && Written(rev, a[..], f, done)
  {
    done := done0;
    var curTx := cur;
    ghost var k := |g|;
    while curTx != NO_PREV_TX
      invariant 0 <= k <= |g| && done == done0 + |g| - k && Written(rev, a[..], f, done)
      invariant curTx == if k == 0 then NO_PREV_TX else g[k - 1] + 1
      decreases k
    {
      assert PrevOk(entries, g, k - 1) && f[off + (k - 1)] == g[k - 1];
      WriteOne(rev, a[..], f, done, a[..][Position(rev, a.Length, done) := curTx - 1]);
      a[Position(rev, a.Length, done)] := curTx - 1;
      done := done + 1;
      curTx := entries[curTx].prevTx;
      k := k - 1;
    }
  }

  /** What is known of the list at group j - 1, coming from the end. */
  lemma ListAt(fr: seq<FeeFrac>, deps: seq<set<nat>>, entries: seq<TxEntry>, groups: seq<seq<nat>>, j: nat)
    requires ListRep(fr, deps, entries, groups) && 0 < j <= |groups|
    ensures var g, cur := groups[j - 1], Prev(Tails(groups), j);
      && GroupRep(fr, deps, entries, g) && cur == Tail(g) + 1 < |entries| && cur != SENTINEL
      && entries[cur].prevGroup == Prev(Tails(groups), j - 1)
  {
    assert LinkOk(entries, Tails(groups), j - 1) && GroupRep(fr, deps, entries, groups[j - 1]);
  }

  /** Write the group that cur is the last transaction of, and go to the group before it. */
  method WriteNext(a: array<nat>, rev: bool, entries: seq<TxEntry>, cur: nat, done0: nat, ghost fr: seq<FeeFrac>,
                   ghost deps: seq<set<nat>>, ghost groups: seq<seq<nat>>, ghost j: nat) returns (next: nat, done: nat)
    requires ListRep(fr, deps, entries, groups) && a.Length == |Flatten(groups)| && 0 < j <= |groups|
             && cur == Prev(Tails(groups), j)
    requires done0 + |Flatten(groups[..j])| == a.Length && Written(rev, a[..], Flatten(groups), done0)
    modifies a
    ensures next == Prev(Tails(groups), j - 1) && (j > 1 ==> next != SENTINEL)
    ensures done + |Flatten(groups[..j - 1])| == a.Length && Written(rev, a[..], Flatten(groups), done)
  {
    GroupPlace(groups, j - 1);
    ListAt(fr, deps, entries, groups, j);
    done := WriteGroup(a, rev, entries, cur, done0, fr, deps, groups[j - 1], Flatten(groups),
                       |Flatten(groups[..j - 1])|);
    next := entries[cur].prevGroup;
    if j > 1 { ListAt(fr, deps, entries, groups, j - 1); }
  }

  /** Write the list of groups back: from the end, or in a backward pass reversed, from the start. */
  method WriteBack(a: array<nat>, rev: bool, entries: seq<TxEntry>, ghost fr: seq<FeeFrac>, ghost deps: seq<set<nat>>,
                   ghost groups: seq<seq<nat>>)
    requires ListRep(fr, deps, entries, groups) && a.Length == |Flatten(groups)|
    modifies a
    ensures a[..] == Turned(rev, Flatten(groups))
  {
    var cur, done: nat := entries[SENTINEL].prevGroup, 0;
    ghost var j := |groups|;
    assert groups[..j] == groups;
    if j > 0 { ListAt(fr, deps, entries, groups, j); }
    while cur != SENTINEL
      invariant 0 <= j <= |groups| && cur == Prev(Tails(groups), j) && (j > 0 ==> cur != SENTINEL)
      invariant done + |Flatten(groups[..j])| == a.Length && Written(rev, a[..], Flatten(groups), done)
      decreases j
    {
      cur, done := WriteNext(a, rev, entries, cur, done, fr, deps, groups, j);
      j := j - 1;
    }
    AllWritten(rev, a[..], Flatten(groups));
  }

  // ----- The two passes -----

  method RunPass(graph: DepGraph, a: array<nat>, rev: bool, entries0: seq<TxEntry>) returns (entries: seq<TxEntry>)
    requires Sound(graph.Value()) && TopologicalOrder(graph.Value(), a[..])
    requires |entries0| == |graph.entries| + 1 && entries0[SENTINEL].feerate == EMPTY
    modifies a
    ensures |entries| == |entries0| && entries[SENTINEL].feerate == EMPTY
    ensures old(Ready(Fees(graph.Value(), rev), Relation(graph.Value(), rev), Turned(rev, a[..])))
    ensures a[..] == old(PassOutput(graph.Value(), rev, a[..]))
  {
    ghost var g, s := graph.Value(), Turned(rev, a[..]);
    PassTopological(g, rev, a[..]);
    entries := BuildGroups(graph, a, rev, entries0);
    WriteBack(a, rev, entries, Fees(g, rev), Relation(g, rev), PassGroups(Fees(g, rev), Relation(g, rev), s));
  }

  /** The linearization after the first n passes. */
  ghost function AfterPasses(g: Graph, l: seq<nat>, n: nat): (out: seq<nat>)
    requires Sound(g) && TopologicalOrder(g, l) && n <= 2
    ensures TopologicalOrder(g, out)
  {
    PassTopological(g, true, l);
    if n == 0 then l else if n == 1 then PassOutput(g, true, l) else PostOrder(g, l)
  }

  lemma AfterNextPass(g: Graph, l: seq<nat>, n: nat)
    requires Sound(g) && TopologicalOrder(g, l) && n < 2
    ensures var mid := AfterPasses(g, l, n);
      && Ready(Fees(g, n == 0), Relation(g, n == 0), Turned(n == 0, mid))
      && AfterPasses(g, l, n + 1) == PassOutput(g, n == 0, mid)
  {
    PassTopological(g, n == 0, AfterPasses(g, l, n));
  }

  /** Even passes go from back to front. */
  predicate Backward(pass: nat): (rev: bool)
    requires pass < 2
    ensures rev == (pass == 0)
  {
    pass % 2 == 0
  }

  method RunPasses(graph: DepGraph, a: array<nat>)
    requires Sound(graph.Value()) && TopologicalOrder(graph.Value(), a[..])
    modifies a
    ensures a[..] == old(PostOrder(graph.Value(), a[..]))
  {
    ghost var g, l := graph.Value(), a[..];
    var entries := seq(|graph.entries| + 1, _ => TxEntry(NO_PREV_TX, 0, 0, {}, {}, EMPTY));
    for pass := 0 to 2
      invariant |entries| == |graph.entries| + 1 && entries[SENTINEL].feerate == EMPTY
      invariant a[..] == AfterPasses(g, l, pass)
    {
      AfterNextPass(g, l, pass);
      entries := RunPass(graph, a, Backward(pass), entries);
    }
  }

  /** Improve a linearization in place, by a backward and a forward pass. */
  method PostLinearize(graph: DepGraph, a: array<nat>)
    requires Sound(graph.Value()) && TopologicalOrder(graph.Value(), a[..])
    modifies a
    ensures a[..] == old(PostOrder(graph.Value(), a[..]))
    ensures TopologicalOrder(graph.Value(), a[..])
    ensures AtLeastAsGood(DiagramOf(graph.Value(), a[..]), old(DiagramOf(graph.Value(), a[..])))
    ensures forall c :: c in ChunksOf(graph.Value(), a[..]) ==> Linked(Relation(graph.Value(), false), Elems(c))
    ensures OneChild(graph.Value()) || OneParent(graph.Value()) ==> OptimalOrder(graph.Value(), a[..])
  {
    ghost var g, l := graph.Value(), a[..];
    RunPasses(graph, a);
    PostNotWorse(g, l);
    forall c | c in ChunksOf(g, a[..]) ensures Linked(Relation(g, false), Elems(c)) { PostConnected(g, l, c); }
    if OneChild(g) || OneParent(g) { PostTreeOptimal(g, l); }
  }
}
