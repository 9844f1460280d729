/** The linked lists of PostLinearize, src/cluster_linearize.h:1421-1550: groups are singly linked lists
    of transactions, organised in a singly linked circular list that starts at a sentinel. */
module GroupLists {
  import opened Basics
  import opened FeeFracs
  import opened Chunking
  import opened Orders
  import opened Passes
  import opened TreePasses

  /** Entry 0 is the sentinel; transaction x has entry x + 1. The fields after prevTx mean something
      only for the last transaction of a group. */
  datatype TxEntry = TxEntry(prevTx: nat, firstTx: nat, prevGroup: nat, group: set<nat>, deps: set<nat>,
                             feerate: FeeFrac)

  const SENTINEL: nat := 0
  const NO_PREV_TX: nat := 0

  /** The entries of the transactions of g represent g. */
  ghost predicate GroupRep(fr: seq<FeeFrac>, deps: seq<set<nat>>, entries: seq<TxEntry>, g: seq<nat>) {
    && g != [] && Ready(fr, deps, g) && (forall i :: 0 <= i < |g| ==> g[i] + 1 < |entries|)
    && var tail := entries[Tail(g) + 1];
    && tail.firstTx == g[0] + 1 && tail.group == Elems(g) && tail.deps == DepsOf(deps, g)
    && tail.feerate == FeeSum(fr, g)
    && (forall i {:trigger PrevOk(entries, g, i)} :: 0 <= i < |g| ==> PrevOk(entries, g, i))
  }

  /** Entry by entry, prevTx leads from the last transaction of g to the first. */
  ghost predicate PrevOk(entries: seq<TxEntry>, g: seq<nat>, i: nat)
    requires i < |g|
  {
    g[i] + 1 < |entries| && entries[g[i] + 1].prevTx == if i == 0 then NO_PREV_TX else g[i - 1] + 1
  }

  ghost predicate GroupsRep(fr: seq<FeeFrac>, deps: seq<set<nat>>, entries: seq<TxEntry>, groups: seq<seq<nat>>) {
    forall j {:trigger GroupRep(fr, deps, entries, groups[j])} ::
      0 <= j < |groups| ==> GroupRep(fr, deps, entries, groups[j])
  }

  ghost predicate NonEmpty(groups: seq<seq<nat>>) {
    forall j :: 0 <= j < |groups| ==> groups[j] != []
  }

  ghost function Prev(tails: seq<nat>, j: nat): nat
    requires j <= |tails|
  {
    if j == 0 then SENTINEL else tails[j - 1]
  }

  /** Following prevGroup from the sentinel visits the tails from the last to the first. */
  ghost predicate Links(entries: seq<TxEntry>, tails: seq<nat>) {
    && |entries| > 0 && entries[SENTINEL].prevGroup == Prev(tails, |tails|) && entries[SENTINEL].feerate == EMPTY
    && (forall j {:trigger LinkOk(entries, tails, j)} :: 0 <= j < |tails| ==> LinkOk(entries, tails, j))
    && (forall i, j :: 0 <= i < j < |tails| ==> tails[i] != tails[j])
  }

  ghost predicate LinkOk(entries: seq<TxEntry>, tails: seq<nat>, j: nat)
    requires j < |tails|
  {
    0 < tails[j] < |entries| && entries[tails[j]].prevGroup == Prev(tails, j)
  }

  ghost function Tails(groups: seq<seq<nat>>): (t: seq<nat>)
    requires NonEmpty(groups)
    ensures |t| == |groups| && forall j :: 0 <= j < |t| ==> t[j] == Tail(groups[j]) + 1
  {
    seq(|groups|, j requires 0 <= j < |groups| => Tail(groups[j]) + 1)
  }

  /** The entries represent the list of groups. */
  ghost predicate ListRep(fr: seq<FeeFrac>, deps: seq<set<nat>>, entries: seq<TxEntry>, groups: seq<seq<nat>>) {
    NonEmpty(groups) && GroupsRep(fr, deps, entries, groups) && Links(entries, Tails(groups)) && Apart(groups)
  }

  /** No transaction is in two groups, or twice in one. */
  ghost predicate Apart(groups: seq<seq<nat>>) {
    && (forall i, j :: 0 <= i < j < |groups| ==> Elems(groups[i]) !! Elems(groups[j]))
    && (forall i :: 0 <= i < |groups| ==> Distinct(groups[i]))
  }

  /** Two entries that differ at most in prevGroup. */
  ghost predicate SameButLink(e: TxEntry, f: TxEntry) {
    e.(prevGroup := f.prevGroup) == f
  }

  lemma GroupRepFrame(fr: seq<FeeFrac>, deps: seq<set<nat>>, entries: seq<TxEntry>, entries': seq<TxEntry>, g: seq<nat>)
    requires GroupRep(fr, deps, entries, g) && |entries'| == |entries|
    requires forall x :: x in g ==> x + 1 < |entries| && SameButLink(entries[x + 1], entries'[x + 1])
    ensures GroupRep(fr, deps, entries', g)
  {
    assert Tail(g) in g;
    forall i | 0 <= i < |g| ensures PrevOk(entries', g, i) { assert PrevOk(entries, g, i) && g[i] in g; }
  }

  // ----- Links under the two moves -----

  /** Taking the tail at n out of the list, by letting the next one point past it. */
  lemma LinksMerge(entries: seq<TxEntry>, tails: seq<nat>, n: nat, entries': seq<TxEntry>, tails': seq<nat>)
    requires Links(entries, tails) && n + 1 < |tails| && |entries'| == |entries| && tails[n + 1] < |entries|
    requires forall x :: 0 <= x < |entries| && x != tails[n + 1] ==> entries'[x].prevGroup == entries[x].prevGroup
    requires entries'[SENTINEL].feerate == EMPTY
    requires entries'[tails[n + 1]].prevGroup == Prev(tails, n)
    requires tails' == tails[..n] + tails[n + 1..]
    ensures Links(entries', tails')
  {
    assert LinkOk(entries, tails, n + 1);
    forall j | 0 <= j < |tails'| ensures LinkOk(entries', tails', j) {
      assert LinkOk(entries, tails, if j < n then j else j + 1);
    }
  }

  /** Swapping the tails at n and n + 1. */
  lemma LinksSwap(entries: seq<TxEntry>, tails: seq<nat>, n: nat, entries': seq<TxEntry>, tails': seq<nat>)
    requires Links(entries, tails) && n + 1 < |tails| && |entries'| == |entries|
    requires forall j :: 0 <= j < |tails| ==> tails[j] < |entries|
    requires var next := if n + 2 == |tails| then SENTINEL else tails[n + 2];
      && entries'[next].prevGroup == tails[n] && entries'[tails[n]].prevGroup == tails[n + 1]
      && entries'[tails[n + 1]].prevGroup == Prev(tails, n)
      && forall x :: 0 <= x < |entries| && x != tails[n] && x != tails[n + 1] && x != next ==>
           entries'[x].prevGroup == entries[x].prevGroup
    requires entries'[SENTINEL].feerate == EMPTY
    requires tails' == tails[n := tails[n + 1]][n + 1 := tails[n]]
    ensures Links(entries', tails')
  {
    assert LinkOk(entries, tails, n) && LinkOk(entries, tails, n + 1);
    if n + 2 < |tails| { assert LinkOk(entries, tails, n + 2); }
    forall j | 0 <= j < |tails'| ensures LinkOk(entries', tails', j) {
      assert LinkOk(entries, tails, j);
    }
  }

  /** A new tail at the end of the list. */
  lemma LinksAppend(entries: seq<TxEntry>, tails: seq<nat>, cur: nat, entries': seq<TxEntry>)
    requires Links(entries, tails) && 0 < cur < |entries| && cur !in tails && |entries'| == |entries|
    requires entries'[cur].prevGroup == Prev(tails, |tails|) && entries'[SENTINEL].prevGroup == cur
             && entries'[SENTINEL].feerate == EMPTY
    requires forall x :: 0 < x < |entries| && x != cur ==> entries'[x].prevGroup == entries[x].prevGroup
    ensures Links(entries', tails + [cur])
  {
    var tails' := tails + [cur];
    forall j | 0 <= j < |tails'| ensures LinkOk(entries', tails', j) {
      if j < |tails| { assert LinkOk(entries, tails, j) && tails[j] in tails; }
    }
  }

  // ----- The list of groups under the two moves -----

  /** The entries after p has been merged into c: the tail of c stands for the whole group. */
  function MergedEntries(entries: seq<TxEntry>, cur: nat, prev: nat): (r: seq<TxEntry>)
    requires cur < |entries| && prev < |entries| && entries[cur].firstTx < |entries|
  {
    var e1 := entries[cur := entries[cur].(group := entries[cur].group + entries[prev].group,
                                           deps := entries[cur].deps + entries[prev].deps,
                                           feerate := Plus(entries[cur].feerate, entries[prev].feerate))];
    var first := e1[cur].firstTx;
    var e2 := e1[first := e1[first].(prevTx := prev)];
    e2[cur := e2[cur].(firstTx := e2[prev].firstTx, prevGroup := e2[prev].prevGroup)]
  }

  lemma MergedGroup(fr: seq<FeeFrac>, deps: seq<set<nat>>, entries: seq<TxEntry>, p: seq<nat>, c: seq<nat>)
    requires GroupRep(fr, deps, entries, p) && GroupRep(fr, deps, entries, c) && Elems(p) !! Elems(c) && Distinct(c)
    ensures GroupRep(fr, deps, MergedEntries(entries, Tail(c) + 1, Tail(p) + 1), p + c)
  {
    var g, e := p + c, MergedEntries(entries, Tail(c) + 1, Tail(p) + 1);
    InRangeConcat(fr, p, c);
    FeeSumConcat(fr, p, c);
    DepsOfConcat(deps, p, c);
    assert Elems(g) == Elems(p) + Elems(c);
    assert Plus(FeeSum(fr, c), FeeSum(fr, p)) == Plus(FeeSum(fr, p), FeeSum(fr, c));
    assert Tail(p) in Elems(p) && c[0] in Elems(c) && Tail(c) in Elems(c);
    forall i | 0 <= i < |g| ensures PrevOk(e, g, i) { MergedPrev(fr, deps, entries, p, c, i); }
  }

  lemma MergedPrev(fr: seq<FeeFrac>, deps: seq<set<nat>>, entries: seq<TxEntry>, p: seq<nat>, c: seq<nat>, i: nat)
    requires GroupRep(fr, deps, entries, p) && GroupRep(fr, deps, entries, c) && Elems(p) !! Elems(c) && Distinct(c)
             && i < |p + c|
    ensures PrevOk(MergedEntries(entries, Tail(c) + 1, Tail(p) + 1), p + c, i)
  {
    assert Tail(p) in Elems(p) && c[0] in Elems(c) && Tail(c) in Elems(c);
    if i < |p| {
      assert PrevOk(entries, p, i) && p[i] in Elems(p);
    } else {
      var k := i - |p|;
      assert PrevOk(entries, c, k);
      assert k > 0 ==> c[k] != c[0];
    }
  }

  /** What merging does to any entry: only those of the first and the last of c change. */
  lemma MergedElsewhere(entries: seq<TxEntry>, cur: nat, prev: nat, x: nat)
    requires cur < |entries| && prev < |entries| && entries[cur].firstTx < |entries| && x < |entries|
    ensures |MergedEntries(entries, cur, prev)| == |entries|
    ensures x != cur && x != entries[cur].firstTx ==> MergedEntries(entries, cur, prev)[x] == entries[x]
    ensures x != cur ==> MergedEntries(entries, cur, prev)[x].prevGroup == entries[x].prevGroup
    ensures x != cur ==> MergedEntries(entries, cur, prev)[x].feerate == entries[x].feerate
    ensures prev != cur ==> MergedEntries(entries, cur, prev)[cur].prevGroup == entries[prev].prevGroup
  {
  }

  /** A group apart from p and c keeps its representation. */
  lemma MergedOther(fr: seq<FeeFrac>, deps: seq<set<nat>>, entries: seq<TxEntry>, p: seq<nat>, c: seq<nat>, g: seq<nat>)
    requires GroupRep(fr, deps, entries, p) && GroupRep(fr, deps, entries, c) && GroupRep(fr, deps, entries, g)
    requires Elems(g) !! Elems(c)
    ensures GroupRep(fr, deps, MergedEntries(entries, Tail(c) + 1, Tail(p) + 1), g)
  {
    assert c[0] in Elems(c) && Tail(c) in Elems(c);
    forall x | x in g
      ensures x + 1 < |entries|
      ensures SameButLink(entries[x + 1], MergedEntries(entries, Tail(c) + 1, Tail(p) + 1)[x + 1])
    {
      assert x in Elems(g);
      MergedElsewhere(entries, Tail(c) + 1, Tail(p) + 1, x + 1);
    }
    MergedElsewhere(entries, Tail(c) + 1, Tail(p) + 1, 0);
    GroupRepFrame(fr, deps, entries, MergedEntries(entries, Tail(c) + 1, Tail(p) + 1), g);
  }

  /** The groups after c, at position n + 1, has taken in the group at position n. */
  ghost function MergeAt(groups: seq<seq<nat>>, n: nat): seq<seq<nat>>
    requires n + 1 < |groups|
  {
    groups[..n] + [groups[n] + groups[n + 1]] + groups[n + 2..]
  }

  lemma MergeAtIndex(groups: seq<seq<nat>>, n: nat, j: nat)
    requires n + 1 < |groups| && j < |MergeAt(groups, n)|
    ensures |MergeAt(groups, n)| == |groups| - 1
    ensures MergeAt(groups, n)[j] == if j < n then groups[j] else if j == n then groups[n] + groups[n + 1]
            else groups[j + 1]
  {
  }

  lemma MergeApart(groups: seq<seq<nat>>, n: nat)
    requires Apart(groups) && n + 1 < |groups|
    ensures Apart(MergeAt(groups, n))
  {
    var now, g := MergeAt(groups, n), groups[n] + groups[n + 1];
    assert Elems(g) == Elems(groups[n]) + Elems(groups[n + 1]);
    forall i, j | 0 <= i < j < |now| ensures Elems(now[i]) !! Elems(now[j]) {
      MergeAtIndex(groups, n, i);
      MergeAtIndex(groups, n, j);
    }
    forall i | 0 <= i < |now| ensures Distinct(now[i]) {
      MergeAtIndex(groups, n, i);
      if i == n { DistinctConcat(groups[n], groups[n + 1]); }
    }
  }

  lemma ApartPair(groups: seq<seq<nat>>, i: nat, j: nat)
    requires Apart(groups) && i < |groups| && j < |groups| && i != j
    ensures Elems(groups[i]) !! Elems(groups[j]) && Distinct(groups[j])
  {
    if j < i { assert Elems(groups[j]) !! Elems(groups[i]); }
  }

  lemma MergedRepOther(fr: seq<FeeFrac>, deps: seq<set<nat>>, entries: seq<TxEntry>, groups: seq<seq<nat>>, n: nat,
                       i: nat)
    requires GroupsRep(fr, deps, entries, groups) && Apart(groups) && n + 1 < |groups| && i < |groups| && i != n + 1
    requires GroupRep(fr, deps, entries, groups[n]) && GroupRep(fr, deps, entries, groups[n + 1])
    ensures GroupRep(fr, deps, MergedEntries(entries, Tail(groups[n + 1]) + 1, Tail(groups[n]) + 1), groups[i])
  {
    ApartPair(groups, i, n + 1);
    assert GroupRep(fr, deps, entries, groups[i]);
    MergedOther(fr, deps, entries, groups[n], groups[n + 1], groups[i]);
  }

  lemma MergeGroupsRep(fr: seq<FeeFrac>, deps: seq<set<nat>>, entries: seq<TxEntry>, groups: seq<seq<nat>>, n: nat)
    requires GroupsRep(fr, deps, entries, groups) && Apart(groups) && n + 1 < |groups|
    requires GroupRep(fr, deps, entries, groups[n]) && GroupRep(fr, deps, entries, groups[n + 1])
    ensures GroupsRep(fr, deps, MergedEntries(entries, Tail(groups[n + 1]) + 1, Tail(groups[n]) + 1),
                      MergeAt(groups, n))
  {
    var now, e := MergeAt(groups, n), MergedEntries(entries, Tail(groups[n + 1]) + 1, Tail(groups[n]) + 1);
    assert GroupRep(fr, deps, e, groups[n] + groups[n + 1]) by {
      ApartPair(groups, n, n + 1);
      MergedGroup(fr, deps, entries, groups[n], groups[n + 1]);
    }
    forall i: nat | i < |groups| && i != n + 1 ensures GroupRep(fr, deps, e, groups[i]) {
      MergedRepOther(fr, deps, entries, groups, n, i);
    }
    forall j | 0 <= j < |now| ensures GroupRep(fr, deps, e, now[j]) { MergeAtIndex(groups, n, j); }
  }

  lemma MergeTails(groups: seq<seq<nat>>, n: nat)
    requires n + 1 < |groups| && NonEmpty(groups)
    ensures NonEmpty(MergeAt(groups, n))
    ensures Tails(MergeAt(groups, n)) == Tails(groups)[..n] + Tails(groups)[n + 1..]
  {
    var now, tails := MergeAt(groups, n), Tails(groups);
    forall j | 0 <= j < |now| ensures now[j] != [] && Tail(now[j]) + 1 == (tails[..n] + tails[n + 1..])[j] {
      MergeAtIndex(groups, n, j);
    }
  }

  lemma ListMerge(fr: seq<FeeFrac>, deps: seq<set<nat>>, entries: seq<TxEntry>, groups: seq<seq<nat>>, n: nat)
    requires ListRep(fr, deps, entries, groups) && n + 1 < |groups|
    requires GroupRep(fr, deps, entries, groups[n]) && GroupRep(fr, deps, entries, groups[n + 1])
    ensures ListRep(fr, deps, MergedEntries(entries, Tail(groups[n + 1]) + 1, Tail(groups[n]) + 1), MergeAt(groups, n))
  {
    MergeGroupsRep(fr, deps, entries, groups, n);
    MergeApart(groups, n);
    MergeTails(groups, n);
    MergeLinks(entries, groups, n);
  }

  lemma MergeLinks(entries: seq<TxEntry>, groups: seq<seq<nat>>, n: nat)
    requires n + 1 < |groups| && NonEmpty(groups) && Links(entries, Tails(groups))
    requires Tail(groups[n + 1]) + 1 < |entries| && Tail(groups[n]) + 1 < |entries|
             && entries[Tail(groups[n + 1]) + 1].firstTx < |entries|
    ensures Links(MergedEntries(entries, Tail(groups[n + 1]) + 1, Tail(groups[n]) + 1),
                  Tails(groups)[..n] + Tails(groups)[n + 1..])
  {
    var tails := Tails(groups);
    var cur, prev := tails[n + 1], tails[n];
    var e := MergedEntries(entries, cur, prev);
    assert LinkOk(entries, tails, n) && LinkOk(entries, tails, n + 1);
    forall x | 0 <= x < |entries| && x != cur
      ensures e[x].prevGroup == entries[x].prevGroup && e[x].feerate == entries[x].feerate {
      MergedElsewhere(entries, cur, prev, x);
    }
    MergedElsewhere(entries, cur, prev, cur);
    LinksMerge(entries, tails, n, e, tails[..n] + tails[n + 1..]);
  }

  /** The entries after the groups prev and cur, before next, have been swapped. */
  function SwappedEntries(entries: seq<TxEntry>, next: nat, cur: nat, prev: nat): (r: seq<TxEntry>)
    requires next < |entries| && cur < |entries| && prev < |entries|
    ensures |r| == |entries|
  {
    var preprev := entries[prev].prevGroup;
    var e1 := entries[next := entries[next].(prevGroup := prev)];
    var e2 := e1[prev := e1[prev].(prevGroup := cur)];
    e2[cur := e2[cur].(prevGroup := preprev)]
  }

  ghost function SwapAt(groups: seq<seq<nat>>, n: nat): seq<seq<nat>>
    requires n + 1 < |groups|
  {
    groups[n := groups[n + 1]][n + 1 := groups[n]]
  }

  ghost function NextTail(groups: seq<seq<nat>>, j: nat): nat
    requires NonEmpty(groups)
  {
    if j >= |groups| then SENTINEL else Tail(groups[j]) + 1
  }

  lemma SwapGroupsRep(fr: seq<FeeFrac>, deps: seq<set<nat>>, entries: seq<TxEntry>, groups: seq<seq<nat>>, n: nat,
                      e: seq<TxEntry>)
    requires GroupsRep(fr, deps, entries, groups) && n + 1 < |groups| && |e| == |entries|
    requires forall x :: 0 <= x < |e| ==> SameButLink(entries[x], e[x])
    ensures GroupsRep(fr, deps, e, SwapAt(groups, n))
  {
    var now := SwapAt(groups, n);
    forall j | 0 <= j < |now| ensures GroupRep(fr, deps, e, now[j]) {
      var i := if j == n then n + 1 else if j == n + 1 then n else j;
      assert now[j] == groups[i] && GroupRep(fr, deps, entries, groups[i]);
      forall x | x in now[j] ensures x + 1 < |entries| && SameButLink(entries[x + 1], e[x + 1]) {}
      GroupRepFrame(fr, deps, entries, e, now[j]);
    }
  }

  lemma SwapLinks(entries: seq<TxEntry>, groups: seq<seq<nat>>, n: nat)
    requires n + 1 < |groups| && NonEmpty(groups) && Links(entries, Tails(groups))
    requires NextTail(groups, n + 2) < |entries| && NextTail(groups, n + 1) < |entries|
             && NextTail(groups, n) < |entries|
    ensures NonEmpty(SwapAt(groups, n))
    ensures Links(SwappedEntries(entries, NextTail(groups, n + 2), NextTail(groups, n + 1), NextTail(groups, n)),
                  Tails(SwapAt(groups, n)))
  {
    var tails: seq<nat> := Tails(groups);
    var now := SwapAt(groups, n);
    var e := SwappedEntries(entries, NextTail(groups, n + 2), tails[n + 1], tails[n]);
    forall j | 0 <= j < |tails| ensures tails[j] < |entries| { assert LinkOk(entries, tails, j); }
    assert LinkOk(entries, tails, n) && LinkOk(entries, tails, n + 1);
    if n + 2 < |groups| { assert LinkOk(entries, tails, n + 2); }
    assert Tails(now) == tails[n := tails[n + 1]][n + 1 := tails[n]];
    LinksSwap(entries, tails, n, e, Tails(now));
  }

  lemma ListSwap(fr: seq<FeeFrac>, deps: seq<set<nat>>, entries: seq<TxEntry>, groups: seq<seq<nat>>, n: nat)
    requires ListRep(fr, deps, entries, groups) && n + 1 < |groups|
    requires NextTail(groups, n + 2) < |entries| && NextTail(groups, n + 1) < |entries|
             && NextTail(groups, n) < |entries|
    ensures ListRep(fr, deps, SwappedEntries(entries, NextTail(groups, n + 2), NextTail(groups, n + 1),
                                             NextTail(groups, n)), SwapAt(groups, n))
  {
    var e := SwappedEntries(entries, NextTail(groups, n + 2), NextTail(groups, n + 1), NextTail(groups, n));
    SwapGroupsRep(fr, deps, entries, groups, n, e);
    SwapLinks(entries, groups, n);
    SwapApart(groups, n);
  }

  lemma SwapApart(groups: seq<seq<nat>>, n: nat)
    requires Apart(groups) && n + 1 < |groups|
    ensures Apart(SwapAt(groups, n))
  {
    var now := SwapAt(groups, n);
    forall i, j | 0 <= i < j < |now| ensures Elems(now[i]) !! Elems(now[j]) {
      var i' := if i == n then n + 1 else if i == n + 1 then n else i;
      var j' := if j == n then n + 1 else if j == n + 1 then n else j;
      assert now[i] == groups[i'] && now[j] == groups[j'];
    }
  }
}
