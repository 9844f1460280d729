/** The block index with its skip list, src/chain.h:90-440 and src/chain.cpp:16-178: the fast queries find what
    walking from parent to parent finds. */
module BlockTrees {
  import opened Basics
  import opened Digits

  /** A block, by its place in the tree: pprev, pskip and nHeight. */
  datatype Block = Block(prev: Option<nat>, skip: Option<nat>, height: nat)

  type Tree = seq<Block>

  // ----- Walking from parent to parent -----

  /** Every block but the first has an earlier block as parent, and is one higher. */
  ghost predicate Rooted(t: Tree) {
    && |t| > 0 && t[0].prev == None && t[0].height == 0
    && forall i {:trigger HasParent(t, i)} :: 0 < i < |t| ==> HasParent(t, i)
  }

  ghost predicate HasParent(t: Tree, i: nat)
    requires i < |t|
  {
    t[i].prev.Some? && t[i].prev.value < i && t[i].height == t[t[i].prev.value].height + 1
  }

  /** The ancestor of block i at height h. */
  ghost function Walk(t: Tree, i: nat, h: nat): (a: nat)
    requires Rooted(t) && i < |t| && h <= t[i].height
    ensures a <= i && t[a].height == h
    decreases i
  {
    if t[i].height == h then i
    else
      assert HasParent(t, i);
      Walk(t, t[i].prev.value, h)
  }

  lemma {:induction false} WalkWalk(t: Tree, i: nat, a: nat, h: nat)
    requires Rooted(t) && i < |t| && h <= a <= t[i].height
    ensures Walk(t, Walk(t, i, a), h) == Walk(t, i, h)
    decreases i
  {
    if a < t[i].height {
      assert HasParent(t, i);
      WalkWalk(t, t[i].prev.value, a, h);
    }
  }

  lemma RootBelow(t: Tree, i: nat)
    requires Rooted(t) && i < |t| && t[i].height == 0
    ensures i == 0
  {
    assert i > 0 ==> HasParent(t, i);
  }

  // ----- Where to skip to -----

  /** The bits that both numbers have. */
  function And(a: nat, b: nat): nat
    decreases a
  {
    if a == 0 || b == 0 then 0 else 2 * And(a / 2, b / 2) + (if a % 2 == 1 && b % 2 == 1 then 1 else 0)
  }

  /** Turn the lowest 1 bit into a 0. */
  function InvertLowestOne(n: nat): (r: nat)
    ensures n > 0 ==> r < n
  {
    if n == 0 then 0 else if n % 2 == 1 then n - 1 else 2 * InvertLowestOne(n / 2)
  }

  lemma {:induction false} AndSelf(n: nat)
    ensures And(n, n) == n
  {
    if n > 0 { AndSelf(n / 2); }
  }

  /** That is n & (n - 1). */
  lemma {:induction false} InvertLowestOneIs(n: nat)
    requires n > 0
    ensures InvertLowestOne(n) == And(n, n - 1)
  {
    if n % 2 == 1 {
      assert (n - 1) / 2 == n / 2;
      AndSelf(n / 2);
    } else {
      assert (n - 1) / 2 == n / 2 - 1;
      InvertLowestOneIs(n / 2);
    }
  }

  function SkipHeight(h: nat): (s: nat)
    ensures h > 0 ==> s < h
  {
    if h < 2 then 0
    else if h % 2 == 1 then InvertLowestOne(InvertLowestOne(h - 1)) + 1
    else InvertLowestOne(h)
  }

  /** If a block has a skip pointer, it leads to its ancestor at the skip height. */
  ghost predicate SkipOk(t: Tree, i: nat)
    requires Rooted(t) && i < |t|
  {
    t[i].skip.Some? ==> t[i].height > 0 && t[i].skip.value == Walk(t, i, SkipHeight(t[i].height))
  }

  ghost predicate TreeOk(t: Tree) {
    Rooted(t) && forall i {:trigger SkipOk(t, i)} :: 0 <= i < |t| ==> SkipOk(t, i)
  }

  /** BuildSkip has been called for every block. */
  ghost predicate Built(t: Tree) {
    forall i :: 0 < i < |t| ==> t[i].skip.Some?
  }

  // ----- Adding blocks keeps everything -----

  lemma {:induction false} WalkExtended(t: Tree, t': Tree, i: nat, h: nat)
    requires Rooted(t) && Rooted(t') && |t| <= |t'| && i < |t| && h <= t[i].height
    requires forall k :: 0 <= k < |t| ==> t'[k].prev == t[k].prev && t'[k].height == t[k].height
    ensures Walk(t', i, h) == Walk(t, i, h)
    decreases i
  {
    if h < t[i].height {
      assert HasParent(t, i);
      WalkExtended(t, t', t[i].prev.value, h);
    }
  }

  /** Only skip pointers of block i have changed, or blocks were added. */
  lemma TreeExtended(t: Tree, t': Tree, i: nat)
    requires TreeOk(t) && Rooted(t') && |t| <= |t'| <= |t| + 1 && i < |t'| && (|t'| > |t| ==> i == |t|)
    requires forall k :: 0 <= k < |t| ==> t'[k].prev == t[k].prev && t'[k].height == t[k].height
    requires forall k :: 0 <= k < |t| && k != i ==> t'[k] == t[k]
    requires SkipOk(t', i)
    ensures TreeOk(t')
  {
    forall k | 0 <= k < |t'| ensures SkipOk(t', k) {
      if k != i {
        assert t'[k] == t[k] && SkipOk(t, k);
        if t[k].height > 0 { WalkExtended(t, t', k, SkipHeight(t[k].height)); }
      }
    }
  }

  // ----- Common ancestors -----

  /** Blocks that agree at a height agree below it, and so those that differ differ above. */
  lemma AgreeBelow(t: Tree, a: nat, b: nat, h: nat, k: nat)
    requires Rooted(t) && a < |t| && b < |t| && k <= h && h <= t[a].height && h <= t[b].height
    ensures Walk(t, a, h) == Walk(t, b, h) ==> Walk(t, a, k) == Walk(t, b, k)
  {
    WalkWalk(t, a, h, k);
    WalkWalk(t, b, h, k);
  }

  /** The branches of a and b differ at every height above h. */
  ghost predicate DifferAbove(t: Tree, a: nat, b: nat, h: int)
    requires Rooted(t) && a < |t| && b < |t|
  {
    forall k: nat :: h < k && k <= t[a].height && k <= t[b].height ==> Walk(t, a, k) != Walk(t, b, k)
  }

  /** c is the highest block that both a and b descend from. */
  ghost predicate LastCommon(t: Tree, a: nat, b: nat, c: nat)
    requires Rooted(t) && a < |t| && b < |t|
  {
    && c < |t| && t[c].height <= t[a].height && t[c].height <= t[b].height
    && Walk(t, a, t[c].height) == c == Walk(t, b, t[c].height) && DifferAbove(t, a, b, t[c].height)
  }

  lemma DifferAt(t: Tree, a: nat, b: nat, h: nat)
    requires Rooted(t) && a < |t| && b < |t| && h <= t[a].height && h <= t[b].height && Walk(t, a, h) != Walk(t, b, h)
    ensures DifferAbove(t, a, b, h - 1)
  {
    forall k: nat | h <= k && k <= t[a].height && k <= t[b].height ensures Walk(t, a, k) != Walk(t, b, k) {
      AgreeBelow(t, a, b, k, h);
    }
  }

  // ----- The queries -----

  method GetAncestor(t: Tree, i: nat, h: int) returns (a: Option<nat>)
    requires TreeOk(t) && i < |t|
    ensures a == if 0 <= h <= t[i].height then Some(Walk(t, i, h)) else None
  {
    if h > t[i].height || h < 0 { return None; }
    var walk: nat, at: nat := i, t[i].height;
    while at > h
      invariant walk < |t| && at == t[walk].height >= h && Walk(t, walk, h) == Walk(t, i, h)
      decreases at
    {
      var skip, skipPrev := SkipHeight(at), SkipHeight(at - 1);
      if t[walk].skip.Some? && (skip == h || (skip > h && !(skipPrev < skip - 2 && skipPrev >= h))) {
        assert SkipOk(t, walk);
        WalkWalk(t, walk, skip, h);
        walk, at := t[walk].skip.value, skip;
      } else {
        RootOrParent(t, walk);
        walk, at := t[walk].prev.value, at - 1;
      }
    }
    a := Some(walk);
  }

  lemma RootOrParent(t: Tree, i: nat)
    requires Rooted(t) && i < |t| && t[i].height > 0
    ensures i > 0 && HasParent(t, i)
            && forall h :: 0 <= h < t[i].height ==> Walk(t, i, h) == Walk(t, t[i].prev.value, h)
  {
    assert i > 0;
    assert HasParent(t, i);
  }

  method LastCommonAncestor(t: Tree, pa: nat, pb: nat) returns (c: nat)
    requires TreeOk(t) && Built(t) && pa < |t| && pb < |t|
    ensures LastCommon(t, pa, pb, c)
  {
    var a, b := pa, pb;
    if t[a].height > t[b].height {
      var r := GetAncestor(t, a, t[b].height);
      a := r.value;
    } else if t[b].height > t[a].height {
      var r := GetAncestor(t, b, t[a].height);
      b := r.value;
    }
    assert OnBranches(t, pa, pb, a, b);
    while a != b
      invariant OnBranches(t, pa, pb, a, b)
      decreases t[a].height
    {
      ghost var from := t[a].height;
      while t[a].skip != t[b].skip
        invariant OnBranches(t, pa, pb, a, b) && a != b && t[a].height <= from
        decreases t[a].height
      {
        SkipBack(t, pa, pb, a, b);
        a, b := t[a].skip.value, t[b].skip.value;
      }
      StepBack(t, pa, pb, a, b);
      a, b := t[a].prev.value, t[b].prev.value;
    }
    c := a;
  }

  /** a and b are the ancestors of pa and pb at one height, above which the branches differ. */
  ghost predicate OnBranches(t: Tree, pa: nat, pb: nat, a: nat, b: nat)
    requires Rooted(t) && pa < |t| && pb < |t|
  {
    && a < |t| && b < |t| && t[a].height == t[b].height && t[a].height <= t[pa].height && t[a].height <= t[pb].height
    && a == Walk(t, pa, t[a].height) && b == Walk(t, pb, t[a].height) && DifferAbove(t, pa, pb, t[a].height)
  }

  lemma NotRoot(t: Tree, a: nat, b: nat)
    requires Rooted(t) && a < |t| && b < |t| && t[a].height == t[b].height && a != b
    ensures t[a].height > 0
  {
    if t[a].height == 0 {
      RootBelow(t, a);
      RootBelow(t, b);
    }
  }

  /** Blocks of equal height have skip pointers to equal height; if they lead to different blocks, the
      branches differ from there on. */
  lemma SkipBack(t: Tree, pa: nat, pb: nat, a: nat, b: nat)
    requires TreeOk(t) && Built(t) && pa < |t| && pb < |t| && OnBranches(t, pa, pb, a, b) && t[a].skip != t[b].skip
    ensures t[a].skip.Some? && t[b].skip.Some? && t[a].skip.value < |t| && t[t[a].skip.value].height < t[a].height
    ensures OnBranches(t, pa, pb, t[a].skip.value, t[b].skip.value)
  {
    NotRoot(t, a, b);
    RootOrParent(t, a);
    RootOrParent(t, b);
    assert SkipOk(t, a) && SkipOk(t, b);
    var s := SkipHeight(t[a].height);
    WalkWalk(t, pa, t[a].height, s);
    WalkWalk(t, pb, t[a].height, s);
    DifferAt(t, pa, pb, s);
  }

  lemma StepBack(t: Tree, pa: nat, pb: nat, a: nat, b: nat)
    requires Rooted(t) && pa < |t| && pb < |t| && OnBranches(t, pa, pb, a, b) && a != b
    ensures a > 0 && b > 0 && HasParent(t, a) && HasParent(t, b)
            && OnBranches(t, pa, pb, t[a].prev.value, t[b].prev.value)
  {
    NotRoot(t, a, b);
    RootOrParent(t, a);
    RootOrParent(t, b);
    var h := t[a].height;
    WalkWalk(t, pa, h, h - 1);
    WalkWalk(t, pb, h, h - 1);
    DifferAt(t, pa, pb, h);
  }

  // ----- The tree as it grows -----

  class BlockIndex {
    var blocks: Tree

    constructor ()
      ensures TreeOk(blocks) && Built(blocks) && |blocks| == 1
    {
      blocks := [Block(None, None, 0)];
    }

    /** A new block on top of prev, without a skip pointer yet. */
    method AddBlock(prev: nat) returns (i: nat)
      requires TreeOk(blocks) && prev < |blocks|
      modifies this
      ensures TreeOk(blocks) && i == old(|blocks|)
              && blocks == old(blocks) + [Block(Some(prev), None, old(blocks[prev].height) + 1)]
    {
      i := |blocks|;
      ghost var t := blocks;
      blocks := blocks + [Block(Some(prev), None, blocks[prev].height + 1)];
      forall k | 0 < k < |blocks| ensures HasParent(blocks, k) { if k < i { assert HasParent(t, k); } }
      TreeExtended(t, blocks, i);
    }

    method BuildSkip(i: nat)
      requires TreeOk(blocks) && i < |blocks|
      modifies this
      ensures TreeOk(blocks) && |blocks| == old(|blocks|)
      ensures forall k :: 0 <= k < |blocks| && k != i ==> blocks[k] == old(blocks[k])
      ensures blocks[i] == if i == 0 then old(blocks[0])
        else old(blocks[i]).(skip := Some(old(Walk(blocks, i, SkipHeight(blocks[i].height)))))
    {
      assert i > 0 ==> HasParent(blocks, i);
      if blocks[i].prev.Some? {
        ghost var t := blocks;
        var h := SkipHeight(blocks[i].height);
        var a := GetAncestor(blocks, blocks[i].prev.value, h);
        blocks := blocks[i := blocks[i].(skip := a)];
        forall k | 0 < k < |blocks| ensures HasParent(blocks, k) { assert HasParent(t, k); }
        WalkExtended(t, blocks, i, h);
        TreeExtended(t, blocks, i);
      }
    }
  }

  // ----- The active chain -----

  /** The chain holds, at every height, the ancestor of what it holds above. */
  ghost predicate ChainOk(t: Tree, chain: seq<nat>) {
    && Rooted(t) && (forall h :: 0 <= h < |chain| ==> chain[h] < |t| && t[chain[h]].height == h)
    && forall g, h :: 0 <= g <= h < |chain| ==> chain[g] == Walk(t, chain[h], g)
  }

  /** What SetTip has reached: below h the old chain, from h on the ancestors of the new tip. */
  ghost predicate Retracked(t: Tree, was: seq<nat>, chain: seq<Option<nat>>, tip: nat, h: int)
    requires Rooted(t) && tip < |t|
  {
    && |chain| == t[tip].height + 1 && -1 <= h < |chain|
    && (forall k :: h < k < |chain| ==> chain[k] == Some(Walk(t, tip, k)))
    && forall k :: 0 <= k <= h ==> chain[k] == if k < |was| then Some(was[k]) else None
  }

  /** Where the old chain has an ancestor of the tip, it has all ancestors below. */
  lemma SameBelow(t: Tree, was: seq<nat>, tip: nat, h: nat, k: nat)
    requires ChainOk(t, was) && tip < |t| && h <= t[tip].height && h < |was| && was[h] == Walk(t, tip, h) && k <= h
    ensures was[k] == Walk(t, tip, k)
  {
    WalkWalk(t, tip, h, k);
  }

  class Chain {
    var chain: seq<nat>

    constructor ()
      ensures chain == []
    {
      chain := [];
    }

    predicate Contains(t: Tree, i: nat)
      requires i < |t|
      reads this
    {
      t[i].height < |chain| && chain[t[i].height] == i
    }

    /** The chain becomes the branch of the block, however it forks off from the one before. */
    method SetTip(t: Tree, tip: nat)
      requires ChainOk(t, chain) && tip < |t|
      modifies this
      ensures ChainOk(t, chain) && |chain| == t[tip].height + 1
              && forall h :: 0 <= h < |chain| ==> chain[h] == Walk(t, tip, h)
    {
      var was := chain;
      var v := seq(t[tip].height + 1, k requires 0 <= k => if k < |was| then Some(was[k]) else None);
      var i := Some(tip);
      ghost var h: int := t[tip].height;
      while i.Some? && v[t[i.value].height] != i
        invariant Retracked(t, was, v, tip, h)
        invariant if h == -1 then i == None else i == Some(Walk(t, tip, h))
        decreases h
      {
        v := v[t[i.value].height := i];
        i := t[i.value].prev;
        h := h - 1;
        Above(t, tip, h + 1);
      }
      Settled(t, was, v, tip, h);
      chain := seq(|v|, k requires 0 <= k < |v| && v[k].Some? => v[k].value);
      BranchIsChain(t, chain, tip);
    }

    method FindFork(t: Tree, index: Option<nat>) returns (fork: Option<nat>)
      requires TreeOk(t) && ChainOk(t, chain) && (index.Some? ==> index.value < |t|)
      ensures fork.Some? <==> index.Some? && chain != []
      ensures fork.Some? ==> ForkOf(t, chain, index.value, fork.value)
    {
      if index.None? { return None; }
      fork := index;
      if t[index.value].height > |chain| - 1 { fork := GetAncestor(t, index.value, |chain| - 1); }
      ghost var i := index.value;
      while fork.Some? && !Contains(t, fork.value)
        invariant fork.Some? <==> chain != []
        invariant fork.Some? ==>
          fork.value < |t| && t[fork.value].height <= t[i].height && t[fork.value].height < |chain|
        invariant fork.Some? ==> Walk(t, i, t[fork.value].height) == fork.value
        invariant fork.Some? ==>
          forall h: nat :: t[fork.value].height < h && h <= t[i].height && h < |chain| ==> Walk(t, i, h) != chain[h]
        decreases if fork.Some? then t[fork.value].height else 0
      {
        OffChain(t, chain, fork.value);
        Above(t, i, t[fork.value].height);
        fork := t[fork.value].prev;
      }
    }
  }

  /** The highest block of the branch of i that is on the chain. */
  ghost predicate ForkOf(t: Tree, chain: seq<nat>, i: nat, f: nat)
    requires ChainOk(t, chain) && i < |t|
  {
    && f < |t| && t[f].height <= t[i].height && t[f].height < |chain|
    && Walk(t, i, t[f].height) == f == chain[t[f].height]
    && forall h: nat :: t[f].height < h && h <= t[i].height && h < |chain| ==> Walk(t, i, h) != chain[h]
  }

  /** The parent of the ancestor at a height is the ancestor one below. */
  lemma Above(t: Tree, i: nat, h: nat)
    requires Rooted(t) && i < |t| && h <= t[i].height
    ensures var a := Walk(t, i, h); t[a].prev == if h == 0 then None else Some(Walk(t, i, h - 1))
  {
    var a := Walk(t, i, h);
    if h == 0 { RootBelow(t, a); } else {
      RootOrParent(t, a);
      WalkWalk(t, i, h, h - 1);
    }
  }

  /** The root is on every chain that is not empty. */
  lemma OffChain(t: Tree, chain: seq<nat>, i: nat)
    requires ChainOk(t, chain) && i < |t| && t[i].height < |chain| && chain[t[i].height] != i
    ensures t[i].height > 0
  {
    if t[i].height == 0 {
      RootBelow(t, i);
      RootBelow(t, chain[0]);
    }
  }

  lemma Settled(t: Tree, was: seq<nat>, v: seq<Option<nat>>, tip: nat, h: int)
    requires ChainOk(t, was) && tip < |t| && Retracked(t, was, v, tip, h)
    requires h == -1 || v[h] == Some(Walk(t, tip, h))
    ensures forall k :: 0 <= k < |v| ==> v[k] == Some(Walk(t, tip, k))
  {
    if h >= 0 {
      forall k | 0 <= k <= h ensures v[k] == Some(Walk(t, tip, k)) { SameBelow(t, was, tip, h, k); }
    }
  }

  lemma BranchIsChain(t: Tree, chain: seq<nat>, tip: nat)
    requires Rooted(t) && tip < |t| && |chain| == t[tip].height + 1
             && forall h :: 0 <= h < |chain| ==> chain[h] == Walk(t, tip, h)
    ensures ChainOk(t, chain)
  {
    forall g, h | 0 <= g <= h < |chain| ensures chain[g] == Walk(t, chain[h], g) { WalkWalk(t, tip, h, g); }
  }

  // ----- Locators -----

  /** How far back the step after n entries goes. */
  ghost function StepAfter(n: nat): (r: nat)
    ensures r > 0
  {
    if n <= 11 then 1 else Pow(2, n - 11)
  }

  /** Entry k is one step below the one before, or the first block. */
  ghost predicate Lower(t: Tree, have: seq<nat>, k: nat)
    requires 0 < k < |have| && forall j :: 0 <= j < |have| ==> have[j] < |t|
  {
    var h := t[have[k - 1]].height;
    h > 0 && t[have[k]].height == if h > StepAfter(k) then h - StepAfter(k) else 0
  }

  /** From the block itself back, each entry the ancestor of the one before that is a step below it. */
  ghost predicate LocatorOk(t: Tree, i: nat, have: seq<nat>)
    requires Rooted(t) && i < |t|
  {
    && |have| > 0 && have[0] == i
    && (forall k :: 0 <= k < |have| ==>
          have[k] < |t| && t[have[k]].height <= t[i].height && have[k] == Walk(t, i, t[have[k]].height))
    && (forall k {:trigger Lower(t, have, k)} :: 0 < k < |have| ==> Lower(t, have, k))
  }

  lemma LocatorNext(t: Tree, i: nat, have: seq<nat>, a: nat)
    requires Rooted(t) && i < |t| && LocatorOk(t, i, have)
    requires var last := have[|have| - 1];
      && last < |t| && a < |t| && t[last].height > 0
      && t[a].height == (if t[last].height > StepAfter(|have|) then t[last].height - StepAfter(|have|) else 0)
      && a == Walk(t, last, t[a].height)
    ensures LocatorOk(t, i, have + [a])
  {
    var last, now := have[|have| - 1], have + [a];
    WalkWalk(t, i, t[last].height, t[a].height);
    forall k | 0 < k < |now| ensures Lower(t, now, k) { if k < |have| { assert Lower(t, have, k); } }
  }

  /** Back to the first block in steps that double, so that a locator is short however high the block is. */
  method LocatorEntries(t: Tree, index: Option<nat>) returns (have: seq<nat>)
    requires TreeOk(t) && (index.Some? ==> index.value < |t|)
    ensures index.None? ==> have == []
    ensures index.Some? ==> LocatorOk(t, index.value, have) && have[|have| - 1] == 0
    ensures index.Some? && |have| > 13 ==> Pow(2, |have| - 13) < t[index.value].height
  {
    have := [];
    if index.None? { return; }
    var i: nat, step: nat := index.value, 1;
    while true
      invariant i < |t| && LocatorOk(t, index.value, have + [i])
      invariant step == StepAfter(|have| + 1)
      invariant |have| > 1 ==> StepAfter(|have| - 1) < t[index.value].height
      invariant |have| > 0 && t[i].height > 0 ==> StepAfter(|have|) < t[index.value].height
      decreases t[i].height
    {
      have := have + [i];
      if t[i].height == 0 {
        RootBelow(t, i);
        break;
      }
      var h := if t[i].height > step then t[i].height - step else 0;
      var a := GetAncestor(t, i, h);
      LocatorNext(t, index.value, have, a.value);
      i := a.value;
      if |have| > 10 { step := step * 2; }
    }
  }
}
