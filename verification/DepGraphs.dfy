/** DepGraph, src/cluster_linearize.h:28-356: transactions with their ancestors and descendants. */
module DepGraphs {
  import opened FeeFracs

  /** Fee and size of a transaction, with all its ancestors and all its descendants, itself included. */
  datatype Entry = Entry(feerate: FeeFrac, ancestors: set<nat>, descendants: set<nat>)

  /** The contents of a DepGraph as a value: the entries, and which positions are in use. */
  datatype Graph = Graph(entries: seq<Entry>, used: set<nat>)

  ghost predicate InBounds(g: Graph) {
    forall i :: i in g.used ==> i < |g.entries|
  }

  function Anc(g: Graph, i: nat): set<nat>
    requires i < |g.entries|
  {
    g.entries[i].ancestors
  }

  /** Every ancestor of j is one of i. */
  ghost predicate Within(g: Graph, j: nat, i: nat) {
    j < |g.entries| && i < |g.entries| && Anc(g, j) <= Anc(g, i)
  }

  /** The ancestor sets are a reflexive and transitive relation, and the descendant sets its inverse. */
  ghost predicate Closure(g: Graph) {
    && InBounds(g)
    && (forall i :: i in g.used ==> i in Anc(g, i) && Anc(g, i) <= g.used && g.entries[i].descendants <= g.used)
    && (forall i, j {:trigger Within(g, j, i)} :: i in g.used && j in Anc(g, i) ==> Within(g, j, i))
    && (forall i, j :: i in g.used && j in g.used ==> (j in Anc(g, i) <==> i in g.entries[j].descendants))
  }

  ghost predicate Acyclic(g: Graph)
    requires InBounds(g)
  {
    forall i, j :: i in g.used && j in g.used && i in Anc(g, j) && j in Anc(g, i) ==> i == j
  }

  /** y is no ancestor of x, so that x may come before it. */
  ghost predicate MayPrecede(g: Graph, x: nat, y: nat) {
    x < |g.entries| && y !in Anc(g, x)
  }

  /** Nothing comes before one of its ancestors. */
  ghost predicate NoAncestorAfter(g: Graph, l: seq<nat>) {
    forall a, b :: 0 <= a < b < |l| ==> MayPrecede(g, l[a], l[b])
  }

  /** What AddDependencies makes of the ancestors of x: if x descends from child, it gains the
      ancestors of the parents. */
  ghost function Gained(g: Graph, parents: set<nat>): set<nat>
    requires InBounds(g) && parents <= g.used
  {
    set p, a | p in parents && a in Anc(g, p) :: a
  }

  ghost predicate Adds(g: Graph, parents: set<nat>, child: nat, h: Graph) {
    && InBounds(g) && parents <= g.used && child in g.used
    && h.used == g.used && |h.entries| == |g.entries|
    && (forall x :: x in g.used ==>
          && h.entries[x].feerate == g.entries[x].feerate
          && Anc(h, x) == (if child in Anc(g, x) then Anc(g, x) + Gained(g, parents) else Anc(g, x))
          && h.entries[x].descendants ==
               (if x in Gained(g, parents) then g.entries[x].descendants + g.entries[child].descendants
                else g.entries[x].descendants))
  }

  /** Adding dependencies keeps the relation closed. */
  lemma AddsClosure(g: Graph, parents: set<nat>, child: nat, h: Graph)
    requires Closure(g) && Adds(g, parents, child, h)
    ensures Closure(h)
  {
    var gained := Gained(g, parents);
    assert gained <= g.used;
    forall i | i in h.used ensures i in Anc(h, i) && Anc(h, i) <= h.used && h.entries[i].descendants <= h.used {}
    forall i, j | i in h.used && j in Anc(h, i) ensures Within(h, j, i) {
      GainedClosed(g, parents, j);
      if j in Anc(g, i) { assert Within(g, j, i); }
      if child in Anc(g, j) && j in Anc(g, i) { assert Within(g, j, i); }
    }
    forall i, j | i in h.used && j in h.used ensures j in Anc(h, i) <==> i in h.entries[j].descendants {}
  }

  lemma GainedClosed(g: Graph, parents: set<nat>, j: nat)
    requires Closure(g) && parents <= g.used
    ensures j in Gained(g, parents) ==> Anc(g, j) <= Gained(g, parents)
  {
    if j in Gained(g, parents) {
      var p :| p in parents && j in Anc(g, p);
      assert Within(g, j, p);
    }
  }

  /** The new relation is the smallest reflexive and transitive one with the old one and the new
      dependencies in it. */
  lemma AddsLeast(g: Graph, parents: set<nat>, child: nat, h: Graph, r: Graph)
    requires Closure(g) && Adds(g, parents, child, h)
    requires Closure(r) && r.used == g.used
    requires forall x :: x in g.used ==> Anc(g, x) <= Anc(r, x)
    requires parents <= Anc(r, child)
    ensures parents <= Anc(h, child)
    ensures forall x :: x in g.used ==> Anc(g, x) <= Anc(h, x) <= Anc(r, x)
  {
    forall p | p in parents ensures p in Gained(g, parents) { assert p in Anc(g, p); }
    forall x | x in g.used ensures Anc(h, x) <= Anc(r, x) {
      if child in Anc(g, x) { GainedBelow(g, parents, child, r, x); }
    }
  }

  lemma GainedBelow(g: Graph, parents: set<nat>, child: nat, r: Graph, x: nat)
    requires Closure(g) && parents <= g.used && Closure(r) && r.used == g.used && child in g.used && x in g.used
    requires forall p :: p in parents ==> Anc(g, p) <= Anc(r, p)
    requires parents <= Anc(r, child) && child in Anc(r, x)
    ensures Gained(g, parents) <= Anc(r, x)
  {
    assert Within(r, child, x);
    forall a | a in Gained(g, parents) ensures a in Anc(r, x) {
      var p :| p in parents && a in Anc(g, p);
      assert p in Anc(r, child);
      assert Within(r, p, child);
    }
  }

  /** p is a direct parent of i: an ancestor with no other ancestor of i in between. */
  ghost predicate DirectParent(g: Graph, p: nat, i: nat)
    requires Closure(g) && i in g.used
  {
    p in Anc(g, i) && p != i && forall q :: q in Anc(g, i) && q != i && q != p ==> p !in Anc(g, q)
  }

  function Trim(e: Entry, keep: set<nat>): Entry {
    e.(ancestors := e.ancestors * keep, descendants := e.descendants * keep)
  }

  function GainDes(e: Entry, gain: bool, more: set<nat>): Entry {
    if gain then e.(descendants := e.descendants + more) else e
  }

  function GainAnc(e: Entry, gain: bool, more: set<nat>): Entry {
    if gain then e.(ancestors := e.ancestors + more) else e
  }

  lemma WithinAncestor(g: Graph, j: nat, i: nat)
    requires Closure(g) && i in g.used
    ensures j in Anc(g, i) ==> Within(g, j, i)
  {
  }

  lemma NewAncestors(g: Graph, parents: set<nat>, child: nat, parAnc: set<nat>)
    requires Closure(g) && parents <= g.used && child in g.used
    requires parAnc <= Gained(g, parents) - Anc(g, child)
    requires forall q :: q in parents && q !in Anc(g, child) ==> Anc(g, q) <= parAnc + Anc(g, child)
    ensures parAnc == Gained(g, parents) - Anc(g, child)
  {
    forall a | a in Gained(g, parents) && a !in Anc(g, child) ensures a in parAnc {
      var p :| p in parents && a in Anc(g, p);
      WithinAncestor(g, p, child);
    }
  }

  lemma AddsNothing(g: Graph, parents: set<nat>, child: nat)
    requires Closure(g) && parents <= g.used && child in g.used && Gained(g, parents) <= Anc(g, child)
    ensures Adds(g, parents, child, g)
  {
    forall x | x in g.used && child in Anc(g, x) ensures Anc(g, child) <= Anc(g, x) { assert Within(g, child, x); }
    forall x | x in g.used && x in Gained(g, parents) ensures g.entries[child].descendants <= g.entries[x].descendants {
      DescendantsOf(g, x, child);
    }
  }

  lemma DescendantsOf(g: Graph, x: nat, child: nat)
    requires Closure(g) && child in g.used && x in Anc(g, child)
    ensures g.entries[child].descendants <= g.entries[x].descendants
  {
    forall y | y in g.entries[child].descendants ensures y in g.entries[x].descendants {
      assert child in Anc(g, y);
      assert Within(g, child, y);
    }
  }

  lemma AddsGained(g: Graph, parents: set<nat>, child: nat, parAnc: set<nat>, mid: seq<Entry>, h: Graph)
    requires Closure(g) && parents <= g.used && child in g.used && parAnc == Gained(g, parents) - Anc(g, child)
    requires h.used == g.used && |h.entries| == |mid| == |g.entries|
    requires forall x :: 0 <= x < |mid| ==> mid[x] == GainDes(g.entries[x], x in parAnc, g.entries[child].descendants)
    requires forall x :: 0 <= x < |mid| ==> h.entries[x] == GainAnc(mid[x], x in g.entries[child].descendants, parAnc)
    ensures Adds(g, parents, child, h)
  {
    forall x | x in g.used
      ensures Anc(h, x) == if child in Anc(g, x) then Anc(g, x) + Gained(g, parents) else Anc(g, x)
    {
      assert child in Anc(g, x) <==> x in g.entries[child].descendants;
      if child in Anc(g, x) { assert Within(g, child, x); }
    }
    forall x | x in g.used && x in Gained(g, parents) && x !in parAnc
      ensures g.entries[child].descendants <= g.entries[x].descendants
    {
      DescendantsOf(g, x, child);
    }
  }

  // ----- Reducing a set of ancestors to the direct parents -----

  /** Everything in all is an ancestor of something in s. */
  ghost predicate Covers(g: Graph, s: set<nat>, all: set<nat>)
    requires Closure(g) && s <= g.used
  {
    forall x {:trigger Covered(g, s, x)} :: x in all ==> Covered(g, s, x)
  }

  ghost predicate Covered(g: Graph, s: set<nat>, x: nat)
    requires Closure(g) && s <= g.used
  {
    exists q :: q in s && x in Anc(g, q)
  }

  /** No element of s below position n has another element of s as an ancestor. */
  ghost predicate NoneBelow(g: Graph, s: set<nat>, n: nat)
    requires Closure(g) && s <= g.used
  {
    forall p, x :: p in s && p < n && x in s && x != p ==> x !in Anc(g, p)
  }

  lemma ReduceStep(g: Graph, s: set<nat>, all: set<nat>, p: nat, t: set<nat>)
    requires Closure(g) && s <= g.used && p in s && Covers(g, s, all) && NoneBelow(g, s, p)
    requires t == s - Anc(g, p) + {p}
    ensures t <= g.used && Covers(g, t, all) && NoneBelow(g, t, p + 1)
  {
    forall x | x in all ensures Covered(g, t, x) {
      assert Covered(g, s, x);
      var q :| q in s && x in Anc(g, q);
      if q in t {
      } else {
        assert Within(g, q, p);
        assert p in t && x in Anc(g, p);
      }
    }
  }

  lemma KeptIsDirect(g: Graph, i: nat, s: set<nat>, p: nat, q: nat)
    requires Closure(g) && Acyclic(g) && i in g.used && s <= Anc(g, i) - {i}
    requires Covers(g, s, Anc(g, i) - {i}) && NoneBelow(g, s, |g.entries|)
    requires p in s && q in Anc(g, i) && q != i && q != p
    ensures p !in Anc(g, q)
  {
    assert Covered(g, s, q);
    var t :| t in s && q in Anc(g, t);
    assert Within(g, q, t);
  }

  /** An antichain of ancestors that covers all of them is the set of direct parents. */
  lemma Reduced(g: Graph, i: nat, s: set<nat>)
    requires Closure(g) && Acyclic(g) && i in g.used && s <= Anc(g, i) - {i}
    requires Covers(g, s, Anc(g, i) - {i}) && NoneBelow(g, s, |g.entries|)
    ensures forall p :: p in s <==> DirectParent(g, p, i)
  {
    forall p | p in s ensures DirectParent(g, p, i) {
      forall q | q in Anc(g, i) && q != i && q != p ensures p !in Anc(g, q) { KeptIsDirect(g, i, s, p, q); }
    }
    forall p | DirectParent(g, p, i) ensures p in s {
      assert Covered(g, s, p);
      var t :| t in s && p in Anc(g, t);
    }
  }

  class DepGraph {
    var entries: seq<Entry>
    var used: set<nat>

    ghost function Value(): Graph
      reads this
    {
      Graph(entries, used)
    }

    constructor ()
      ensures Closure(Value()) && used == {}
    {
      entries, used := [], {};
    }

    /** Add an unconnected transaction in the first free position below capacity. */
    method AddTransaction(feerate: FeeFrac, capacity: nat) returns (i: nat)
      requires Closure(Value()) && exists x :: 0 <= x < capacity && x !in used
      modifies this
      ensures Closure(Value()) && i < capacity
      ensures i !in old(used) && used == old(used) + {i} && forall x :: 0 <= x < i ==> x in old(used)
      ensures entries[i] == Entry(feerate, {i}, {i})
      ensures forall x :: x in old(used) ==> entries[x] == old(entries)[x]
    {
      i := 0;
      while i in used
        invariant i < capacity && forall x :: 0 <= x < i ==> x in used
        decreases capacity - i
      {
        i := i + 1;
      }
      assert i > 0 ==> i - 1 in used;
      if i == |entries| {
        entries := entries + [Entry(feerate, {i}, {i})];
      } else {
        entries := entries[i := Entry(feerate, {i}, {i})];
      }
      used := used + {i};
      forall x, y | x in used && y in Anc(Value(), x) ensures Within(Value(), y, x) {
        if x != i { assert Within(old(Value()), y, x); }
      }
    }

    /** Forget the positions in del, and every mention of them. */
    method RemoveTransactions(del: set<nat>)
      requires Closure(Value())
      modifies this
      ensures Closure(Value()) && used == old(used) - del
      ensures forall x, y :: x in used && y in used ==> (y in Anc(Value(), x) <==> y in Anc(old(Value()), x))
      ensures forall x :: x in used ==> entries[x].feerate == old(entries)[x].feerate
      ensures entries != [] ==> |entries| - 1 in used
    {
      used := used - del;
      while entries != [] && |entries| - 1 !in used
        invariant used == old(used) - del && InBounds(Value())
        invariant |entries| <= |old(entries)| && entries == old(entries)[..|entries|]
        decreases |entries|
      {
        entries := entries[..|entries| - 1];
      }
      ghost var kept := entries;
      for i := 0 to |entries|
        invariant used == old(used) - del && |entries| == |kept|
        invariant forall x :: 0 <= x < |entries| ==> entries[x] == if x < i then Trim(kept[x], used) else kept[x]
      {
        entries := entries[i := Trim(entries[i], used)];
      }
      forall x, y | x in used && y in Anc(Value(), x) ensures Within(Value(), y, x) {
        assert Within(old(Value()), y, x);
      }
    }

    /** The ancestors of the parents that the child does not have yet. */
    method NewAncestorsOf(parents: set<nat>, child: nat) returns (parAnc: set<nat>)
      requires Closure(Value()) && child in used && parents <= used
      ensures parAnc == Gained(Value(), parents) - Anc(Value(), child)
    {
      parAnc := {};
      for p := 0 to |entries|
        invariant parAnc <= Gained(Value(), parents)
        invariant forall q :: q in parents && q !in Anc(Value(), child) && q < p ==> Anc(Value(), q) <= parAnc
      {
        if p in parents - entries[child].ancestors {
          parAnc := parAnc + entries[p].ancestors;
        }
      }
      parAnc := parAnc - entries[child].ancestors;
      NewAncestors(Value(), parents, child, parAnc);
    }

    /** To each of the ancestors in parAnc, add the descendants of the child. */
    method GiveDescendants(parAnc: set<nat>, childDes: set<nat>)
      modifies this`entries
      ensures |entries| == |old(entries)|
      ensures forall x :: 0 <= x < |entries| ==> entries[x] == GainDes(old(entries)[x], x in parAnc, childDes)
    {
      for a := 0 to |entries|
        invariant |entries| == |old(entries)|
        invariant forall x :: 0 <= x < |entries| ==>
                  entries[x] == GainDes(old(entries)[x], x < a && x in parAnc, childDes)
      {
        if a in parAnc {
          entries := entries[a := entries[a].(descendants := entries[a].descendants + childDes)];
        }
      }
    }

    /** To each descendant of the child, add the ancestors in parAnc. */
    method GiveAncestors(childDes: set<nat>, parAnc: set<nat>)
      modifies this`entries
      ensures |entries| == |old(entries)|
      ensures forall x :: 0 <= x < |entries| ==> entries[x] == GainAnc(old(entries)[x], x in childDes, parAnc)
    {
      for d := 0 to |entries|
        invariant |entries| == |old(entries)|
        invariant forall x :: 0 <= x < |entries| ==>
                  entries[x] == GainAnc(old(entries)[x], x < d && x in childDes, parAnc)
      {
        if d in childDes {
          entries := entries[d := entries[d].(ancestors := entries[d].ancestors + parAnc)];
        }
      }
    }

    /** Give child the parents as ancestors, and so their ancestors to it and its descendants. */
    method AddDependencies(parents: set<nat>, child: nat)
      requires Closure(Value()) && child in used && parents <= used
      modifies this
      ensures Closure(Value()) && Adds(old(Value()), parents, child, Value())
    {
      ghost var g := Value();
      var parAnc := NewAncestorsOf(parents, child);
      if parAnc == {} {
        assert Gained(g, parents) <= Anc(g, child) by {
          forall a | a in Gained(g, parents) ensures a in Anc(g, child) { assert a !in parAnc; }
        }
        AddsNothing(g, parents, child);
        return;
      }
      GiveDescendants(parAnc, entries[child].descendants);
      ghost var mid := entries;
      assert child !in parAnc;
      GiveAncestors(entries[child].descendants, parAnc);
      AddsGained(g, parents, child, parAnc, mid, Value());
      AddsClosure(g, parents, child, Value());
    }

    /** The direct parents of i, found by dropping the ancestors of each parent that is left. */
    method GetReducedParents(i: nat) returns (parents: set<nat>)
      requires Closure(Value()) && i in used
      ensures parents <= Anc(Value(), i) - {i}
      ensures Acyclic(Value()) ==> forall p :: p in parents <==> DirectParent(Value(), p, i)
    {
      var all := entries[i].ancestors - {i};
      parents := all;
      for p := 0 to |entries|
        invariant parents <= all
        invariant Acyclic(Value()) ==> Covers(Value(), parents, all) && NoneBelow(Value(), parents, p)
      {
        if p in parents {
          ghost var before := parents;
          parents := parents - entries[p].ancestors;
          parents := parents + {p};
          if Acyclic(Value()) { ReduceStep(Value(), before, all, p, parents); }
        }
      }
      if Acyclic(Value()) { Reduced(Value(), i, parents); }
    }
  }
}
