/** FixLinearization, src/cluster_linearize.h:1576-1606: make any order topological. */
module Fixing {
  import opened Basics
  import opened Orders
  import opened DepGraphs

  /** The position just after the last ancestor of x in s. */
  ghost function AfterAncestors(g: Graph, s: seq<nat>, x: nat): (m: nat)
    requires x < |g.entries|
    ensures m <= |s| && (m > 0 ==> s[m - 1] in Anc(g, x)) && forall i :: m <= i < |s| ==> s[i] !in Anc(g, x)
  {
    if s == [] then 0
    else if s[|s| - 1] in Anc(g, x) then |s|
    else AfterAncestors(g, s[..|s| - 1], x)
  }

  ghost function Placed(g: Graph, s: seq<nat>, x: nat): seq<nat>
    requires x < |g.entries|
  {
    var m := AfterAncestors(g, s, x);
    s[..m] + [x] + s[m..]
  }

  ghost predicate AllUsed(g: Graph, l: seq<nat>) {
    InBounds(g) && forall i :: 0 <= i < |l| ==> l[i] in g.used
  }

  /** Place every element, from the back, just after the last of its ancestors behind it. */
  ghost function Fixed(g: Graph, l: seq<nat>): seq<nat>
    requires AllUsed(g, l)
  {
    if l == [] then [] else Placed(g, Fixed(g, l[1..]), l[0])
  }

  lemma ElemsPlaced(g: Graph, s: seq<nat>, x: nat)
    requires x < |g.entries| && Distinct(s) && x !in Elems(s)
    ensures Distinct(Placed(g, s, x)) && Elems(Placed(g, s, x)) == Elems(s) + {x} && |Placed(g, s, x)| == |s| + 1
  {
    var m, t := AfterAncestors(g, s, x), Placed(g, s, x);
    forall y | y in s ensures y in t {
      var i :| 0 <= i < |s| && s[i] == y;
      assert t[if i < m then i else i + 1] == y;
    }
    forall i | 0 <= i < |t| ensures t[i] == if i < m then s[i] else if i == m then x else s[i - 1] {}
    assert t[m] == x;
  }

  lemma PlacedTopological(g: Graph, s: seq<nat>, x: nat)
    requires Closure(g) && Acyclic(g) && x in g.used && AllUsed(g, s) && NoAncestorAfter(g, s) && x !in Elems(s)
    ensures NoAncestorAfter(g, Placed(g, s, x))
  {
    var m, t := AfterAncestors(g, s, x), Placed(g, s, x);
    forall a, b | 0 <= a < b < |t| ensures MayPrecede(g, t[a], t[b]) {
      if b == m && a < m {
        // If x were an ancestor of s[a], then so would be s[m - 1], which is not before s[a].
        WithinAncestor(g, x, s[a]);
      }
    }
  }

  /** The result is a topological permutation of any order. */
  lemma {:induction false} FixedTopological(g: Graph, l: seq<nat>)
    requires Closure(g) && Acyclic(g) && AllUsed(g, l) && Distinct(l)
    ensures Distinct(Fixed(g, l)) && Elems(Fixed(g, l)) == Elems(l) && |Fixed(g, l)| == |l|
    ensures AllUsed(g, Fixed(g, l)) && NoAncestorAfter(g, Fixed(g, l))
  {
    if l != [] {
      FixedTopological(g, l[1..]);
      assert l[0] !in Elems(l[1..]);
      ElemsPlaced(g, Fixed(g, l[1..]), l[0]);
      assert Elems(l) == Elems(l[1..]) + {l[0]};
      forall i | 0 <= i < |Fixed(g, l)| ensures Fixed(g, l)[i] in g.used {
        assert Fixed(g, l)[i] in Elems(Fixed(g, l));
      }
      PlacedTopological(g, Fixed(g, l[1..]), l[0]);
    }
  }

  /** An order that is topological already stays as it is. */
  lemma {:induction false} FixedSame(g: Graph, l: seq<nat>)
    requires AllUsed(g, l) && NoAncestorAfter(g, l)
    ensures Fixed(g, l) == l
  {
    if l != [] {
      FixedSame(g, l[1..]);
      assert AfterAncestors(g, l[1..], l[0]) == 0;
      assert l == [l[0]] + l[1..];
    }
  }

  /** Where things are once x has been placed. */
  lemma PlacedAt(g: Graph, s: seq<nat>, x: nat, q: nat)
    requires x < |g.entries| && q <= |s|
    ensures var m := AfterAncestors(g, s, x);
      Placed(g, s, x)[q] == if q < m then s[q] else if q == m then x else s[q - 1]
  {
  }

  lemma PlacedIndex(g: Graph, s: seq<nat>, x: nat, y: nat, q: nat)
    requires x < |g.entries| && q <= |s| && Placed(g, s, x)[q] == y && y != x
    ensures var m := AfterAncestors(g, s, x); q != m && s[if q < m then q else q - 1] == y
  {
    PlacedAt(g, s, x, q);
  }

  /** Only an element with an ancestor behind it falls behind: if x was ahead of y and no longer is,
      then an ancestor of x is at the place of y or between them. */
  lemma {:induction false} FixedKeepsOrder(g: Graph, l: seq<nat>, i: nat, j: nat, a: nat, b: nat) returns (c: nat)
    requires Closure(g) && Acyclic(g) && AllUsed(g, l) && Distinct(l) && i < j < |l|
    requires |Fixed(g, l)| == |l| && a < b < |l| && Fixed(g, l)[b] == l[i] && Fixed(g, l)[a] == l[j]
    ensures a <= c < b && Fixed(g, l)[c] in Anc(g, l[i])
  {
    var rest := l[1..];
    var s, x := Fixed(g, rest), l[0];
    FixedLength(g, l);
    var m, t := AfterAncestors(g, s, x), Placed(g, s, x);
    assert Fixed(g, l) == t;
    if i == 0 {
      c := PlacedBehind(g, s, x, a, b);
    } else {
      PlacedIndex(g, s, x, l[j], a);
      PlacedIndex(g, s, x, l[i], b);
      var d := FixedKeepsOrder(g, rest, i - 1, j - 1, if a < m then a else a - 1, if b < m then b else b - 1);
      c := PlacedBetween(g, s, x, a, b, d);
    }
  }

  /** Where x was placed, there is an ancestor of it just ahead. */
  lemma PlacedBehind(g: Graph, s: seq<nat>, x: nat, a: nat, b: nat) returns (c: nat)
    requires x < |g.entries| && x !in Elems(s) && a < b <= |s| && Placed(g, s, x)[b] == x
    ensures a <= c < b && Placed(g, s, x)[c] in Anc(g, x)
  {
    FixedHasOnce(g, s, x, b);
    c := AfterAncestors(g, s, x) - 1;
    PlacedAt(g, s, x, c);
  }

  /** What was between two elements still is once x has been placed. */
  lemma PlacedBetween(g: Graph, s: seq<nat>, x: nat, a: nat, b: nat, d: nat) returns (c: nat)
    requires x < |g.entries| && a < b <= |s| && a != AfterAncestors(g, s, x) && b != AfterAncestors(g, s, x)
    requires var m := AfterAncestors(g, s, x); (if a < m then a else a - 1) <= d < if b < m then b else b - 1
    ensures a <= c < b && Placed(g, s, x)[c] == s[d]
  {
    var m := AfterAncestors(g, s, x);
    c := if d < m then d else d + 1;
    PlacedAt(g, s, x, c);
  }

  lemma FixedLength(g: Graph, l: seq<nat>)
    requires Closure(g) && Acyclic(g) && AllUsed(g, l) && Distinct(l) && l != []
    ensures AllUsed(g, l[1..]) && Distinct(l[1..]) && |Fixed(g, l[1..])| == |l| - 1 && l[0] !in Elems(Fixed(g, l[1..]))
  {
    FixedTopological(g, l[1..]);
    assert l[0] !in l[1..];
  }

  /** x is where it was placed, and nowhere else. */
  lemma FixedHasOnce(g: Graph, s: seq<nat>, x: nat, b: nat)
    requires x < |g.entries| && b <= |s| && x !in Elems(s) && Placed(g, s, x)[b] == x
    ensures b == AfterAncestors(g, s, x)
  {
    PlacedAt(g, s, x, b);
  }

  lemma AfterAncestorsUnique(g: Graph, s: seq<nat>, x: nat, m: nat)
    requires x < |g.entries| && m <= |s| && (m > 0 ==> s[m - 1] in Anc(g, x))
             && forall i :: m <= i < |s| ==> s[i] !in Anc(g, x)
    ensures AfterAncestors(g, s, x) == m
  {
  }

  /** The ancestors of x among the elements of s from position i on. */
  ghost function Behind(g: Graph, s: seq<nat>, i: nat, x: nat): set<nat>
    requires x < |g.entries| && i <= |s|
  {
    set y | y in s[i..] && y in Anc(g, x)
  }

  lemma BehindNext(g: Graph, s: seq<nat>, i: nat, x: nat)
    requires x < |g.entries| && i < |s| && Distinct(s)
    ensures Behind(g, s, i + 1, x) == Behind(g, s, i, x) - {s[i]}
  {
    assert s[i..] == [s[i]] + s[i + 1..];
  }

  lemma BehindEmpty(g: Graph, s: seq<nat>, i: nat, x: nat)
    requires x < |g.entries| && i <= |s| && Behind(g, s, i, x) == {}
    ensures forall j :: i <= j < |s| ==> s[j] !in Anc(g, x)
  {
    forall j | i <= j < |s| ensures s[j] !in Anc(g, x) {
      assert s[i..][j - i] == s[j];
      assert s[j] !in Behind(g, s, i, x);
    }
  }

  /** The elements behind p up to q have moved forward by one, and the others have not. */
  ghost predicate Slid(a: array<nat>, was: seq<nat>, p: nat, q: nat)
    requires p <= q < a.Length == |was|
    reads a
  {
    forall i :: 0 <= i < a.Length && i != q ==> a[i] == was[if p <= i < q then i + 1 else i]
  }

  /** Slide the elements behind position p forward, until no ancestor of elem is left behind the gap at q. */
  method SlideForward(graph: DepGraph, a: array<nat>, p: nat, done: set<nat>) returns (q: nat)
    requires InBounds(graph.Value()) && p < a.Length && a[p] in graph.used
    requires done == Elems(a[p + 1..]) && Distinct(a[p + 1..])
    modifies a
    ensures p <= q < a.Length && q - p == AfterAncestors(graph.Value(), old(a[p + 1..]), old(a[p]))
    ensures forall i :: 0 <= i < p ==> a[i] == old(a[i])
    ensures forall i :: p <= i < q ==> a[i] == old(a[p + 1..])[i - p]
    ensures forall i :: q < i < a.Length ==> a[i] == old(a[p + 1..])[i - p - 1]
  {
    ghost var g, was, s := graph.Value(), a[..], a[p + 1..];
    var elem := a[p];
    q := p;
    ghost var n: nat := 0;
    var placeBefore := done * graph.entries[elem].ancestors;
    assert s[0..] == s;
    while placeBefore != {}
      invariant p <= q < a.Length && Slid(a, was, p, q)
      invariant n == q - p && placeBefore == Behind(g, s, n, elem)
      invariant n > 0 && placeBefore == {} ==> s[n - 1] in Anc(g, elem)
      decreases a.Length - q
    {
      var y :| y in placeBefore;
      assert y in s[n..];
      BehindNext(g, s, n, elem);
      var toSwap := a[q + 1];
      assert toSwap == s[n];
      placeBefore := placeBefore - {toSwap};
      a[q] := toSwap;
      q, n := q + 1, n + 1;
    }
    BehindEmpty(g, s, q - p, elem);
    AfterAncestorsUnique(g, s, elem, q - p);
  }

  /** Move the element at position p back until nothing behind it is one of its ancestors. */
  method PlaceBack(graph: DepGraph, a: array<nat>, p: nat, done: set<nat>)
    requires InBounds(graph.Value()) && p < a.Length && a[p] in graph.used
    requires done == Elems(a[p + 1..]) && Distinct(a[p + 1..])
    modifies a
    ensures forall i :: 0 <= i < p ==> a[i] == old(a[i])
    ensures a[p..] == Placed(graph.Value(), old(a[p + 1..]), old(a[p]))
  {
    ghost var g, s := graph.Value(), a[p + 1..];
    var elem := a[p];
    var q := SlideForward(graph, a, p, done);
    a[q] := elem;
    ghost var t := a[p..];
    forall i | 0 <= i < |t| ensures t[i] == Placed(g, s, elem)[i] { PlacedAt(g, s, elem, i); }
  }

  /** One more element in place. */
  lemma FixedNext(g: Graph, l: seq<nat>, p: nat)
    requires Closure(g) && Acyclic(g) && AllUsed(g, l) && Distinct(l) && p < |l|
    ensures AllUsed(g, l[p..]) && AllUsed(g, l[p + 1..])
    ensures Fixed(g, l[p..]) == Placed(g, Fixed(g, l[p + 1..]), l[p])
    ensures Distinct(Fixed(g, l[p + 1..])) && Elems(Fixed(g, l[p..])) == Elems(Fixed(g, l[p + 1..])) + {l[p]}
  {
    assert l[p..][1..] == l[p + 1..] && l[p..][0] == l[p];
    FixedTopological(g, l[p + 1..]);
    FixedTopological(g, l[p..]);
    assert l[p..] == [l[p]] + l[p + 1..];
  }

  /** Make the linearization topological, retaining its ordering where possible. */
  method FixLinearization(graph: DepGraph, a: array<nat>)
    requires Closure(graph.Value()) && Acyclic(graph.Value()) && AllUsed(graph.Value(), a[..]) && Distinct(a[..])
    modifies a
    ensures a[..] == Fixed(graph.Value(), old(a[..]))
    ensures Distinct(a[..]) && Elems(a[..]) == old(Elems(a[..])) && NoAncestorAfter(graph.Value(), a[..])
    ensures old(NoAncestorAfter(graph.Value(), a[..])) ==> a[..] == old(a[..])
  {
    ghost var g, l := graph.Value(), a[..];
    var done, len := {}, a.Length;
    assert l[len..] == [];
    for i := 0 to len
      invariant forall j :: 0 <= j < len - i ==> a[j] == l[j]
      invariant AllUsed(g, l[len - i..]) && a[len - i..] == Fixed(g, l[len - i..])
      invariant done == Elems(a[len - i..])
    {
      var p := len - 1 - i;
      FixedNext(g, l, p);
      var elem := a[p];
      PlaceBack(graph, a, p, done);
      done := done + {elem};
    }
    assert l[0..] == l && a[0..] == a[..];
    FixedTopological(g, l);
    if NoAncestorAfter(g, l) { FixedSame(g, l); }
  }
}
