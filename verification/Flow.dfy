/** The two counting arguments about a chunk whose active dependencies form a tree: it has one
    dependency fewer than transactions, and if no top beats it then no ancestor-closed part does. */
module Flow {
  import opened Trees
  import opened Sums

  /** The active dependencies with both ends in c. */
  ghost function Inside(deps: seq<Dep>, act: set<nat>, c: set<nat>): set<nat> {
    set d | d in act && d < |deps| && deps[d].parent in c && deps[d].child in c
  }

  /** The active dependencies that leave a, from a parent in a to a child outside it. */
  ghost function Leaving(deps: seq<Dep>, act: set<nat>, a: set<nat>): set<nat> {
    set d | d in act && d < |deps| && deps[d].parent in a && deps[d].child !in a
  }

  /** Along active dependencies, a contains the parent of every child it contains. */
  ghost predicate ParentClosed(deps: seq<Dep>, act: set<nat>, a: set<nat>) {
    forall d :: d in act && d < |deps| && deps[d].child in a ==> deps[d].parent in a
  }

  /** Every active dependency of c is a bridge with the given top. */
  ghost predicate Bridges(deps: seq<Dep>, act: set<nat>, c: set<nat>, tops: seq<set<nat>>)
    requires |tops| == |deps|
  {
    forall d :: d in act && d < |deps| && deps[d].parent in c ==> IsTop(deps, act, d, tops[d])
  }

  /** If every top of the tree c weighs at most nothing, and c itself weighs nothing, then no
      ancestor-closed part of c weighs more than nothing. By induction on the dependencies leaving a. */
  lemma {:induction false} NoPartBeatsTree(deps: seq<Dep>, act: set<nat>, c: set<nat>, x: nat,
                                           tops: seq<set<nat>>, w: seq<real>, a: set<nat>)
    requires |tops| == |deps|
    requires IsComponent(deps, act, c, x) && Bridges(deps, act, c, tops)
    requires Sum(w, c) == 0.0
    requires forall d :: d in act && d < |deps| && deps[d].parent in c ==> Sum(w, tops[d]) <= 0.0
    requires a <= c && ParentClosed(deps, act, a)
    ensures Sum(w, a) <= 0.0
    decreases |Leaving(deps, act, a)|
  {
    var out := Leaving(deps, act, a);
    if out == {} {
      assert Closed(deps, act, a) by {
        forall d | d in act && d < |deps| ensures deps[d].parent in a <==> deps[d].child in a {
          assert d !in out;
        }
      }
      if y :| y in a {
        ComponentOfMember(deps, act, c, x, y);
        assert a == c;
      } else {
        assert a == {};
        SumEmpty(w);
      }
    } else {
      var e :| e in out;
      var t := tops[e];
      ComponentOfMember(deps, act, c, x, deps[e].parent);
      SplitComponent(deps, act, e, c, t);
      var b := c - t;
      assert Closed(deps, act - {e}, b);
      assert ParentClosed(deps, act, a + b) && ParentClosed(deps, act, a * b);
      assert Leaving(deps, act, a + b) <= out - {e};
      assert Leaving(deps, act, a * b) <= out - {e};
      SubsetSmaller(Leaving(deps, act, a + b), out - {e});
      SubsetSmaller(Leaving(deps, act, a * b), out - {e});
      NoPartBeatsTree(deps, act, c, x, tops, w, a + b);
      NoPartBeatsTree(deps, act, c, x, tops, w, a * b);
      SumUnion(w, a, b);
      SumDisjoint(w, t, b);
      assert t + b == c;
    }
  }

  lemma SubsetSmaller(s: set<nat>, t: set<nat>)
    requires s <= t
    ensures |s| <= |t|
  {
    assert t == s + (t - s);
  }

  /** The tops that remain on the two sides once the bridge e is taken out. */
  lemma BridgesAfterSplit(deps: seq<Dep>, act: set<nat>, e: nat, c: set<nat>, tops: seq<set<nat>>)
    returns (tops1: seq<set<nat>>, tops2: seq<set<nat>>)
    requires |tops| == |deps| && e < |deps| && e in act
    requires IsComponent(deps, act, c, deps[e].parent) && Bridges(deps, act, c, tops)
    ensures |tops1| == |tops2| == |deps|
    ensures Bridges(deps, act - {e}, tops[e], tops1)
    ensures Bridges(deps, act - {e}, c - tops[e], tops2)
  {
    var t := tops[e];
    var b := c - t;
    SplitComponent(deps, act, e, c, t);
    tops1 := seq(|deps|, d requires 0 <= d < |deps| => if deps[e].parent in tops[d] then tops[d] - b else tops[d]);
    tops2 := seq(|deps|, d requires 0 <= d < |deps| => if deps[e].child in tops[d] then tops[d] - t else tops[d]);
    forall d | d in act - {e} && d < |deps| && deps[d].parent in t ensures IsTop(deps, act - {e}, d, tops1[d]) {
      TopAfterSplitInTop(deps, act, e, c, t, d, tops[d]);
    }
    forall d | d in act - {e} && d < |deps| && deps[d].parent in b ensures IsTop(deps, act - {e}, d, tops2[d]) {
      TopAfterSplitInBottom(deps, act, e, c, t, d, tops[d]);
    }
  }

  lemma InsideAfterSplit(deps: seq<Dep>, act: set<nat>, e: nat, c: set<nat>, t: set<nat>)
    requires e < |deps| && e in act && deps[e].parent in t && deps[e].child in c - t && t <= c
    requires Closed(deps, act - {e}, t) && Closed(deps, act - {e}, c - t)
    ensures |Inside(deps, act, c)| == |Inside(deps, act - {e}, t)| + |Inside(deps, act - {e}, c - t)| + 1
  {
    var it, ib := Inside(deps, act - {e}, t), Inside(deps, act - {e}, c - t);
    assert Inside(deps, act, c) == it + ib + {e};
    assert it !! ib && e !in it + ib;
  }

  /** A chunk of N transactions has exactly N-1 active dependencies. By taking one out. */
  lemma {:induction false} TreeSize(deps: seq<Dep>, act: set<nat>, c: set<nat>, x: nat, tops: seq<set<nat>>)
    requires |tops| == |deps|
    requires IsComponent(deps, act, c, x) && Bridges(deps, act, c, tops)
    ensures |Inside(deps, act, c)| == |c| - 1
    decreases |Inside(deps, act, c)|
  {
    var inside := Inside(deps, act, c);
    if inside == {} {
      assert Closed(deps, act, {x}) by {
        forall d | d in act && d < |deps| ensures deps[d].parent in {x} <==> deps[d].child in {x} {
          assert d !in inside;
        }
      }
      assert c == {x};
    } else {
      var e :| e in inside;
      ComponentOfMember(deps, act, c, x, deps[e].parent);
      var t := tops[e];
      var b := c - t;
      SplitComponent(deps, act, e, c, t);
      var tops1, tops2 := BridgesAfterSplit(deps, act, e, c, tops);
      InsideAfterSplit(deps, act, e, c, t);
      TreeSize(deps, act - {e}, t, deps[e].parent, tops1);
      TreeSize(deps, act - {e}, b, deps[e].child, tops2);
      assert c == t + b && t !! b;
    }
  }
}
