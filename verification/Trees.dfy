/** Connected components and bridges in the graph of active dependencies, ignoring direction.
    The component of x is the smallest set that contains x and that no active dependency leaves. */
module Trees {

  datatype Dep = Dep(parent: nat, child: nat)

  ghost predicate Closed(deps: seq<Dep>, act: set<nat>, s: set<nat>) {
    forall i :: i in act && i < |deps| ==> (deps[i].parent in s <==> deps[i].child in s)
  }

  ghost predicate IsComponent(deps: seq<Dep>, act: set<nat>, c: set<nat>, x: nat) {
    && x in c
    && Closed(deps, act, c)
    && forall s: set<nat> :: Closed(deps, act, s) && x in s ==> c <= s
  }

  /** t is the parent's side of dependency d, when d is taken out of act, and d is a bridge. */
  ghost predicate IsTop(deps: seq<Dep>, act: set<nat>, d: nat, t: set<nat>)
    requires d < |deps|
  {
    IsComponent(deps, act - {d}, t, deps[d].parent) && deps[d].child !in t
  }

  lemma ComponentOfMember(deps: seq<Dep>, act: set<nat>, c: set<nat>, x: nat, y: nat)
    requires IsComponent(deps, act, c, x) && y in c
    ensures IsComponent(deps, act, c, y)
  {
    forall s: set<nat> | Closed(deps, act, s) && y in s ensures c <= s {
      if x !in s {
        assert Closed(deps, act, c - s);
        assert false;
      }
    }
  }

  /** Dropping dependencies that do not touch c leaves c a component. */
  lemma ComponentShrink(deps: seq<Dep>, act: set<nat>, act': set<nat>, c: set<nat>, x: nat)
    requires IsComponent(deps, act, c, x) && act' <= act
    requires forall i :: i in act && i !in act' && i < |deps| ==> deps[i].parent !in c && deps[i].child !in c
    ensures IsComponent(deps, act', c, x)
  {
    forall s: set<nat> | Closed(deps, act', s) && x in s ensures c <= s {
      assert Closed(deps, act, s * c);
    }
  }

  /** Adding dependencies that do not touch c leaves c a component. */
  lemma ComponentGrow(deps: seq<Dep>, act: set<nat>, act': set<nat>, c: set<nat>, x: nat)
    requires IsComponent(deps, act, c, x) && act <= act'
    requires forall i :: i in act' && i !in act && i < |deps| ==> deps[i].parent !in c && deps[i].child !in c
    ensures IsComponent(deps, act', c, x)
  {
    forall s: set<nat> | Closed(deps, act', s) && x in s ensures c <= s {
      assert Closed(deps, act, s);
    }
  }

  /** Activating e merges the component of its parent with that of its child. */
  lemma JoinComponents(deps: seq<Dep>, act: set<nat>, e: nat, par: set<nat>, chl: set<nat>)
    requires e < |deps| && e !in act
    requires IsComponent(deps, act, par, deps[e].parent) && IsComponent(deps, act, chl, deps[e].child)
    ensures IsComponent(deps, act + {e}, par + chl, deps[e].parent)
  {
    forall s: set<nat> | Closed(deps, act + {e}, s) && deps[e].parent in s ensures par + chl <= s {
      assert Closed(deps, act, s);
    }
  }

  /** Taking the bridge e out leaves its child in the rest of the component. */
  lemma SplitComponent(deps: seq<Dep>, act: set<nat>, e: nat, c: set<nat>, t: set<nat>)
    requires e < |deps| && e in act
    requires IsComponent(deps, act, c, deps[e].parent) && IsTop(deps, act, e, t)
    ensures t <= c
    ensures IsComponent(deps, act - {e}, c - t, deps[e].child)
  {
    assert Closed(deps, act - {e}, c);
    forall s: set<nat> | Closed(deps, act - {e}, s) && deps[e].child in s ensures c - t <= s {
      assert Closed(deps, act, s + t);
    }
  }

  /** Activating e, whose endpoints lie in the components par and chl: what becomes of the top t of
      another active dependency d of par (or of chl, by the next lemma). */
  lemma TopAfterJoinInParent(deps: seq<Dep>, act: set<nat>, e: nat, par: set<nat>, chl: set<nat>, d: nat, t: set<nat>)
    requires e < |deps| && e !in act && d < |deps| && d in act
    requires IsComponent(deps, act, par, deps[e].parent) && IsComponent(deps, act, chl, deps[e].child)
    requires par !! chl
    requires deps[d].parent in par && IsTop(deps, act, d, t)
    ensures IsTop(deps, act + {e}, d, if deps[e].parent in t then t + chl else t)
    ensures t <= par
  {
    ComponentOfMember(deps, act, par, deps[e].parent, deps[d].parent);
    assert Closed(deps, act - {d}, par);
    var act' := act + {e} - {d};
    assert act' == act - {d} + {e};
    if deps[e].parent in t {
      ComponentShrink(deps, act, act - {d}, chl, deps[e].child);
      ComponentOfMember(deps, act - {d}, t, deps[d].parent, deps[e].parent);
      JoinComponents(deps, act - {d}, e, t, chl);
      ComponentOfMember(deps, act', t + chl, deps[e].parent, deps[d].parent);
    } else {
      ComponentGrow(deps, act - {d}, act', t, deps[d].parent);
    }
  }

  lemma TopAfterJoinInChild(deps: seq<Dep>, act: set<nat>, e: nat, par: set<nat>, chl: set<nat>, d: nat, t: set<nat>)
    requires e < |deps| && e !in act && d < |deps| && d in act
    requires IsComponent(deps, act, par, deps[e].parent) && IsComponent(deps, act, chl, deps[e].child)
    requires par !! chl
    requires deps[d].parent in chl && IsTop(deps, act, d, t)
    ensures IsTop(deps, act + {e}, d, if deps[e].child in t then t + par else t)
    ensures t <= chl
  {
    ComponentOfMember(deps, act, chl, deps[e].child, deps[d].parent);
    assert Closed(deps, act - {d}, chl);
    var act' := act + {e} - {d};
    assert act' == act - {d} + {e};
    if deps[e].child in t {
      ComponentShrink(deps, act, act - {d}, par, deps[e].parent);
      ComponentOfMember(deps, act - {d}, t, deps[d].parent, deps[e].child);
      JoinComponents(deps, act - {d}, e, par, t);
      assert par + t == t + par;
      ComponentOfMember(deps, act', t + par, deps[e].parent, deps[d].parent);
    } else {
      ComponentGrow(deps, act - {d}, act', t, deps[d].parent);
    }
  }

  /** An active dependency outside both components keeps its top. */
  lemma TopAfterJoinElsewhere(deps: seq<Dep>, act: set<nat>, e: nat, c: set<nat>, d: nat, t: set<nat>)
    requires e < |deps| && e !in act && d < |deps| && d in act
    requires IsComponent(deps, act, c, deps[d].parent) && IsTop(deps, act, d, t)
    requires deps[e].parent !in c && deps[e].child !in c
    ensures IsTop(deps, act + {e}, d, t)
  {
    assert Closed(deps, act - {d}, c);
    assert act + {e} - {d} == act - {d} + {e};
    ComponentGrow(deps, act - {d}, act - {d} + {e}, t, deps[d].parent);
  }

  /** The activated dependency's own top is its parent's former component. */
  lemma TopOfJoined(deps: seq<Dep>, act: set<nat>, e: nat, par: set<nat>)
    requires e < |deps| && e !in act
    requires IsComponent(deps, act, par, deps[e].parent) && deps[e].child !in par
    ensures IsTop(deps, act + {e}, e, par)
  {
    assert act + {e} - {e} == act;
  }

  /** Deactivating the bridge e: what becomes of the top t of another dependency d of e's top side. */
  lemma TopAfterSplitInTop(deps: seq<Dep>, act: set<nat>, e: nat, c: set<nat>, te: set<nat>, d: nat, t: set<nat>)
    requires e < |deps| && e in act && d < |deps| && d in act && d != e
    requires IsComponent(deps, act, c, deps[e].parent) && IsTop(deps, act, e, te)
    requires deps[d].parent in te && IsTop(deps, act, d, t)
    ensures IsTop(deps, act - {e}, d, if deps[e].parent in t then t - (c - te) else t)
    ensures deps[e].parent in t ==> c - te <= t
  {
    var b := c - te;
    SplitComponent(deps, act, e, c, te);
    assert deps[d].child in te;
    var act' := act - {e} - {d};
    assert act' == act - {d} - {e};
    ComponentShrink(deps, act - {e}, act', b, deps[e].child);
    assert Closed(deps, act', t);
    if deps[e].parent in t {
      assert b <= t;
      assert Closed(deps, act', t - b);
      forall s: set<nat> | Closed(deps, act', s) && deps[d].parent in s ensures t - b <= s {
        if deps[e].parent in s {
          assert Closed(deps, act - {d}, s + b);
        } else {
          assert Closed(deps, act', s * te);
          assert Closed(deps, act - {d}, s * te);
          assert false;
        }
      }
    } else {
      assert deps[e].child !in t;
      ComponentShrink(deps, act - {d}, act', t, deps[d].parent);
    }
  }

  /** The same for a dependency d of e's bottom side. */
  lemma TopAfterSplitInBottom(deps: seq<Dep>, act: set<nat>, e: nat, c: set<nat>, te: set<nat>, d: nat, t: set<nat>)
    requires e < |deps| && e in act && d < |deps| && d in act && d != e
    requires IsComponent(deps, act, c, deps[e].parent) && IsTop(deps, act, e, te)
    requires deps[d].parent in c - te && IsTop(deps, act, d, t)
    ensures IsTop(deps, act - {e}, d, if deps[e].child in t then t - te else t)
    ensures deps[e].child in t ==> te <= t
  {
    var b := c - te;
    SplitComponent(deps, act, e, c, te);
    assert deps[d].child in b;
    var act' := act - {e} - {d};
    assert act' == act - {d} - {e};
    ComponentShrink(deps, act - {e}, act', te, deps[e].parent);
    assert Closed(deps, act', t);
    if deps[e].child in t {
      assert te <= t;
      assert Closed(deps, act', t - te);
      forall s: set<nat> | Closed(deps, act', s) && deps[d].parent in s ensures t - te <= s {
        if deps[e].child in s {
          assert Closed(deps, act - {d}, s + te);
        } else {
          assert Closed(deps, act', s * b);
          assert Closed(deps, act - {d}, s * b);
          assert false;
        }
      }
    } else {
      assert deps[e].parent !in t;
      ComponentShrink(deps, act - {d}, act', t, deps[d].parent);
    }
  }

  lemma TopAfterSplitElsewhere(deps: seq<Dep>, act: set<nat>, e: nat, c: set<nat>, d: nat, t: set<nat>)
    requires e < |deps| && e in act && d < |deps| && d in act && d != e
    requires IsComponent(deps, act, c, deps[d].parent) && IsTop(deps, act, d, t)
    requires deps[e].parent !in c && deps[e].child !in c
    ensures IsTop(deps, act - {e}, d, t)
  {
    assert Closed(deps, act - {d}, c);
    assert act - {e} - {d} == act - {d} - {e};
    ComponentShrink(deps, act - {d}, act - {d} - {e}, t, deps[d].parent);
  }
}
