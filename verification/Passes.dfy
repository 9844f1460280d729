/** One pass of PostLinearize, src/cluster_linearize.h:1403-1419, on lists of groups. The relation deps
    is the ancestors in a forward pass and the descendants in a backward one, whose fees are negated. */
module Passes {
  import opened FeeFracs
  import opened Chunking
  import opened Orders

  // ----- Orders in which nothing comes before something it depends on -----

  ghost predicate Known(deps: seq<set<nat>>, l: seq<nat>) {
    forall i :: 0 <= i < |l| ==> l[i] < |deps|
  }

  ghost predicate MayFollow(deps: seq<set<nat>>, x: nat, y: nat) {
    x < |deps| && x != y && y !in deps[x]
  }

  /** No element occurs twice, and none depends on a later one. */
  ghost predicate InOrder(deps: seq<set<nat>>, l: seq<nat>) {
    Known(deps, l) && forall a, b :: 0 <= a < b < |l| ==> MayFollow(deps, l[a], l[b])
  }

  ghost predicate Cross(deps: seq<set<nat>>, k: seq<nat>, l: seq<nat>) {
    forall a, b :: 0 <= a < |k| && 0 <= b < |l| ==> MayFollow(deps, k[a], l[b])
  }

  lemma InOrderConcat(deps: seq<set<nat>>, k: seq<nat>, l: seq<nat>)
    ensures InOrder(deps, k + l) <==> InOrder(deps, k) && InOrder(deps, l) && Cross(deps, k, l)
  {
    var m := k + l;
    if InOrder(deps, m) {
      forall a, b | 0 <= a < b < |l| ensures MayFollow(deps, l[a], l[b]) {
        assert m[|k| + a] == l[a] && m[|k| + b] == l[b];
      }
      forall a, b | 0 <= a < b < |k| ensures MayFollow(deps, k[a], k[b]) {
        assert m[a] == k[a] && m[b] == k[b];
      }
      forall a, b | 0 <= a < |k| && 0 <= b < |l| ensures MayFollow(deps, k[a], l[b]) {
        assert m[a] == k[a] && m[|k| + b] == l[b];
      }
      forall i | 0 <= i < |k| ensures k[i] < |deps| { assert m[i] == k[i]; }
      forall i | 0 <= i < |l| ensures l[i] < |deps| { assert m[|k| + i] == l[i]; }
    }
  }

  lemma CrossConcat(deps: seq<set<nat>>, k: seq<nat>, l: seq<nat>, m: seq<nat>)
    ensures Cross(deps, k, l + m) <==> Cross(deps, k, l) && Cross(deps, k, m)
    ensures Cross(deps, l + m, k) <==> Cross(deps, l, k) && Cross(deps, m, k)
  {
    var lm := l + m;
    forall b | 0 <= b < |l| ensures lm[b] == l[b] {}
    forall b | 0 <= b < |m| ensures lm[|l| + b] == m[b] {}
    if Cross(deps, k, lm) {
      forall a, b | 0 <= a < |k| && 0 <= b < |m| ensures MayFollow(deps, k[a], m[b]) { assert lm[|l| + b] == m[b]; }
      forall a, b | 0 <= a < |k| && 0 <= b < |l| ensures MayFollow(deps, k[a], l[b]) { assert lm[b] == l[b]; }
    }
    if Cross(deps, lm, k) {
      forall a, b | 0 <= a < |m| && 0 <= b < |k| ensures MayFollow(deps, m[a], k[b]) { assert lm[|l| + a] == m[a]; }
      forall a, b | 0 <= a < |l| && 0 <= b < |k| ensures MayFollow(deps, l[a], k[b]) { assert lm[a] == l[a]; }
    }
  }

  /** What a group depends on. */
  ghost function DepsOf(deps: seq<set<nat>>, g: seq<nat>): set<nat>
    requires Known(deps, g)
  {
    if g == [] then {} else DepsOf(deps, g[..|g| - 1]) + deps[g[|g| - 1]]
  }

  lemma {:induction false} InDepsOf(deps: seq<set<nat>>, g: seq<nat>, y: nat)
    requires Known(deps, g)
    ensures y in DepsOf(deps, g) <==> exists i :: 0 <= i < |g| && y in deps[g[i]]
  {
    if g != [] { InDepsOf(deps, g[..|g| - 1], y); }
  }

  lemma {:induction false} DepsOfConcat(deps: seq<set<nat>>, g: seq<nat>, h: seq<nat>)
    requires Known(deps, g) && Known(deps, h)
    ensures Known(deps, g + h) && DepsOf(deps, g + h) == DepsOf(deps, g) + DepsOf(deps, h)
  {
    if h == [] {
      assert g + h == g;
    } else {
      var n := |g + h| - 1;
      DepsOfConcat(deps, g, h[..|h| - 1]);
      assert (g + h)[..n] == g + h[..|h| - 1] && (g + h)[n] == h[|h| - 1];
    }
  }

  /** Whether group c depends on group p. */
  ghost predicate DependsOn(deps: seq<set<nat>>, c: seq<nat>, p: seq<nat>)
    requires Known(deps, c)
  {
    DepsOf(deps, c) * Elems(p) != {}
  }

  /** Two adjacent groups may be swapped if the second does not depend on the first. */
  lemma SwapInOrder(deps: seq<set<nat>>, a: seq<nat>, p: seq<nat>, c: seq<nat>, b: seq<nat>)
    requires InOrder(deps, a + (p + (c + b))) && Known(deps, c) && !DependsOn(deps, c, p)
    ensures InOrder(deps, a + (c + (p + b)))
  {
    InOrderConcat(deps, a, p + (c + b));
    InOrderConcat(deps, p, c + b);
    InOrderConcat(deps, c, b);
    CrossConcat(deps, a, p, c + b);
    CrossConcat(deps, a, c, b);
    CrossConcat(deps, p, c, b);
    forall i, j | 0 <= i < |c| && 0 <= j < |p| ensures MayFollow(deps, c[i], p[j]) {
      assert MayFollow(deps, p[j], c[i]);
      InDepsOf(deps, c, p[j]);
      assert p[j] !in DepsOf(deps, c) * Elems(p);
    }
    CrossConcat(deps, a, c, p + b);
    CrossConcat(deps, a, p, b);
    CrossConcat(deps, c, p, b);
    InOrderConcat(deps, p, b);
    InOrderConcat(deps, c, p + b);
    InOrderConcat(deps, a, c + (p + b));
  }

  // ----- The pass -----

  ghost predicate Ready(fr: seq<FeeFrac>, deps: seq<set<nat>>, l: seq<nat>) {
    Known(deps, l) && InRange(fr, l)
  }

  ghost predicate AllReady(fr: seq<FeeFrac>, deps: seq<set<nat>>, groups: seq<seq<nat>>) {
    forall i :: 0 <= i < |groups| ==> groups[i] != [] && Ready(fr, deps, groups[i])
  }

  /** The group c moves forward past, or takes in, the groups before it of lower feerate. */
  ghost function Bubble(fr: seq<FeeFrac>, deps: seq<set<nat>>, before: seq<seq<nat>>, c: seq<nat>,
                        after: seq<seq<nat>>): (r: seq<seq<nat>>)
    requires AllReady(fr, deps, before) && c != [] && Ready(fr, deps, c) && AllReady(fr, deps, after)
    ensures AllReady(fr, deps, r)
    decreases |before|
  {
    var n := |before| - 1;
    if before == [] || !Higher(FeeSum(fr, c), FeeSum(fr, before[n])) then before + [c] + after
    else if DependsOn(deps, c, before[n]) then
      InRangeConcat(fr, before[n], c);
      Bubble(fr, deps, before[..n], before[n] + c, after)
    else Bubble(fr, deps, before[..n], c, [before[n]] + after)
  }

  ghost predicate Related(deps: seq<set<nat>>, x: nat, y: nat) {
    (x < |deps| && y in deps[x]) || (y < |deps| && x in deps[y])
  }

  ghost predicate Bound(deps: seq<set<nat>>, s: set<nat>, a: set<nat>) {
    exists x, y :: x in a && y in s - a && Related(deps, x, y)
  }

  /** The set is connected: some dependency links any part of it to the rest. */
  ghost predicate Linked(deps: seq<set<nat>>, s: set<nat>) {
    forall a: set<nat> {:trigger Bound(deps, s, a)} :: a <= s && a != {} && a != s ==> Bound(deps, s, a)
  }

  lemma JoinLinked(deps: seq<set<nat>>, p: seq<nat>, c: seq<nat>)
    requires Known(deps, c) && Linked(deps, Elems(p)) && Linked(deps, Elems(c)) && DependsOn(deps, c, p)
    ensures Linked(deps, Elems(p + c))
  {
    var sp, sc, s := Elems(p), Elems(c), Elems(p + c);
    assert s == sp + sc;
    var y :| y in DepsOf(deps, c) * sp;
    InDepsOf(deps, c, y);
    var i :| 0 <= i < |c| && y in deps[c[i]];
    assert Related(deps, c[i], y) && c[i] in sc;
    forall a: set<nat> | a <= s && a != {} && a != s ensures Bound(deps, s, a) {
      if a * sp != {} && a * sp != sp {
        assert Bound(deps, sp, a * sp);
        var u, v :| u in a * sp && v in sp - a * sp && Related(deps, u, v);
        assert v in s - a;
      } else if a * sc != {} && a * sc != sc {
        assert Bound(deps, sc, a * sc);
        var u, v :| u in a * sc && v in sc - a * sc && Related(deps, u, v);
        assert v in s - a;
      } else if a * sp == sp {
        assert a * sc == {};
        assert y in a * sp && c[i] !in a * sc;
        assert y in a && c[i] in s - a && Related(deps, y, c[i]);
      } else {
        forall x | x in a ensures x in sc { assert x !in a * sp; }
        assert a * sc == a;
        assert c[i] in a * sc && y !in a * sp;
        assert c[i] in a && y in s - a;
      }
    }
  }

  ghost predicate GroupOk(fr: seq<FeeFrac>, deps: seq<set<nat>>, g: seq<nat>) {
    g != [] && Ready(fr, deps, g) && Solid(fr, g) && Linked(deps, Elems(g))
  }

  ghost predicate GroupsOk(fr: seq<FeeFrac>, deps: seq<set<nat>>, groups: seq<seq<nat>>) {
    forall i :: 0 <= i < |groups| ==> GroupOk(fr, deps, groups[i])
  }

  ghost function GroupRate(fr: seq<FeeFrac>, g: seq<nat>): real {
    if InRange(fr, g) then Rate(FeeSum(fr, g)) else 0.0
  }

  ghost predicate Descending(fr: seq<FeeFrac>, groups: seq<seq<nat>>) {
    forall i, j :: 0 <= i < j < |groups| ==> GroupRate(fr, groups[i]) >= GroupRate(fr, groups[j])
  }

  /** Sorted groups of a list in order, each solid and connected. */
  ghost predicate PassOk(fr: seq<FeeFrac>, deps: seq<set<nat>>, groups: seq<seq<nat>>) {
    GroupsOk(fr, deps, groups) && InOrder(deps, Flatten(groups)) && Descending(fr, groups)
  }

  /** In the middle of a pass, with c on its way forward. */
  ghost predicate Moving(fr: seq<FeeFrac>, deps: seq<set<nat>>, before: seq<seq<nat>>, c: seq<nat>,
                         after: seq<seq<nat>>) {
    && GroupsOk(fr, deps, before) && GroupOk(fr, deps, c) && GroupsOk(fr, deps, after)
    && InOrder(deps, Flatten(before) + (c + Flatten(after)))
    && Descending(fr, before + after)
    && (after != [] ==> GroupRate(fr, after[0]) <= GroupRate(fr, c))
  }

  lemma HigherIsRate(fr: seq<FeeFrac>, c: seq<nat>, p: seq<nat>)
    requires c != [] && p != [] && InRange(fr, c) && InRange(fr, p)
    ensures Higher(FeeSum(fr, c), FeeSum(fr, p)) <==> GroupRate(fr, c) > GroupRate(fr, p)
  {
    FeeSumSize(fr, c);
    FeeSumSize(fr, p);
    CompareIsRate(FeeSum(fr, c), FeeSum(fr, p));
  }

  ghost predicate AllAbove(fr: seq<FeeFrac>, a: seq<seq<nat>>, b: seq<seq<nat>>) {
    forall i, j :: 0 <= i < |a| && 0 <= j < |b| ==> GroupRate(fr, a[i]) >= GroupRate(fr, b[j])
  }

  lemma DescendingConcat(fr: seq<FeeFrac>, a: seq<seq<nat>>, b: seq<seq<nat>>)
    ensures Descending(fr, a + b) <==> Descending(fr, a) && Descending(fr, b) && AllAbove(fr, a, b)
  {
    var all := a + b;
    if Descending(fr, all) {
      forall i, j | 0 <= i < j < |a| ensures GroupRate(fr, a[i]) >= GroupRate(fr, a[j]) {
        assert all[i] == a[i] && all[j] == a[j];
      }
      forall i, j | 0 <= i < j < |b| ensures GroupRate(fr, b[i]) >= GroupRate(fr, b[j]) {
        assert all[|a| + i] == b[i] && all[|a| + j] == b[j];
      }
      forall i, j | 0 <= i < |a| && 0 <= j < |b| ensures GroupRate(fr, a[i]) >= GroupRate(fr, b[j]) {
        assert all[i] == a[i] && all[|a| + j] == b[j];
      }
    }
  }

  lemma DescendingWithout(fr: seq<FeeFrac>, front: seq<seq<nat>>, p: seq<nat>, after: seq<seq<nat>>)
    requires Descending(fr, front + ([p] + after))
    ensures Descending(fr, front + after) && (after != [] ==> GroupRate(fr, after[0]) <= GroupRate(fr, p))
    ensures AllAbove(fr, front, [p])
  {
    DescendingConcat(fr, front, [p] + after);
    DescendingConcat(fr, [p], after);
    DescendingConcat(fr, front, after);
    var pa := [p] + after;
    forall j | 0 <= j < |after| ensures pa[j + 1] == after[j] {}
    assert pa[0] == p == [p][0];
  }

  lemma DescendingWith(fr: seq<FeeFrac>, before: seq<seq<nat>>, c: seq<nat>, after: seq<seq<nat>>)
    requires Descending(fr, before + after)
    requires after != [] ==> GroupRate(fr, after[0]) <= GroupRate(fr, c)
    requires before != [] ==> GroupRate(fr, c) <= GroupRate(fr, before[|before| - 1])
    ensures Descending(fr, before + [c] + after)
  {
    DescendingConcat(fr, before, after);
    forall i | 0 <= i < |before| ensures GroupRate(fr, before[i]) >= GroupRate(fr, c) {}
    forall j | 0 <= j < |after| ensures GroupRate(fr, c) >= GroupRate(fr, after[j]) {}
    DescendingConcat(fr, before, [c]);
    DescendingConcat(fr, before + [c], after);
  }

  /** The last group before c, and the rest. */
  lemma MovingParts(fr: seq<FeeFrac>, deps: seq<set<nat>>, before: seq<seq<nat>>, c: seq<nat>, after: seq<seq<nat>>)
    requires Moving(fr, deps, before, c, after) && before != []
    ensures var front, p := before[..|before| - 1], before[|before| - 1];
      && GroupsOk(fr, deps, front) && GroupOk(fr, deps, p)
      && InOrder(deps, Flatten(front) + (p + (c + Flatten(after))))
      && Descending(fr, front + after) && Descending(fr, front + ([p] + after))
      && (after != [] ==> GroupRate(fr, after[0]) <= GroupRate(fr, p))
  {
    var front, p := before[..|before| - 1], before[|before| - 1];
    FlattenLast(before);
    assert Flatten(before) + (c + Flatten(after)) == Flatten(front) + (p + (c + Flatten(after)));
    assert before + after == front + ([p] + after);
    DescendingWithout(fr, front, p, after);
  }

  lemma MergeMoving(fr: seq<FeeFrac>, deps: seq<set<nat>>, before: seq<seq<nat>>, c: seq<nat>, after: seq<seq<nat>>)
    requires Moving(fr, deps, before, c, after) && before != []
    requires Higher(FeeSum(fr, c), FeeSum(fr, before[|before| - 1])) && DependsOn(deps, c, before[|before| - 1])
    ensures Moving(fr, deps, before[..|before| - 1], before[|before| - 1] + c, after)
  {
    var front, p := before[..|before| - 1], before[|before| - 1];
    MovingParts(fr, deps, before, c, after);
    MergeGroups(fr, deps, p, c);
    ConcatAssociative(Flatten(front), p, c, Flatten(after));
  }

  lemma ConcatAssociative(a: seq<nat>, b: seq<nat>, c: seq<nat>, d: seq<nat>)
    ensures a + (b + (c + d)) == a + ((b + c) + d)
  {
    assert b + (c + d) == (b + c) + d;
  }

  lemma MergeGroups(fr: seq<FeeFrac>, deps: seq<set<nat>>, p: seq<nat>, c: seq<nat>)
    requires GroupOk(fr, deps, p) && GroupOk(fr, deps, c)
    requires Higher(FeeSum(fr, c), FeeSum(fr, p)) && DependsOn(deps, c, p)
    ensures GroupOk(fr, deps, p + c) && GroupRate(fr, p) < GroupRate(fr, p + c) < GroupRate(fr, c)
  {
    InRangeConcat(fr, p, c);
    DepsOfConcat(deps, p, c);
    JoinSolid(fr, p, c);
    JoinLinked(deps, p, c);
  }

  lemma SwapMoving(fr: seq<FeeFrac>, deps: seq<set<nat>>, before: seq<seq<nat>>, c: seq<nat>, after: seq<seq<nat>>)
    requires Moving(fr, deps, before, c, after) && before != []
    requires Higher(FeeSum(fr, c), FeeSum(fr, before[|before| - 1])) && !DependsOn(deps, c, before[|before| - 1])
    ensures Moving(fr, deps, before[..|before| - 1], c, [before[|before| - 1]] + after)
  {
    var front, p := before[..|before| - 1], before[|before| - 1];
    MovingParts(fr, deps, before, c, after);
    SwapInOrder(deps, Flatten(front), p, c, Flatten(after));
    assert ([p] + after)[1..] == after;
    HigherIsRate(fr, c, p);
  }

  lemma StopMoving(fr: seq<FeeFrac>, deps: seq<set<nat>>, before: seq<seq<nat>>, c: seq<nat>, after: seq<seq<nat>>)
    requires Moving(fr, deps, before, c, after)
    requires before == [] || !Higher(FeeSum(fr, c), FeeSum(fr, before[|before| - 1]))
    ensures PassOk(fr, deps, before + [c] + after)
  {
    FlattenAround(before, c, after);
    GroupsOkInsert(fr, deps, before, c, after);
    if before != [] { HigherIsRate(fr, c, before[|before| - 1]); }
    DescendingWith(fr, before, c, after);
  }

  lemma FlattenAround(before: seq<seq<nat>>, c: seq<nat>, after: seq<seq<nat>>)
    ensures Flatten(before + [c] + after) == Flatten(before) + (c + Flatten(after))
  {
    FlattenConcat(before + [c], after);
    FlattenSnoc(before, c);
    assert (Flatten(before) + c) + Flatten(after) == Flatten(before) + (c + Flatten(after));
  }

  lemma GroupsOkInsert(fr: seq<FeeFrac>, deps: seq<set<nat>>, before: seq<seq<nat>>, c: seq<nat>, after: seq<seq<nat>>)
    requires GroupsOk(fr, deps, before) && GroupOk(fr, deps, c) && GroupsOk(fr, deps, after)
    ensures GroupsOk(fr, deps, before + [c] + after)
  {
    var all, n := before + [c] + after, |before|;
    forall i | 0 <= i < |all| ensures GroupOk(fr, deps, all[i]) {
      assert all[i] == if i < n then before[i] else if i == n then c else after[i - n - 1];
    }
  }

  /** The groups that a pass over s makes. */
  ghost function PassGroups(fr: seq<FeeFrac>, deps: seq<set<nat>>, s: seq<nat>): (groups: seq<seq<nat>>)
    requires Ready(fr, deps, s)
    ensures AllReady(fr, deps, groups)
  {
    if s == [] then []
    else Bubble(fr, deps, PassGroups(fr, deps, s[..|s| - 1]), [s[|s| - 1]], [])
  }
}
