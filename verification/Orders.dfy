/** Linearizations of a cluster: orders of all its transactions with every parent before its child. */
module Orders {
  import opened Basics
  import opened FeeFracs
  import opened Sums
  import opened Chunking
  import opened Forests
  import opened Merging
  import opened Loading

  ghost function Elems(l: seq<nat>): set<nat> {
    set x | x in l
  }

  ghost predicate IsLinearization(k: Cluster, l: seq<nat>) {
    && Distinct(l) && Elems(l) == k.txs
    && (forall i, a, b :: 0 <= i < |k.deps| && 0 <= a < |l| && 0 <= b < |l| ==>
          (l[a] == k.deps[i].parent && l[b] == k.deps[i].child ==> a < b))
  }

  lemma PrefixClosed(k: Cluster, l: seq<nat>, j: nat)
    requires ClusterOk(k) && IsLinearization(k, l) && j <= |l|
    ensures AncestorClosed(k, Elems(l[..j]))
  {
    assert Elems(l[..j]) <= Elems(l);
    forall i | 0 <= i < |k.deps| && k.deps[i].child in Elems(l[..j]) ensures k.deps[i].parent in Elems(l[..j]) {
      var b :| 0 <= b < j && l[b] == k.deps[i].child;
      assert k.deps[i].parent in Elems(l);
      var a :| 0 <= a < |l| && l[a] == k.deps[i].parent;
      assert l[..j][a] == k.deps[i].parent;
    }
  }

  lemma ElemsNext(l: seq<nat>, j: nat)
    requires Distinct(l) && j < |l|
    ensures Elems(l[..j + 1]) == Elems(l[..j]) + {l[j]} && l[j] !in Elems(l[..j])
  {
    assert l[..j + 1] == l[..j] + [l[j]];
  }

  lemma DistinctConcat(a: seq<nat>, b: seq<nat>)
    requires Distinct(a) && Distinct(b) && Elems(a) !! Elems(b)
    ensures Distinct(a + b) && Elems(a + b) == Elems(a) + Elems(b)
  {
    var c := a + b;
    forall i, j | 0 <= i < j < |c| ensures c[i] != c[j] {
      if i < |a| && j >= |a| { assert c[i] in Elems(a) && c[j] in Elems(b); }
    }
  }

  lemma LinearizationInRange(k: Cluster, l: seq<nat>)
    requires ClusterOk(k) && Elems(l) <= k.txs
    ensures InRange(k.fr, l)
  {
    forall i | 0 <= i < |l| ensures l[i] < |k.fr| && k.fr[l[i]].size > 0 { assert l[i] in Elems(l); }
  }

  /** The fee and size of a list without repetition are those of the set of its elements. */
  lemma {:induction false} FeeSumIsFeeRate(fr: seq<FeeFrac>, l: seq<nat>)
    requires Distinct(l) && InRange(fr, l)
    ensures FeeSum(fr, l) == FeeRate(fr, Elems(l))
  {
    if l == [] {
      assert Elems(l) == {};
      FeeRateEmpty(fr);
    } else {
      var n := |l| - 1;
      FeeSumIsFeeRate(fr, l[..n]);
      ElemsNext(l, n);
      assert l[..n + 1] == l;
      FeeRateUnion(fr, Elems(l[..n]), {l[n]});
      FeeRateSingle(fr, l[n]);
    }
  }

  /** Every prefix of l up to j is below every supporting line of the chunks of f within d. */
  ghost predicate PrefixesBelow(k: Cluster, f: Forest, l: seq<nat>, j: nat, d: set<nat>)
    requires Shaped(k, f) && j <= |l| && InRange(k.fr, l)
  {
    forall r: real, m: nat :: m <= j ==> Excess(FeeSum(k.fr, l[..m]), r) <= TotalGain(k, f, false, r, d)
  }

  /** Loading one more transaction keeps every prefix below. */
  lemma PrefixesNext(k: Cluster, f: Forest, l: seq<nat>, j: nat, g: Forest)
    requires ClusterOk(k) && IsLinearization(k, l) && InRange(k.fr, l) && j < |l|
    requires Loaded(k, f, Elems(l[..j])) && PrefixesBelow(k, f, l, j, Elems(l[..j]))
    requires Loaded(k, g, Elems(l[..j + 1]))
    requires forall r: real :: TotalGain(k, g, false, r, Elems(l[..j + 1])) >= TotalGain(k, f, false, r, Elems(l[..j]))
    ensures PrefixesBelow(k, g, l, j + 1, Elems(l[..j + 1]))
  {
    forall r: real, m: nat | m <= j + 1
      ensures Excess(FeeSum(k.fr, l[..m]), r) <= TotalGain(k, g, false, r, Elems(l[..j + 1]))
    {
      if m <= j {
        assert Excess(FeeSum(k.fr, l[..m]), r) <= TotalGain(k, f, false, r, Elems(l[..j]));
      } else {
        FeeSumIsFeeRate(k.fr, l[..m]);
        WholeBelowGain(k, g, Elems(l[..m]), r);
      }
    }
  }
}
