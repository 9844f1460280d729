/** Producing a linearization from a forest state, GetLinearization, src/cluster_linearize.h:1071-1175. */
module Output {
  import opened Basics
  import opened FeeFracs
  import opened Sums
  import opened Diagrams
  import opened Chunking
  import opened Trees
  import opened Forests
  import opened Merging
  import opened Orders

  /** What GetLinearization reads: the transactions, their parents and children, and their chunks. */
  datatype View = View(txs: set<nat>, parents: seq<set<nat>>, children: seq<set<nat>>, rep: seq<nat>,
                       chunk: seq<SetInfo>)

  /** v shows state f of cluster k, whose dependencies go up in rank from parent to child. */
  ghost predicate ViewOk(k: Cluster, f: Forest, v: View, rank: seq<nat>) {
    && Consistent(k, f) && Topological(k, f, k.txs)
    && v.txs == k.txs && v.rep == f.rep && v.chunk == f.chunk
    && |v.parents| == |v.children| == |v.rep| == |rank|
    && (forall c, p :: c in v.txs ==> (p in v.parents[c] <==> Dep(p, c) in k.deps))
    && (forall c, p :: p in v.txs ==> (c in v.children[p] <==> Dep(p, c) in k.deps))
    && (forall d :: d in k.deps ==> d.parent in v.txs && d.child in v.txs && rank[d.parent] < rank[d.child])
  }

  /** The pending dependencies of the chunk with representative r on other chunks. */
  ghost function Out(rep: seq<nat>, pending: set<Dep>, r: nat): set<Dep> {
    set d | d in pending && d.child < |rep| && d.parent < |rep| && rep[d.child] == r && rep[d.parent] != r
  }

  /** The pending dependencies of transaction x. */
  ghost function In(pending: set<Dep>, x: nat): set<Dep> {
    set d | d in pending && d.child == x
  }

  ghost function From(ps: set<nat>, c: nat): set<Dep> {
    set p | p in ps :: Dep(p, c)
  }

  lemma {:induction false} FromSize(ps: set<nat>, c: nat)
    ensures |From(ps, c)| == |ps|
  {
    if ps == {} {
      assert From(ps, c) == {};
    } else {
      var p :| p in ps;
      FromSize(ps - {p}, c);
      assert From(ps, c) == From(ps - {p}, c) + {Dep(p, c)};
    }
  }

  /** Whether dependency d leaves the chunk with representative r. */
  predicate Leaves(rep: seq<nat>, d: Dep, r: nat) {
    d.child < |rep| && d.parent < |rep| && rep[d.child] == r && rep[d.parent] != r
  }

  lemma OutAdd(rep: seq<nat>, pending: set<Dep>, d: Dep, r: nat)
    requires d !in pending
    ensures |Out(rep, pending + {d}, r)| == |Out(rep, pending, r)| + if Leaves(rep, d, r) then 1 else 0
  {
    if Leaves(rep, d, r) {
      assert Out(rep, pending + {d}, r) == Out(rep, pending, r) + {d};
    } else {
      assert Out(rep, pending + {d}, r) == Out(rep, pending, r);
    }
  }

  /** The counters: first[r] counts the pending dependencies out of the chunk of r, second[x] those of x. */
  ghost predicate Counts(rep: seq<nat>, first: seq<nat>, second: seq<nat>, pending: set<Dep>) {
    && |first| == |second| == |rep|
    && (forall r {:trigger first[r]} :: 0 <= r < |rep| ==> first[r] == |Out(rep, pending, r)|)
    && (forall x {:trigger second[x]} :: 0 <= x < |rep| ==> second[x] == |In(pending, x)|)
  }

  ghost predicate OutCounts(rep: seq<nat>, first: seq<nat>, pending: set<Dep>) {
    |first| == |rep| && forall r {:trigger first[r]} :: 0 <= r < |rep| ==> first[r] == |Out(rep, pending, r)|
  }

  /** Count one transaction's dependencies on other chunks. */
  method CountOut(rep: seq<nat>, parents: set<nat>, c: nat, first0: seq<nat>, ghost pending: set<Dep>)
    returns (first: seq<nat>)
    requires c < |rep| && rep[c] < |rep| && (forall p :: p in parents ==> p < |rep|)
    requires OutCounts(rep, first0, pending) && forall d :: d in pending ==> d.child != c
    ensures OutCounts(rep, first, pending + From(parents, c))
  {
    first := first0;
    ghost var done: set<nat> := {};
    ghost var now := pending;
    for p := 0 to |rep|
      invariant done <= parents && (forall x :: x in done ==> x < p)
                && (forall x :: x in parents && x < p ==> x in done)
      invariant now == pending + From(done, c) && OutCounts(rep, first, now)
    {
      if p in parents {
        ghost var d := Dep(p, c);
        forall r | 0 <= r < |rep|
          ensures |Out(rep, now + {d}, r)| == |Out(rep, now, r)| + if Leaves(rep, d, r) then 1 else 0
        {
          OutAdd(rep, now, d, r);
        }
        first := first[rep[c] := first[rep[c]] + if rep[p] != rep[c] then 1 else 0];
        assert From(done + {p}, c) == From(done, c) + {d};
        now := now + {d};
        done := done + {p};
      }
    }
    assert done == parents;
  }

  /** Count the dependencies of every chunk and of every transaction. */
  method CountDeps(v: View, ghost k: Cluster, ghost f: Forest, ghost rank: seq<nat>)
    returns (first: seq<nat>, second: seq<nat>, ghost pending: set<Dep>)
    requires ViewOk(k, f, v, rank)
    ensures Counts(v.rep, first, second, pending)
    ensures forall d :: d in pending <==> d in k.deps
  {
    first, second, pending := seq(|v.rep|, _ => 0), seq(|v.rep|, _ => 0), {};
    assert Counts(v.rep, first, second, pending) by {
      forall r: nat ensures Out(v.rep, pending, r) == {} && In(pending, r) == {} {}
    }
    for c := 0 to |v.rep|
      invariant Counts(v.rep, first, second, pending)
      invariant forall d :: d in pending <==> d in k.deps && d.child < c
    {
      if c in v.txs {
        second := second[c := |v.parents[c]|];
        first := CountOut(v.rep, v.parents[c], c, first, pending);
        CountIn(v.rep, pending, v.parents[c], c);
        pending := pending + From(v.parents[c], c);
      }
    }
  }

  lemma CountIn(rep: seq<nat>, pending: set<Dep>, parents: set<nat>, c: nat)
    requires forall d :: d in pending ==> d.child != c
    ensures |In(pending + From(parents, c), c)| == |parents|
    ensures forall x :: x != c ==> In(pending + From(parents, c), x) == In(pending, x)
  {
    FromSize(parents, c);
    assert In(pending + From(parents, c), c) == From(parents, c);
  }

  /** The transactions of txn, not yet emitted, that have no pending dependencies. */
  ghost function ReadyTx(txn: set<nat>, pending: set<Dep>, emitted: set<nat>): set<nat> {
    set x | x in txn && x !in emitted && In(pending, x) == {}
  }

  /** The chunks, not yet begun, that have no pending dependencies on other chunks. */
  ghost function ReadyChunks(v: View, pending: set<Dep>, begun: set<nat>): set<nat> {
    set r | r in v.txs && r < |v.rep| && v.rep[r] == r && r !in begun && Out(v.rep, pending, r) == {}
  }

  /** Nothing emitted has pending dependencies, and no chunk begun has any on other chunks. */
  ghost predicate NothingMissed(v: View, pending: set<Dep>, emitted: set<nat>, begun: set<nat>) {
    && (forall x :: x in emitted ==> In(pending, x) == {})
    && (forall r :: r in begun ==> Out(v.rep, pending, r) == {})
  }

  /** The counters once dependency d is met. */
  ghost predicate Met(rep: seq<nat>, first: seq<nat>, second: seq<nat>, d: Dep, first': seq<nat>, second': seq<nat>) {
    && |first| == |second| == |rep| && d.child < |rep| && d.parent < |rep| && rep[d.child] < |rep|
    && second[d.child] > 0 && second' == second[d.child := second[d.child] - 1]
    && (rep[d.parent] == rep[d.child] ==> first' == first)
    && (rep[d.parent] != rep[d.child] ==>
          first[rep[d.child]] > 0 && first' == first[rep[d.child] := first[rep[d.child]] - 1])
  }

  lemma InWithout(pending: set<Dep>, d: Dep, x: nat)
    requires d in pending
    ensures In(pending - {d}, x) == In(pending, x) - {d}
    ensures |In(pending, x)| == |In(pending - {d}, x)| + if x == d.child then 1 else 0
  {
    if x == d.child {
      assert In(pending, x) == In(pending - {d}, x) + {d};
    } else {
      assert In(pending, x) == In(pending - {d}, x);
    }
  }

  lemma OutWithout(rep: seq<nat>, pending: set<Dep>, d: Dep, r: nat)
    requires d in pending
    ensures Out(rep, pending - {d}, r) == Out(rep, pending, r) - {d}
    ensures |Out(rep, pending, r)| == |Out(rep, pending - {d}, r)| + if Leaves(rep, d, r) then 1 else 0
  {
    assert pending - {d} + {d} == pending;
    OutAdd(rep, pending - {d}, d, r);
  }

  lemma MeetCounts(rep: seq<nat>, first: seq<nat>, second: seq<nat>, pending: set<Dep>, d: Dep, first': seq<nat>,
                   second': seq<nat>)
    requires Counts(rep, first, second, pending) && d in pending && Met(rep, first, second, d, first', second')
    ensures Counts(rep, first', second', pending - {d})
  {
    forall r | 0 <= r < |rep| ensures first'[r] == |Out(rep, pending - {d}, r)| { OutWithout(rep, pending, d, r); }
    forall x | 0 <= x < |rep| ensures second'[x] == |In(pending - {d}, x)| { InWithout(pending, d, x); }
  }

  lemma MeetReadyTx(rep: seq<nat>, first: seq<nat>, second: seq<nat>, pending: set<Dep>, txn: set<nat>,
                    emitted: set<nat>, d: Dep)
    requires Counts(rep, first, second, pending - {d}) && d in pending && d.child < |rep|
    requires forall x :: x in emitted ==> In(pending, x) == {}
    ensures forall x :: x in emitted ==> In(pending - {d}, x) == {}
    ensures ReadyTx(txn, pending - {d}, emitted) ==
      ReadyTx(txn, pending, emitted) + if second[d.child] == 0 && d.child in txn then {d.child} else {}
  {
    assert d in In(pending, d.child);
    forall x: nat ensures In(pending - {d}, x) == In(pending, x) - {d} { InWithout(pending, d, x); }
    forall x: nat | x != d.child ensures In(pending - {d}, x) == In(pending, x) {}
    assert In(pending - {d}, d.child) == {} <==> second[d.child] == 0;
  }

  lemma MeetReadyChunks(v: View, first: seq<nat>, second: seq<nat>, pending: set<Dep>, begun: set<nat>, d: Dep)
    requires Counts(v.rep, first, second, pending - {d}) && d in pending && d.child < |v.rep| && d.parent < |v.rep|
    requires var r := v.rep[d.child]; r < |v.rep| && r in v.txs && v.rep[r] == r
    requires forall r :: r in begun ==> Out(v.rep, pending, r) == {}
    ensures forall r :: r in begun ==> Out(v.rep, pending - {d}, r) == {}
    ensures ReadyChunks(v, pending - {d}, begun) ==
      ReadyChunks(v, pending, begun) + if v.rep[d.parent] != v.rep[d.child]
      && first[v.rep[d.child]] == 0 then {v.rep[d.child]} else {}
  {
    var c := v.rep[d.child];
    forall r: nat ensures Out(v.rep, pending - {d}, r) == Out(v.rep, pending, r) - {d} {
      OutWithout(v.rep, pending, d, r);
    }
    forall r: nat | r != c || v.rep[d.parent] == c ensures Out(v.rep, pending - {d}, r) == Out(v.rep, pending, r) {
      assert d !in Out(v.rep, pending, r);
    }
    if v.rep[d.parent] != c {
      assert d in Out(v.rep, pending, c);
      assert Out(v.rep, pending - {d}, c) == {} <==> first[c] == 0;
    }
  }

  /** Between two transactions of the output: the counters, and what is ready, agree with what is pending. */
  ghost predicate EmitOk(v: View, first: seq<nat>, second: seq<nat>, pending: set<Dep>, txn: set<nat>,
                         emitted: set<nat>, begun: set<nat>, readyTx: set<nat>, readyChunks: set<nat>) {
    && Counts(v.rep, first, second, pending) && NothingMissed(v, pending, emitted, begun)
    && readyTx == ReadyTx(txn, pending, emitted) && readyChunks == ReadyChunks(v, pending, begun)
  }

  /** What is pending once the children of tx before position c have been dealt with. */
  ghost function Unmet(pending: set<Dep>, tx: nat, c: nat): set<Dep> {
    set d | d in pending && (d.parent != tx || d.child >= c)
  }

  lemma UnmetNext(pending: set<Dep>, tx: nat, c: nat)
    ensures Unmet(pending, tx, c + 1) == Unmet(pending, tx, c) - {Dep(tx, c)}
    ensures Dep(tx, c) in pending <==> Dep(tx, c) in Unmet(pending, tx, c)
  {
  }

  /** The dependencies of the children of tx on tx are met. */
  method MeetChildren(v: View, tx: nat, txn: set<nat>, first0: seq<nat>, second0: seq<nat>, readyTx0: set<nat>,
                      readyChunks0: set<nat>, ghost k: Cluster, ghost f: Forest, ghost rank: seq<nat>,
                      ghost pending0: set<Dep>, ghost emitted: set<nat>, ghost begun: set<nat>)
    returns (first: seq<nat>, second: seq<nat>, readyTx: set<nat>, readyChunks: set<nat>, ghost pending: set<Dep>)
    requires ViewOk(k, f, v, rank) && tx in v.txs
    requires EmitOk(v, first0, second0, pending0, txn, emitted, begun, readyTx0, readyChunks0)
    requires forall c :: c in v.children[tx] ==> Dep(tx, c) in pending0
    requires forall d :: d in pending0 ==> d in k.deps
    ensures EmitOk(v, first, second, pending, txn, emitted, begun, readyTx, readyChunks)
    ensures forall d :: d in pending <==> d in pending0 && d.parent != tx
  {
    first, second, readyTx, readyChunks, pending := first0, second0, readyTx0, readyChunks0, pending0;
    for c := 0 to |v.rep|
      invariant EmitOk(v, first, second, pending, txn, emitted, begun, readyTx, readyChunks)
      invariant pending == Unmet(pending0, tx, c)
    {
      UnmetNext(pending0, tx, c);
      assert c in v.children[tx] <==> Dep(tx, c) in pending0;
      if c in v.children[tx] {
        RepInChunk(k, f, c);
        first, second, readyTx, readyChunks := MeetChild(v, tx, c, txn, first, second, readyTx, readyChunks, pending,
                                                         emitted, begun);
        pending := pending - {Dep(tx, c)};
      }
    }
  }

  /** The dependency of c on tx is met. */
  method MeetChild(v: View, tx: nat, c: nat, txn: set<nat>, first0: seq<nat>, second0: seq<nat>, readyTx0: set<nat>,
                   readyChunks0: set<nat>, ghost pending: set<Dep>, ghost emitted: set<nat>, ghost begun: set<nat>)
    returns (first: seq<nat>, second: seq<nat>, readyTx: set<nat>, readyChunks: set<nat>)
    requires EmitOk(v, first0, second0, pending, txn, emitted, begun, readyTx0, readyChunks0) && Dep(tx, c) in pending
    requires tx < |v.rep| && c < |v.rep| && v.rep[c] < |v.rep| && v.rep[c] in v.txs && v.rep[v.rep[c]] == v.rep[c]
    ensures EmitOk(v, first, second, pending - {Dep(tx, c)}, txn, emitted, begun, readyTx, readyChunks)
  {
    var r := v.rep[c];
    CountersPositive(v.rep, first0, second0, pending, Dep(tx, c));
    second := second0[c := second0[c] - 1];
    first := if v.rep[tx] != r then first0[r := first0[r] - 1] else first0;
    MeetStep(v, first0, second0, pending, txn, emitted, begun, readyTx0, readyChunks0, Dep(tx, c), first, second);
    readyTx := if second[c] == 0 && c in txn then readyTx0 + {c} else readyTx0;
    readyChunks := if v.rep[tx] != r && first[r] == 0 then readyChunks0 + {r} else readyChunks0;
  }

  lemma CountersPositive(rep: seq<nat>, first: seq<nat>, second: seq<nat>, pending: set<Dep>, d: Dep)
    requires Counts(rep, first, second, pending) && d in pending && d.child < |rep| && d.parent < |rep|
             && rep[d.child] < |rep|
    ensures second[d.child] > 0
    ensures rep[d.parent] != rep[d.child] ==> first[rep[d.child]] > 0
  {
    InWithout(pending, d, d.child);
    OutWithout(rep, pending, d, rep[d.child]);
  }

  /** Meeting dependency d: the counters, and what has become ready. */
  lemma MeetStep(v: View, first: seq<nat>, second: seq<nat>, pending: set<Dep>, txn: set<nat>, emitted: set<nat>,
                 begun: set<nat>, readyTx: set<nat>, readyChunks: set<nat>, d: Dep, first': seq<nat>, second': seq<nat>)
    requires EmitOk(v, first, second, pending, txn, emitted, begun, readyTx, readyChunks)
    requires d in pending && Met(v.rep, first, second, d, first', second')
    requires v.rep[d.child] in v.txs && v.rep[v.rep[d.child]] == v.rep[d.child]
    ensures |first'| == |second'| == |v.rep|
    ensures EmitOk(v, first', second', pending - {d}, txn, emitted, begun,
      if second'[d.child] == 0 && d.child in txn then readyTx + {d.child} else readyTx,
      if v.rep[d.parent] != v.rep[d.child] && first'[v.rep[d.child]] == 0 then readyChunks + {v.rep[d.child]}
      else readyChunks)
  {
    assert readyTx + {} == readyTx && readyChunks + {} == readyChunks;
    MeetCounts(v.rep, first, second, pending, d, first', second');
    MeetReadyTx(v.rep, first', second', pending, txn, emitted, d);
    MeetReadyChunks(v, first', second', pending, begun, d);
  }

  /** Every dependency of a transaction in out is on one of before, or on one earlier in out. */
  ghost predicate ParentsFirst(k: Cluster, before: set<nat>, out: seq<nat>) {
    forall d, b :: d in k.deps && 0 <= b < |out| && d.child == out[b] ==> d.parent in before || d.parent in out[..b]
  }

  lemma {:induction false} LowestRank(s: set<nat>, rank: seq<nat>) returns (m: nat)
    requires s != {} && forall x :: x in s ==> x < |rank|
    ensures m in s && forall x :: x in s ==> rank[m] <= rank[x]
  {
    var y :| y in s;
    if s == {y} {
      m := y;
    } else {
      var n := LowestRank(s - {y}, rank);
      m := if rank[y] < rank[n] then y else n;
      assert forall x :: x in s ==> x == y || x in s - {y};
    }
  }

  lemma InOut(rep: seq<nat>, pending: set<Dep>, r: nat, d: Dep)
    ensures d in Out(rep, pending, r) <==> d in pending && Leaves(rep, d, r)
  {
  }

  lemma InReady(txn: set<nat>, pending: set<Dep>, emitted: set<nat>, x: nat)
    ensures x in ReadyTx(txn, pending, emitted) <==> x in txn && x !in emitted && In(pending, x) == {}
  {
  }

  /** A chunk with no pending dependencies on other chunks, and no ready transaction, is finished. */
  lemma ChunkFinished(k: Cluster, f: Forest, v: View, rank: seq<nat>, c: nat, pending: set<Dep>, emitted: set<nat>)
    requires ViewOk(k, f, v, rank) && c in v.txs && v.rep[c] == c
    requires forall d :: d in pending <==> d in k.deps && d.parent !in emitted
    requires Out(v.rep, pending, c) == {} && ReadyTx(v.chunk[c].txn, pending, emitted) == {}
    ensures v.chunk[c].txn <= emitted
  {
    var txn := v.chunk[c].txn;
    assert ChunkOk(k, f, c);
    if !(txn <= emitted) {
      forall y | y in txn - emitted ensures y < |rank| { assert y in k.txs; }
      var y :| y in txn && y !in emitted;
      assert y in txn - emitted;
      var x := LowestRank(txn - emitted, rank);
      SameChunk(k, f, c, x);
      if d :| d in In(pending, x) {
        SameChunk(k, f, c, d.parent);
        InOut(v.rep, pending, c, d);
        assert false;
      }
      InReady(txn, pending, emitted, x);
      assert false;
    }
  }

  /** Output the transactions of a chunk that depends on nothing pending, each when it is ready. */
  method EmitChunk(v: View, c: nat, first0: seq<nat>, second0: seq<nat>, readyChunks0: set<nat>,
                   ghost k: Cluster, ghost f: Forest, ghost rank: seq<nat>, ghost pending0: set<Dep>,
                   ghost emitted0: set<nat>, ghost begun: set<nat>)
    returns (out: seq<nat>, first: seq<nat>, second: seq<nat>, readyChunks: set<nat>, ghost pending: set<Dep>)
    requires ViewOk(k, f, v, rank) && c in v.txs && v.rep[c] == c && c in begun
    requires EmitOk(v, first0, second0, pending0, {}, emitted0, begun, {}, readyChunks0)
    requires forall d :: d in pending0 <==> d in k.deps && d.parent !in emitted0
    requires v.chunk[c].txn !! emitted0
    ensures Distinct(out) && Elems(out) == v.chunk[c].txn && ParentsFirst(k, emitted0, out)
    ensures EmitOk(v, first, second, pending, {}, emitted0 + v.chunk[c].txn, begun, {}, readyChunks)
    ensures forall d :: d in pending <==> d in k.deps && d.parent !in emitted0 + v.chunk[c].txn
  {
    var txn := v.chunk[c].txn;
    assert ChunkOk(k, f, c);
    var readyTx := set x: nat | x in txn && second0[x] == 0;
    assert readyTx == ReadyTx(txn, pending0, emitted0) by {
      forall x | x in txn ensures second0[x] == 0 <==> In(pending0, x) == {} {}
    }
    out, first, second, readyChunks, pending := [], first0, second0, readyChunks0, pending0;
    ghost var emitted := emitted0;
    while readyTx != {}
      invariant Emitting(k, v, txn, emitted0, out, first, second, pending, emitted, begun, readyTx, readyChunks)
      decreases txn - emitted
    {
      out, first, second, readyTx, readyChunks, pending, emitted :=
        EmitNext(v, txn, out, first, second, readyTx, readyChunks, k, f, rank, pending, emitted0, emitted, begun);
    }
    ChunkFinished(k, f, v, rank, c, pending, emitted);
    assert Elems(out) == txn;
    assert ReadyTx({}, pending, emitted) == {};
  }

  /** Between two transactions of a chunk. */
  ghost predicate Emitting(k: Cluster, v: View, txn: set<nat>, emitted0: set<nat>, out: seq<nat>, first: seq<nat>,
                           second: seq<nat>, pending: set<Dep>, emitted: set<nat>, begun: set<nat>, readyTx: set<nat>,
                           readyChunks: set<nat>) {
    && EmitOk(v, first, second, pending, txn, emitted, begun, readyTx, readyChunks)
    && (forall d :: d in pending <==> d in k.deps && d.parent !in emitted)
    && Distinct(out) && Elems(out) <= txn && emitted == emitted0 + Elems(out) && ParentsFirst(k, emitted0, out)
  }

  /** Output one ready transaction. */
  method EmitNext(v: View, txn: set<nat>, out0: seq<nat>, first0: seq<nat>, second0: seq<nat>, readyTx0: set<nat>,
                  readyChunks0: set<nat>, ghost k: Cluster, ghost f: Forest, ghost rank: seq<nat>,
                  ghost pending0: set<Dep>, ghost before: set<nat>, ghost emitted0: set<nat>, ghost begun: set<nat>)
    returns (out: seq<nat>, first: seq<nat>, second: seq<nat>, readyTx: set<nat>, readyChunks: set<nat>,
             ghost pending: set<Dep>, ghost emitted: set<nat>)
    requires ViewOk(k, f, v, rank) && txn <= v.txs && readyTx0 != {} && txn !! before
    requires Emitting(k, v, txn, before, out0, first0, second0, pending0, emitted0, begun, readyTx0, readyChunks0)
    ensures Emitting(k, v, txn, before, out, first, second, pending, emitted, begun, readyTx, readyChunks)
    ensures txn - emitted < txn - emitted0
  {
    var tx :| tx in readyTx0;
    EmitTx(k, before, out0, tx, pending0);
    out, emitted := out0 + [tx], emitted0 + {tx};
    readyTx := readyTx0 - {tx};
    assert EmitOk(v, first0, second0, pending0, txn, emitted, begun, readyTx, readyChunks0);
    first, second, readyTx, readyChunks, pending :=
      MeetChildren(v, tx, txn, first0, second0, readyTx, readyChunks0, k, f, rank, pending0, emitted, begun);
    assert tx in txn - emitted0;
  }

  /** A ready transaction may come next. */
  lemma EmitTx(k: Cluster, before: set<nat>, out: seq<nat>, tx: nat, pending: set<Dep>)
    requires Distinct(out) && ParentsFirst(k, before, out) && tx !in Elems(out) && In(pending, tx) == {}
    requires forall d :: d in pending <==> d in k.deps && d.parent !in before + Elems(out)
    ensures Distinct(out + [tx]) && Elems(out + [tx]) == Elems(out) + {tx} && ParentsFirst(k, before, out + [tx])
  {
    var now := out + [tx];
    forall d, b | d in k.deps && 0 <= b < |now| && d.child == now[b]
      ensures d.parent in before || d.parent in now[..b] {
      if b < |out| {
        assert now[..b] == out[..b];
      } else {
        assert now[..b] == out;
        assert d !in In(pending, tx);
      }
    }
  }

  /** The chunk at the top of the heap: none of the ready chunks sorts after it. */
  method PickBest(chunk: seq<SetInfo>, ready: set<nat>) returns (best: nat)
    requires ready != {} && forall r :: r in ready ==> r < |chunk| && chunk[r].feerate.size > 0
    ensures best in ready && forall r :: r in ready ==> !Worse(chunk[best].feerate, chunk[r].feerate)
  {
    best :| best in ready;
    var left := ready;
    while left != {}
      invariant left <= ready && best in ready
      invariant forall r :: r in ready && r !in left ==> !Worse(chunk[best].feerate, chunk[r].feerate)
      decreases left
    {
      var x :| x in left;
      left := left - {x};
      var swap: bool := *;
      if Worse(chunk[best].feerate, chunk[x].feerate) || (swap && !Worse(chunk[x].feerate, chunk[best].feerate)) {
        forall r | r in ready && r !in left ensures !Worse(chunk[x].feerate, chunk[r].feerate) {
          WorseTransitive(chunk[r].feerate, chunk[best].feerate, chunk[x].feerate);
        }
        best := x;
      }
    }
  }

  /** Sorting no better than b is transitive. */
  lemma WorseTransitive(a: FeeFrac, b: FeeFrac, c: FeeFrac)
    requires a.size > 0 && b.size > 0 && c.size > 0
    ensures !Worse(b, a) && !Worse(c, b) ==> !Worse(c, a)
    ensures !Worse(a, a)
    ensures !Worse(a, b) ==> Rate(a) >= Rate(b)
  {
    CompareIsRate(a, b);
    CompareIsRate(b, a);
    CompareIsRate(b, c);
    CompareIsRate(c, b);
    CompareIsRate(a, c);
    CompareIsRate(c, a);
  }

  ghost predicate IsChunk(k: Cluster, f: Forest, g: seq<nat>)
    requires Shaped(k, f)
  {
    exists r :: r in Reps(k, f) && Elems(g) == f.chunk[r].txn
  }

  ghost predicate AllChunks(k: Cluster, f: Forest, groups: seq<seq<nat>>)
    requires Shaped(k, f)
  {
    forall j :: 0 <= j < |groups| ==> IsChunk(k, f, groups[j])
  }

  /** The chunks so far earn what they should and in the right order, and none that is left has a higher feerate. */
  ghost predicate OutputFees(k: Cluster, f: Forest, begun: set<nat>, groups: seq<seq<nat>>)
    requires Shaped(k, f)
  {
    && Grouped(k.fr, groups) && NonIncreasing(FeeSums(k.fr, groups))
    && (forall r: real :: Support(FeeSums(k.fr, groups), r) == Sum(Gains(f, false, r), begun))
    && (forall j, q :: 0 <= j < |groups| && q in Reps(k, f) && q !in begun ==>
          Rate(FeeSums(k.fr, groups)[j]) >= ChunkRate(k, f, q))
  }

  /** Between two chunks of the output. */
  ghost predicate OutputOk(k: Cluster, f: Forest, v: View, pending: set<Dep>, lin: seq<nat>, begun: set<nat>,
                           groups: seq<seq<nat>>) {
    && Consistent(k, f) && AllChunks(k, f, groups)
    && begun <= Reps(k, f) && Distinct(lin) && ParentsFirst(k, {}, lin)
    && (forall x :: x in Elems(lin) <==> x in k.txs && f.rep[x] in begun)
    && (forall d :: d in pending <==> d in k.deps && d.parent !in Elems(lin))
    && Flatten(groups) == lin && OutputFees(k, f, begun, groups)
  }

  lemma {:induction false} HighestRate(k: Cluster, f: Forest, s: set<nat>) returns (m: nat)
    requires Shaped(k, f) && s != {} && s <= k.txs
    ensures m in s && forall x :: x in s ==> ChunkRate(k, f, x) <= ChunkRate(k, f, m)
  {
    var y :| y in s;
    if s == {y} {
      m := y;
    } else {
      var n := HighestRate(k, f, s - {y});
      m := if ChunkRate(k, f, n) < ChunkRate(k, f, y) then y else n;
      assert forall x :: x in s ==> x == y || x in s - {y};
    }
  }

  /** A chunk that has to come before the chunk m has a higher feerate. */
  lemma HigherAbove(k: Cluster, f: Forest, v: View, rank: seq<nat>, begun: set<nat>, m: nat, d: Dep)
    requires ViewOk(k, f, v, rank) && m in Reps(k, f) && d in k.deps && f.rep[d.child] == m && f.rep[d.parent] != m
    requires f.rep[d.parent] !in begun
    ensures f.rep[d.parent] in Reps(k, f) - begun && ChunkRate(k, f, m) < ChunkRate(k, f, f.rep[d.parent])
  {
    var i :| 0 <= i < |k.deps| && k.deps[i] == d;
    assert Crosses(k, f, i);
    RepInChunk(k, f, d.parent);
  }

  /** Some ready chunk has the highest feerate of all chunks that are left, if any is. */
  lemma BestIsReady(k: Cluster, f: Forest, v: View, rank: seq<nat>, pending: set<Dep>, lin: seq<nat>, begun: set<nat>,
                    groups: seq<seq<nat>>)
    returns (m: nat)
    requires ViewOk(k, f, v, rank) && OutputOk(k, f, v, pending, lin, begun, groups)
    requires Reps(k, f) - begun != {}
    ensures m in ReadyChunks(v, pending, begun) && m in Reps(k, f) - begun
    ensures forall q :: q in Reps(k, f) - begun ==> ChunkRate(k, f, q) <= ChunkRate(k, f, m)
  {
    m := HighestRate(k, f, Reps(k, f) - begun);
    forall d | d in Out(v.rep, pending, m) ensures false {
      HigherAbove(k, f, v, rank, begun, m, d);
    }
    assert Out(v.rep, pending, m) == {};
  }

  lemma FeeSumsNext(fr: seq<FeeFrac>, groups: seq<seq<nat>>, out: seq<nat>)
    requires Grouped(fr, groups) && out != [] && InRange(fr, out)
    ensures Grouped(fr, groups + [out]) && FeeSums(fr, groups + [out]) == FeeSums(fr, groups) + [FeeSum(fr, out)]
  {
  }

  /** The next chunk has been output. */
  lemma OutputNext(k: Cluster, f: Forest, v: View, pending: set<Dep>, lin: seq<nat>, begun: set<nat>,
                   groups: seq<seq<nat>>, c: nat, out: seq<nat>, pending': set<Dep>)
    requires OutputOk(k, f, v, pending, lin, begun, groups)
    requires c in Reps(k, f) && c !in begun
             && forall q :: q in Reps(k, f) - begun ==> ChunkRate(k, f, q) <= ChunkRate(k, f, c)
    requires Distinct(out) && Elems(out) == f.chunk[c].txn && ParentsFirst(k, Elems(lin), out)
    requires forall d :: d in pending' <==> d in k.deps && d.parent !in Elems(lin) + Elems(out)
    ensures OutputOk(k, f, v, pending', lin + out, begun + {c}, groups + [out])
  {
    OutputLists(k, f, lin, begun, c, out);
    FlattenSnoc(groups, out);
    assert IsChunk(k, f, out);
    OutputFeesNext(k, f, begun, groups, c, out);
  }

  lemma OutputFeesNext(k: Cluster, f: Forest, begun: set<nat>, groups: seq<seq<nat>>, c: nat, out: seq<nat>)
    requires Consistent(k, f) && begun <= Reps(k, f) && OutputFees(k, f, begun, groups)
    requires c in Reps(k, f) && c !in begun
             && forall q :: q in Reps(k, f) - begun ==> ChunkRate(k, f, q) <= ChunkRate(k, f, c)
    requires Distinct(out) && Elems(out) == f.chunk[c].txn
    ensures OutputFees(k, f, begun + {c}, groups + [out])
  {
    assert ChunkOk(k, f, c);
    LinearizationInRange(k, out);
    FeeSumIsFeeRate(k.fr, out);
    assert out != [] by { assert c in Elems(out); }
    var cs, x := FeeSums(k.fr, groups), FeeSum(k.fr, out);
    assert x == f.chunk[c].feerate;
    ChunkSize(k, f, c);
    FeeSumsNext(k.fr, groups, out);
    if |cs| > 0 { CompareIsRate(x, cs[|cs| - 1]); }
    AppendToSorted(cs, x);
    SupportNext(k, f, begun, cs, c);
  }

  lemma SupportNext(k: Cluster, f: Forest, begun: set<nat>, cs: seq<FeeFrac>, c: nat)
    requires Consistent(k, f) && begun <= Reps(k, f) && c in Reps(k, f) && c !in begun
    requires forall r: real :: Support(cs, r) == Sum(Gains(f, false, r), begun)
    ensures forall r: real :: Support(cs + [f.chunk[c].feerate], r) == Sum(Gains(f, false, r), begun + {c})
  {
    forall r: real ensures Support(cs + [f.chunk[c].feerate], r) == Sum(Gains(f, false, r), begun + {c}) {
      SupportSnoc(cs, f.chunk[c].feerate, r);
      SumDisjoint(Gains(f, false, r), begun, {c});
      SumSingle(Gains(f, false, r), c);
    }
  }

  lemma ParentsConcat(k: Cluster, a: seq<nat>, b: seq<nat>)
    requires ParentsFirst(k, {}, a) && ParentsFirst(k, Elems(a), b)
    ensures ParentsFirst(k, {}, a + b)
  {
    var c := a + b;
    forall d, j | d in k.deps && 0 <= j < |c| && d.child == c[j] ensures d.parent in c[..j] {
      if j < |a| {
        assert c[..j] == a[..j];
      } else {
        assert c[..j] == a + b[..j - |a|];
      }
    }
  }

  lemma OutputLists(k: Cluster, f: Forest, lin: seq<nat>, begun: set<nat>, c: nat, out: seq<nat>)
    requires Consistent(k, f) && c in Reps(k, f) && c !in begun
    requires Distinct(lin) && ParentsFirst(k, {}, lin)
             && forall x :: x in Elems(lin) <==> x in k.txs && f.rep[x] in begun
    requires Distinct(out) && Elems(out) == f.chunk[c].txn && ParentsFirst(k, Elems(lin), out)
    ensures Distinct(lin + out) && ParentsFirst(k, {}, lin + out) && Elems(lin + out) == Elems(lin) + Elems(out)
    ensures forall x :: x in Elems(lin + out) <==> x in k.txs && f.rep[x] in begun + {c}
  {
    assert ChunkOk(k, f, c);
    forall x | x in k.txs ensures x in Elems(out) <==> f.rep[x] == c { SameChunk(k, f, c, x); }
    DistinctConcat(lin, out);
    ParentsConcat(k, lin, out);
  }

  lemma OutputIsLinearization(k: Cluster, lin: seq<nat>)
    requires Distinct(lin) && ParentsFirst(k, {}, lin) && Elems(lin) == k.txs
    ensures IsLinearization(k, lin)
  {
    forall i, a, b | 0 <= i < |k.deps| && 0 <= a < |lin| && 0 <= b < |lin| && lin[a] == k.deps[i].parent
      && lin[b] == k.deps[i].child
      ensures a < b
    {
      assert k.deps[i] in k.deps;
      var j :| 0 <= j < b && lin[j] == k.deps[i].parent;
    }
  }

  /** GetLinearization: the chunks by decreasing feerate, each after the chunks it depends on. */
  method GetLinearization(v: View, ghost k: Cluster, ghost f: Forest, ghost rank: seq<nat>)
    returns (lin: seq<nat>, ghost groups: seq<seq<nat>>)
    requires ViewOk(k, f, v, rank)
    ensures IsLinearization(k, lin)
    ensures Grouped(k.fr, groups) && Flatten(groups) == lin && NonIncreasing(FeeSums(k.fr, groups))
    ensures Shaped(k, f) && AllChunks(k, f, groups)
    ensures forall r: real :: Support(FeeSums(k.fr, groups), r) == TotalGain(k, f, false, r, k.txs)
  {
    var first, second;
    ghost var pending;
    first, second, pending := CountDeps(v, k, f, rank);
    ghost var begun: set<nat> := {};
    var ready := set r: nat | r in v.txs && v.rep[r] == r && first[r] == 0;
    assert ready == ReadyChunks(v, pending, begun) by {
      forall r | r in v.txs ensures first[r] == 0 <==> Out(v.rep, pending, r) == {} {}
    }
    lin, groups := [], [];
    assert OutputOk(k, f, v, pending, lin, begun, groups) by { OutputStarts(k, f, v, pending); }
    assert EmitOk(v, first, second, pending, {}, Elems(lin), begun, {},
                  ready) by { assert ReadyTx({}, pending, {}) == {}; assert Elems(lin) == {}; }
    while ready != {}
      invariant OutputOk(k, f, v, pending, lin, begun, groups)
      invariant EmitOk(v, first, second, pending, {}, Elems(lin), begun, {}, ready)
      decreases Reps(k, f) - begun
    {
      lin, groups, first, second, ready, pending, begun :=
        OutputChunk(v, first, second, ready, lin, k, f, rank, pending, begun, groups);
    }
    OutputEnds(k, f, v, rank, pending, lin, begun, groups);
  }

  /** When no chunk is ready any more, all have been output. */
  lemma OutputEnds(k: Cluster, f: Forest, v: View, rank: seq<nat>, pending: set<Dep>, lin: seq<nat>, begun: set<nat>,
                   groups: seq<seq<nat>>)
    requires ViewOk(k, f, v, rank) && OutputOk(k, f, v, pending, lin, begun, groups)
             && ReadyChunks(v, pending, begun) == {}
    ensures IsLinearization(k, lin)
    ensures forall r: real :: Support(FeeSums(k.fr, groups), r) == TotalGain(k, f, false, r, k.txs)
  {
    if Reps(k, f) - begun != {} {
      var m := BestIsReady(k, f, v, rank, pending, lin, begun, groups);
      assert false;
    }
    forall x | x in Reps(k, f) ensures x in begun { assert x !in Reps(k, f) - begun; }
    assert begun == Reps(k, f);
    assert Reps(k, f) * k.txs == Reps(k, f);
    forall x | x in k.txs ensures x in Elems(lin) { RepInChunk(k, f, x); }
    assert Elems(lin) == k.txs;
    OutputIsLinearization(k, lin);
  }

  lemma OutputStarts(k: Cluster, f: Forest, v: View, pending: set<Dep>)
    requires Consistent(k, f) && forall d :: d in pending <==> d in k.deps
    ensures OutputOk(k, f, v, pending, [], {}, [])
  {
    assert Elems([]) == {};
    forall r: real ensures Support(FeeSums(k.fr, []), r) == Sum(Gains(f, false, r), {}) {
      SumEmpty(Gains(f, false, r));
    }
  }

  /** One turn of GetLinearization: output the best of the ready chunks. */
  method OutputChunk(v: View, first0: seq<nat>, second0: seq<nat>, ready0: set<nat>, lin0: seq<nat>,
                     ghost k: Cluster, ghost f: Forest, ghost rank: seq<nat>, ghost pending0: set<Dep>,
                     ghost begun0: set<nat>, ghost groups0: seq<seq<nat>>)
    returns (lin: seq<nat>, ghost groups: seq<seq<nat>>, first: seq<nat>, second: seq<nat>, ready: set<nat>,
             ghost pending: set<Dep>, ghost begun: set<nat>)
    requires ViewOk(k, f, v, rank) && OutputOk(k, f, v, pending0, lin0, begun0, groups0)
    requires EmitOk(v, first0, second0, pending0, {}, Elems(lin0), begun0, {}, ready0) && ready0 != {}
    ensures OutputOk(k, f, v, pending, lin, begun, groups)
    ensures EmitOk(v, first, second, pending, {}, Elems(lin), begun, {}, ready)
    ensures Reps(k, f) - begun < Reps(k, f) - begun0
  {
    forall r | r in ready0 ensures r < |v.chunk| && v.chunk[r].feerate.size > 0 { ChunkSize(k, f, r); }
    var c := PickBest(v.chunk, ready0);
    assert c in Reps(k, f) - begun0;
    ghost var m := BestIsReady(k, f, v, rank, pending0, lin0, begun0, groups0);
    WorseTransitive(v.chunk[c].feerate, v.chunk[m].feerate, v.chunk[m].feerate);
    begun := begun0 + {c};
    assert ready0 - {c} == ReadyChunks(v, pending0, begun);
    var out;
    assert ChunkOk(k, f, c);
    forall x | x in v.chunk[c].txn ensures x !in Elems(lin0) { SameChunk(k, f, c, x); }
    out, first, second, ready, pending := EmitChunk(v, c, first0, second0, ready0 - {c}, k, f, rank, pending0,
                                                    Elems(lin0), begun);
    OutputNext(k, f, v, pending0, lin0, begun0, groups0, c, out, pending);
    lin, groups := lin0 + out, groups0 + [out];
    assert Elems(lin) == Elems(lin0) + Elems(out);
  }
}
