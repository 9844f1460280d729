/** The elementary changes to the tables of the address manager, and what each of them keeps. */
module AddrSteps {
  import opened AddrTables

  // ----- Counters -----

  function CountFor(s: State, n: Network): Count {
    if n in s.counts then s.counts[n] else Count(0, 0)
  }

  function AddCount(s: State, n: Network, fresh': int, tried: int): State {
    var c := CountFor(s, n);
    s.(nNew := s.nNew + fresh', nTried := s.nTried + tried,
       counts := s.counts[n := Count(c.fresh' + fresh', c.tried + tried)])
  }

  /** An address moves in or out of what is counted, and the counters follow. */
  lemma Counted(e: Env, s: State, u: set<Id>, s1: State, u': set<Id>, id: Id, fresh': int, tried: int)
    requires CountsOk(e, s, u) && s1.info - {id} == s.info - {id} && u' - {id} == u - {id}
             && (id in s.info || id in s1.info)
    requires s1.nNew == s.nNew && s1.nTried == s.nTried && s1.counts == s.counts
    requires id in s.info && id in s1.info ==> s1.info[id].addr == s.info[id].addr
    requires forall tr: bool :: Part(s1, u', id, tr) - Part(s, u, id, tr) == if tr then tried else fresh'
    ensures var n := e.network((if id in s.info then s.info else s1.info)[id].addr);
            CountsOk(e, AddCount(s1, n, fresh', tried), u')
  {
    var n := e.network((if id in s.info then s.info else s1.info)[id].addr);
    var s' := AddCount(s1, n, fresh', tried);
    forall net, tr ensures Shift(e, s, u, s', u', id, net, tr) {
      assert Part(s1, u', id, tr) - Part(s, u, id, tr) == if tr then tried else fresh';
    }
    Recount(e, s, u, s', u', id);
  }

  /** Whether an address is counted in a table. */
  ghost function Part(s: State, u: set<Id>, id: Id, tried: bool): int {
    if id in s.info && id !in u && s.info[id].inTried == tried then 1 else 0
  }

  // ----- One address changes, and stays where it is -----

  /** Only the entry of id has changed, and neither its address nor its place in the random order. */
  ghost predicate OneUpdated(s: State, s': State, id: Id) {
    && id in s.info && id in s'.info && s'.info == s.info[id := s'.info[id]]
    && s'.info[id].addr == s.info[id].addr && s'.info[id].randomPos == s.info[id].randomPos
    && s'.ids == s.ids && s'.random == s.random && s'.nextId == s.nextId && s'.collisions == s.collisions
  }

  lemma IndexKept(s: State, s': State, id: Id)
    requires IndexOk(s) && OneUpdated(s, s', id)
    ensures IndexOk(s')
  {
    forall k ensures Known(s', k) { assert Known(s, k); }
    forall k ensures OrderOk(s', k) { assert OrderOk(s, k); }
    forall a ensures AddrOk(s', a) { assert AddrOk(s, a); }
  }

  lemma RangesKept(s: State, s': State, id: Id, x: set<Id>, x': set<Id>)
    requires RangesOk(s, x) && OneUpdated(s, s', id) && x - {id} <= x'
    requires s'.info[id].lastTry >= 0 && s'.info[id].lastSuccess >= 0 && (id !in x' ==> InRange(s'.info[id]))
    ensures RangesOk(s', x')
  {
    forall k ensures RangeOk(s', x', k) {
      assert RangeOk(s, x, k);
      assert k !in x' && k != id ==> k !in x - {id};
    }
  }

  /** Nothing that is counted changes. */
  lemma Uncounted(e: Env, s: State, u: set<Id>, s': State, id: Id)
    requires CountsOk(e, s, u) && OneUpdated(s, s', id) && s'.info[id].inTried == s.info[id].inTried
    requires s'.nNew == s.nNew && s'.nTried == s.nTried && s'.counts == s.counts
    ensures CountsOk(e, s', u)
  {
    assert s'.info - {id} == s.info - {id};
    forall net, tried ensures Shift(e, s, u, s', u, id, net, tried) {}
    Recount(e, s, u, s', u, id);
  }

  // ----- One address changes its statistics -----

  lemma TouchInv(e: Env, s: State, x: set<Id>, u: set<Id>, id: Id, i: Info)
    requires Inv(e, s, x, u) && id in s.info && i.lastTry >= 0 && i.lastSuccess >= 0
    requires var was := s.info[id];
      && i.addr == was.addr && i.refCount == was.refCount && i.inTried == was.inTried && i.randomPos == was.randomPos
      && (i.inTried && id !in x ==> i.lastSuccess > 0)
    ensures Inv(e, SetInfo(s, id, i), x, u)
  {
    var s' := SetInfo(s, id, i);
    IndexKept(s, s', id);
    SlotsTouched(e, s, id, i);
    assert RangeOk(s, x, id);
    RangesKept(s, s', id, x, x);
    Uncounted(e, s, u, s', id);
  }

  lemma SlotsTouched(e: Env, s: State, id: Id, i: Info)
    requires SlotsOk(e, s) && id in s.info && i.addr == s.info[id].addr && i.refCount == s.info[id].refCount
             && i.inTried == s.info[id].inTried
    ensures SlotsOk(e, SetInfo(s, id, i))
  {
    var s' := SetInfo(s, id, i);
    forall t ensures NewOk(e, s', t) { assert NewOk(e, s, t); }
    forall t ensures TriedOk(e, s', t) { assert TriedOk(e, s, t); }
    forall k ensures Placed(e, s', k) {
      assert Placed(e, s, k);
      if k in s.info { assert Refs(e, s', k) == Refs(e, s, k); }
    }
  }

  // ----- References in the new table -----

  function Unref(e: Env, s: State, id: Id, b: nat): State
    requires id in s.info
  {
    SetInfo(s, id, s.info[id].(refCount := s.info[id].refCount - 1))
      .(newTable := s.newTable - {e.NewSlot(s.info[id].addr, b)})
  }

  lemma UnrefSlots(e: Env, s: State, id: Id, b: nat)
    requires SlotsOk(e, s) && id in s.info && b in Refs(e, s, id)
    ensures SlotsOk(e, Unref(e, s, id, b)) && Refs(e, Unref(e, s, id, b), id) == Refs(e, s, id) - {b}
  {
    var s' := Unref(e, s, id, b);
    forall t ensures NewOk(e, s', t) { assert NewOk(e, s, t); }
    forall t ensures TriedOk(e, s', t) { assert TriedOk(e, s, t); }
    assert Refs(e, s', id) == Refs(e, s, id) - {b};
    forall k ensures Placed(e, s', k) {
      assert Placed(e, s, k);
      if k == id { CardWithout(Refs(e, s, id), b); } else if k in s.info { assert Refs(e, s', k) == Refs(e, s, k); }
    }
  }

  lemma UnrefInv(e: Env, s: State, x: set<Id>, u: set<Id>, id: Id, b: nat)
    requires Inv(e, s, x, u) && id in s.info && b in Refs(e, s, id) && id in x
    ensures Inv(e, Unref(e, s, id, b), x, u) && Refs(e, Unref(e, s, id, b), id) == Refs(e, s, id) - {b}
  {
    var s' := Unref(e, s, id, b);
    IndexKept(s, s', id);
    UnrefSlots(e, s, id, b);
    assert RangeOk(s, x, id);
    RangesKept(s, s', id, x, x);
    Uncounted(e, s, u, s', id);
  }

  function Ref(e: Env, s: State, id: Id, b: nat): State
    requires id in s.info
  {
    SetInfo(s, id, s.info[id].(refCount := s.info[id].refCount + 1))
      .(newTable := s.newTable[e.NewSlot(s.info[id].addr, b) := id])
  }

  lemma RefRefs(e: Env, s: State, id: Id, b: nat, k: Id)
    requires id in s.info && k in s.info && b < NEW_BUCKETS && e.NewSlot(s.info[id].addr, b) !in s.newTable
    ensures Refs(e, Ref(e, s, id, b), k) == Refs(e, s, k) + (if k == id then {b} else {})
    ensures k == id ==> b !in Refs(e, s, k)
  {
  }

  lemma RefSlots(e: Env, s: State, id: Id, b: nat)
    requires SlotsOk(e, s) && id in s.info && !s.info[id].inTried && b < NEW_BUCKETS
             && e.NewSlot(s.info[id].addr, b) !in s.newTable
    ensures SlotsOk(e, Ref(e, s, id, b))
  {
    var s' := Ref(e, s, id, b);
    forall t ensures NewOk(e, s', t) { assert NewOk(e, s, t); }
    forall t ensures TriedOk(e, s', t) { assert TriedOk(e, s, t); }
    forall k ensures Placed(e, s', k) {
      assert Placed(e, s, k);
      if k in s.info { RefRefs(e, s, id, b, k); }
    }
  }

  lemma RefInv(e: Env, s: State, x: set<Id>, u: set<Id>, id: Id, b: nat)
    requires Inv(e, s, x, u) && id in s.info && !s.info[id].inTried && b < NEW_BUCKETS
             && e.NewSlot(s.info[id].addr, b) !in s.newTable
    requires 0 <= s.info[id].refCount < NEW_BUCKETS_PER_ADDRESS
    ensures Inv(e, Ref(e, s, id, b), x - {id}, u)
  {
    var s' := Ref(e, s, id, b);
    IndexKept(s, s', id);
    RefSlots(e, s, id, b);
    assert RangeOk(s, x, id);
    RangesKept(s, s', id, x, x - {id});
    Uncounted(e, s, u, s', id);
  }

  // ----- In and out of what is counted -----

  lemma CountsInv(e: Env, s: State, x: set<Id>, u: set<Id>, u': set<Id>, id: Id, fresh': int)
    requires Inv(e, s, x, u) && id in s.info && !s.info[id].inTried && u' - {id} == u - {id}
    requires Part(s, u', id, false) - Part(s, u, id, false) == fresh'
    ensures Inv(e, AddCount(s, e.network(s.info[id].addr), fresh', 0), x, u')
  {
    var s' := AddCount(s, e.network(s.info[id].addr), fresh', 0);
    Counted(e, s, u, s, u', id, fresh', 0);
    SlotsSame(e, s, s');
    IndexSame(s, s', x);
  }

  lemma IndexSame(s: State, s': State, x: set<Id>)
    requires IndexOk(s) && RangesOk(s, x)
    requires s'.info == s.info && s'.ids == s.ids && s'.random == s.random && s'.nextId == s.nextId
             && s'.collisions == s.collisions
    ensures IndexOk(s') && RangesOk(s', x)
  {
    forall k ensures Known(s', k) { assert Known(s, k); }
    forall k ensures OrderOk(s', k) { assert OrderOk(s, k); }
    forall a ensures AddrOk(s', a) { assert AddrOk(s, a); }
    forall k ensures RangeOk(s', x, k) { assert RangeOk(s, x, k); }
  }

  lemma SlotsSame(e: Env, s: State, s': State)
    requires SlotsOk(e, s) && s'.info == s.info && s'.newTable == s.newTable && s'.triedTable == s.triedTable
    ensures SlotsOk(e, s')
  {
    forall t ensures NewOk(e, s', t) { assert NewOk(e, s, t); }
    forall t ensures TriedOk(e, s', t) { assert TriedOk(e, s, t); }
    forall k ensures Placed(e, s', k) {
      assert Placed(e, s, k);
      if k in s'.info { assert Refs(e, s', k) == Refs(e, s, k); }
    }
  }

  // ----- The tried table -----

  function LeaveTried(e: Env, s: State, id: Id): State
    requires id in s.info
  {
    var i := s.info[id];
    AddCount(SetInfo(s, id, i.(inTried := false)).(triedTable := s.triedTable - {e.triedSlot(i.addr)}),
             e.network(i.addr), 0, -1)
  }

  lemma LeaveTriedSlots(e: Env, s: State, id: Id)
    requires SlotsOk(e, s) && id in s.info && s.info[id].inTried
    ensures SlotsOk(e, LeaveTried(e, s, id))
  {
    var s' := LeaveTried(e, s, id);
    assert Placed(e, s, id);
    forall t ensures NewOk(e, s', t) { assert NewOk(e, s, t); }
    forall t ensures TriedOk(e, s', t) { assert TriedOk(e, s, t); }
    forall k ensures Placed(e, s', k) {
      assert Placed(e, s, k);
      if k in s'.info { assert Refs(e, s', k) == Refs(e, s, k); }
    }
  }

  lemma LeaveTriedInv(e: Env, s: State, x: set<Id>, u: set<Id>, id: Id)
    requires Inv(e, s, x, u) && id in s.info && s.info[id].inTried && id !in u
    ensures Inv(e, LeaveTried(e, s, id), x + {id}, u + {id})
  {
    var s' := LeaveTried(e, s, id);
    IndexKept(s, s', id);
    LeaveTriedSlots(e, s, id);
    assert RangeOk(s, x, id);
    RangesKept(s, s', id, x, x + {id});
    LeaveTriedCounts(e, s, u, id);
  }

  lemma LeaveTriedCounts(e: Env, s: State, u: set<Id>, id: Id)
    requires CountsOk(e, s, u) && id in s.info && s.info[id].inTried && id !in u
    ensures CountsOk(e, LeaveTried(e, s, id), u + {id})
  {
    var i := s.info[id];
    var s1 := SetInfo(s, id, i.(inTried := false)).(triedTable := s.triedTable - {e.triedSlot(i.addr)});
    assert s1.info - {id} == s.info - {id} && u + {id} - {id} == u - {id};
    Counted(e, s, u, s1, u + {id}, id, 0, -1);
  }

  function EnterTried(e: Env, s: State, id: Id): State
    requires id in s.info
  {
    var i := s.info[id];
    AddCount(SetInfo(s, id, i.(inTried := true)).(triedTable := s.triedTable[e.triedSlot(i.addr) := id]),
             e.network(i.addr), 0, 1)
  }

  /** An address without references is in no slot of the new table. */
  lemma Unreferenced(e: Env, s: State, id: Id, t: Slot)
    requires SlotsOk(e, s) && id in s.info && s.info[id].refCount == 0 && t in s.newTable
    ensures s.newTable[t] != id
  {
    assert Placed(e, s, id) && NewOk(e, s, t);
    var refs := Refs(e, s, id);
    assert s.newTable[t] == id ==> t.bucket in refs;
  }

  lemma EnterTriedSlots(e: Env, s: State, id: Id)
    requires SlotsOk(e, s) && id in s.info && !s.info[id].inTried && s.info[id].refCount == 0
             && e.triedSlot(s.info[id].addr) !in s.triedTable
    ensures SlotsOk(e, EnterTried(e, s, id))
  {
    var s' := EnterTried(e, s, id);
    forall t ensures NewOk(e, s', t) {
      assert NewOk(e, s, t);
      if t in s.newTable { Unreferenced(e, s, id, t); }
    }
    forall t ensures TriedOk(e, s', t) { assert TriedOk(e, s, t); }
    forall k ensures Placed(e, s', k) {
      assert Placed(e, s, k);
      if k in s'.info { assert Refs(e, s', k) == Refs(e, s, k); }
    }
  }

  lemma EnterTriedInv(e: Env, s: State, x: set<Id>, u: set<Id>, id: Id)
    requires Inv(e, s, x, u) && id in s.info && !s.info[id].inTried && s.info[id].refCount == 0
             && s.info[id].lastSuccess > 0 && id in u
    requires e.triedSlot(s.info[id].addr) !in s.triedTable
    ensures Inv(e, EnterTried(e, s, id), x - {id}, u - {id})
  {
    var s' := EnterTried(e, s, id);
    IndexKept(s, s', id);
    EnterTriedSlots(e, s, id);
    assert RangeOk(s, x, id);
    RangesKept(s, s', id, x, x - {id});
    EnterTriedCounts(e, s, u, id);
  }

  lemma EnterTriedCounts(e: Env, s: State, u: set<Id>, id: Id)
    requires CountsOk(e, s, u) && id in s.info && id in u
    ensures CountsOk(e, EnterTried(e, s, id), u - {id})
  {
    var i := s.info[id];
    var s1 := SetInfo(s, id, i.(inTried := true)).(triedTable := s.triedTable[e.triedSlot(i.addr) := id]);
    assert s1.info - {id} == s.info - {id} && u - {id} - {id} == u - {id};
    Counted(e, s, u, s1, u - {id}, id, 0, 1);
  }

  // ----- New addresses -----

  function Created(e: Env, s: State, addr: Addr, source: Addr, time: int, services: set<nat>): State {
    var id := s.nextId;
    AddCount(s.(info := s.info[id := Info(addr, source, 0, false, |s.random|, time, services, 0, 0, 0, 0)],
                ids := s.ids[addr := id], random := s.random + [id], nextId := id + 1), e.network(addr), 1, 0)
  }

  lemma CreatedIndex(e: Env, s: State, addr: Addr, source: Addr, time: int, services: set<nat>)
    requires IndexOk(s) && addr !in s.ids
    ensures IndexOk(Created(e, s, addr, source, time, services)) && s.nextId !in s.info
  {
    var s' := Created(e, s, addr, source, time, services);
    assert Known(s, s.nextId);
    forall k ensures Known(s', k) { assert Known(s, k); }
    forall k ensures OrderOk(s', k) { assert OrderOk(s, k); }
    forall a ensures AddrOk(s', a) { assert AddrOk(s, a); }
  }

  lemma CreatedSlots(e: Env, s: State, addr: Addr, source: Addr, time: int, services: set<nat>)
    requires SlotsOk(e, s) && s.nextId !in s.info
    ensures SlotsOk(e, Created(e, s, addr, source, time, services))
  {
    var s' := Created(e, s, addr, source, time, services);
    forall t ensures NewOk(e, s', t) { assert NewOk(e, s, t); }
    forall t ensures TriedOk(e, s', t) { assert TriedOk(e, s, t); }
    forall k ensures Placed(e, s', k) {
      if k == s.nextId {
        forall b: nat | b < NEW_BUCKETS && e.NewSlot(addr, b) in s.newTable
          ensures s.newTable[e.NewSlot(addr, b)] != k {
          assert NewOk(e, s, e.NewSlot(addr, b));
        }
        assert Refs(e, s', k) == {};
      } else if k in s.info {
        assert Placed(e, s, k) && Refs(e, s', k) == Refs(e, s, k);
      }
    }
  }

  lemma CreatedInv(e: Env, s: State, addr: Addr, source: Addr, time: int, services: set<nat>)
    requires Inv(e, s, {}, {}) && addr !in s.ids
    ensures Inv(e, Created(e, s, addr, source, time, services), {s.nextId}, {}) && s.nextId !in s.info
  {
    var s', id := Created(e, s, addr, source, time, services), s.nextId;
    CreatedIndex(e, s, addr, source, time, services);
    CreatedSlots(e, s, addr, source, time, services);
    CreatedCounts(e, s, addr, source, time, services);
    forall k ensures RangeOk(s', {id}, k) { assert RangeOk(s, {}, k); }
  }

  lemma CreatedCounts(e: Env, s: State, addr: Addr, source: Addr, time: int, services: set<nat>)
    requires CountsOk(e, s, {}) && s.nextId !in s.info
    ensures CountsOk(e, Created(e, s, addr, source, time, services), {})
  {
    var id := s.nextId;
    var s1 := s.(info := s.info[id := Info(addr, source, 0, false, |s.random|, time, services, 0, 0, 0, 0)],
                 ids := s.ids[addr := id], random := s.random + [id], nextId := id + 1);
    assert s1.info - {id} == s.info - {id};
    Counted(e, s, {}, s1, {}, id, 1, 0);
  }

  // ----- The random order, and deleting -----

  function Swapped(s: State, i: nat, j: nat): State
    requires i < |s.random| && j < |s.random| && s.random[i] in s.info && s.random[j] in s.info
  {
    if i == j then s
    else
      var a, b := s.random[i], s.random[j];
      s.(info := s.info[a := s.info[a].(randomPos := j)][b := s.info[b].(randomPos := i)],
         random := s.random[i := b][j := a])
  }

  lemma SwappedIndex(s: State, i: nat, j: nat)
    requires IndexOk(s) && i < |s.random| && j < |s.random|
    ensures s.random[i] in s.info && s.random[j] in s.info && IndexOk(Swapped(s, i, j))
  {
    assert OrderOk(s, i) && OrderOk(s, j);
    if i != j {
      var s', a, b := Swapped(s, i, j), s.random[i], s.random[j];
      forall k ensures Known(s', k) { assert Known(s, k); }
      forall k ensures OrderOk(s', k) { assert OrderOk(s, k); }
      forall c ensures AddrOk(s', c) { assert AddrOk(s, c); }
    }
  }

  /** Where an address is in the random order matters to the index only. */
  ghost predicate SameButOrder(s: State, s': State) {
    && s'.info.Keys == s.info.Keys
    && (forall k :: k in s.info ==> s'.info[k] == s.info[k].(randomPos := s'.info[k].randomPos))
    && s' == s.(info := s'.info, random := s'.random)
  }

  lemma OrderSlots(e: Env, s: State, s': State)
    requires SlotsOk(e, s) && SameButOrder(s, s')
    ensures SlotsOk(e, s')
  {
    forall t ensures NewOk(e, s', t) { assert NewOk(e, s, t); }
    forall t ensures TriedOk(e, s', t) { assert TriedOk(e, s, t); }
    forall k ensures Placed(e, s', k) {
      assert Placed(e, s, k);
      if k in s'.info { assert k in s.info && Refs(e, s', k) == Refs(e, s, k); }
    }
  }

  lemma OrderCounts(e: Env, s: State, s': State, u: set<Id>)
    requires CountsOk(e, s, u) && SameButOrder(s, s')
    ensures CountsOk(e, s', u)
  {
    forall net, tried ensures CountOk(e, s', net, tried, u) {
      assert CountOk(e, s, net, tried, u);
      assert Members(e, s', net, tried, u) == Members(e, s, net, tried, u);
    }
  }

  lemma SwappedSame(s: State, i: nat, j: nat)
    requires i < |s.random| && j < |s.random| && s.random[i] in s.info && s.random[j] in s.info
    ensures SameButOrder(s, Swapped(s, i, j))
  {
  }

  lemma SwappedInv(e: Env, s: State, x: set<Id>, u: set<Id>, i: nat, j: nat)
    requires Inv(e, s, x, u) && i < |s.random| && j < |s.random|
    ensures s.random[i] in s.info && s.random[j] in s.info && Inv(e, Swapped(s, i, j), x, u)
  {
    SwappedIndex(s, i, j);
    SwappedSame(s, i, j);
    var s' := Swapped(s, i, j);
    OrderSlots(e, s, s');
    OrderCounts(e, s, s', u);
    forall k ensures RangeOk(s', x, k) { assert RangeOk(s, x, k); }
  }

  /** Take the last address of the random order out of everything but the two tables. */
  function DropLast(e: Env, s: State): State
    requires s.random != [] && s.random[|s.random| - 1] in s.info
  {
    var n := |s.random| - 1;
    var id := s.random[n];
    var addr := s.info[id].addr;
    AddCount(s.(info := s.info - {id}, ids := s.ids - {addr}, random := s.random[..n]), e.network(addr), -1, 0)
  }

  lemma DropLastIndex(e: Env, s: State)
    requires IndexOk(s) && s.random != []
    ensures s.random[|s.random| - 1] in s.info && IndexOk(DropLast(e, s))
  {
    var n := |s.random| - 1;
    var id := s.random[n];
    assert OrderOk(s, n) && Known(s, id);
    var s' := DropLast(e, s);
    forall k ensures Known(s', k) { assert Known(s, k); }
    forall k ensures OrderOk(s', k) { assert OrderOk(s, k); }
    forall a ensures AddrOk(s', a) { assert AddrOk(s, a); }
  }

  lemma DropLastSlots(e: Env, s: State)
    requires SlotsOk(e, s) && s.random != [] && s.random[|s.random| - 1] in s.info
    requires var i := s.info[s.random[|s.random| - 1]]; !i.inTried && i.refCount == 0
    ensures SlotsOk(e, DropLast(e, s))
  {
    var id, s' := s.random[|s.random| - 1], DropLast(e, s);
    forall t ensures NewOk(e, s', t) {
      assert NewOk(e, s, t);
      if t in s.newTable { Unreferenced(e, s, id, t); }
    }
    forall t ensures TriedOk(e, s', t) { assert TriedOk(e, s, t); }
    forall k ensures Placed(e, s', k) {
      assert Placed(e, s, k);
      if k in s'.info { assert Refs(e, s', k) == Refs(e, s, k); }
    }
  }

  lemma DropLastInv(e: Env, s: State, x: set<Id>, u: set<Id>)
    requires Inv(e, s, x, u) && s.random != [] && s.random[|s.random| - 1] in s.info && s.random[|s.random| - 1] !in u
    requires var i := s.info[s.random[|s.random| - 1]]; !i.inTried && i.refCount == 0
    ensures Inv(e, DropLast(e, s), x - {s.random[|s.random| - 1]}, u)
  {
    var id := s.random[|s.random| - 1];
    DropLastIndex(e, s);
    DropLastSlots(e, s);
    forall k ensures RangeOk(DropLast(e, s), x - {id}, k) { assert RangeOk(s, x, k); }
    var s1 := s.(info := s.info - {id}, ids := s.ids - {s.info[id].addr}, random := s.random[..|s.random| - 1]);
    assert s1.info - {id} == s.info - {id};
    Counted(e, s, u, s1, u, id, -1, 0);
  }

  /** Everything about the address but its place in the random order. */
  ghost predicate SameInfo(s: State, s': State, id: Id) {
    id in s.info && id in s'.info && s'.info[id] == s.info[id].(randomPos := s'.info[id].randomPos)
  }

  lemma MoreExempt(e: Env, s: State, x: set<Id>, u: set<Id>, id: Id)
    requires Inv(e, s, x, u)
    ensures Inv(e, s, x + {id}, u)
  {
    forall k ensures RangeOk(s, x + {id}, k) { assert RangeOk(s, x, k); }
  }

  lemma FewerExempt(e: Env, s: State, x: set<Id>, u: set<Id>, id: Id)
    requires Inv(e, s, x + {id}, u) && (id in s.info ==> InRange(s.info[id]))
    ensures Inv(e, s, x, u)
  {
    forall k ensures RangeOk(s, x, k) { assert RangeOk(s, x + {id}, k); }
  }

  ghost predicate InOrder(s: State, id: Id) {
    id in s.info && s.info[id].randomPos < |s.random| && s.random[s.info[id].randomPos] == id
    && s.random[|s.random| - 1] in s.info
  }

  function Deleted(e: Env, s: State, id: Id): State
    requires InOrder(s, id)
  {
    DropLast(e, Swapped(s, s.info[id].randomPos, |s.random| - 1))
  }

  /** s' is s without the address id. */
  ghost predicate Without(s: State, s': State, id: Id) {
    && s'.info.Keys == s.info.Keys - {id} && (forall k :: k in s'.info ==> SameInfo(s, s', k))
    && s'.newTable == s.newTable && s'.triedTable == s.triedTable && s'.collisions == s.collisions
    && s'.nextId == s.nextId
  }

  lemma SwapToLast(s: State, id: Id)
    requires IndexOk(s) && id in s.info
    ensures InOrder(s, id)
    ensures Swapped(s, s.info[id].randomPos, |s.random| - 1).random[|s.random| - 1] == id
  {
    assert Known(s, id) && OrderOk(s, |s.random| - 1);
  }

  lemma DeletedWithout(e: Env, s: State, id: Id)
    requires IndexOk(s) && id in s.info
    ensures InOrder(s, id) && Without(s, Deleted(e, s, id), id)
  {
    SwapToLast(s, id);
    var t := Swapped(s, s.info[id].randomPos, |s.random| - 1);
    SwappedSame(s, s.info[id].randomPos, |s.random| - 1);
    DropLastFacts(e, t);
    WithoutFrom(s, t, Deleted(e, s, id), id);
  }

  lemma WithoutFrom(s: State, t: State, s': State, id: Id)
    requires SameButOrder(s, t) && s'.info == t.info - {id}
    requires s'.newTable == t.newTable && s'.triedTable == t.triedTable && s'.collisions == t.collisions
             && s'.nextId == t.nextId
    ensures Without(s, s', id)
  {
    forall k | k in s'.info ensures SameInfo(s, s', k) { assert k in t.info && k in s.info; }
  }

  lemma DropLastFacts(e: Env, s: State)
    requires s.random != [] && s.random[|s.random| - 1] in s.info
    ensures DropLast(e, s).info == s.info - {s.random[|s.random| - 1]}
    ensures var s' := DropLast(e, s);
      s'.newTable == s.newTable && s'.triedTable == s.triedTable && s'.collisions == s.collisions
      && s'.nextId == s.nextId
  {
  }

  lemma DeletedInv(e: Env, s: State, x: set<Id>, u: set<Id>, id: Id)
    requires Inv(e, s, x, u) && id in s.info && !s.info[id].inTried && s.info[id].refCount == 0 && id !in u
    ensures InOrder(s, id) && Inv(e, Deleted(e, s, id), x - {id}, u)
  {
    SwapToLast(s, id);
    var i, j := s.info[id].randomPos, |s.random| - 1;
    SwappedSame(s, i, j);
    SwappedInv(e, s, x, u, i, j);
    DropLastInv(e, Swapped(s, i, j), x, u);
  }

  /** s' is s with an empty slot, and maybe without the address that was there. */
  ghost predicate SlotCleared(s: State, s': State, t: Slot) {
    && s'.newTable == s.newTable - {t} && s'.triedTable == s.triedTable && s'.collisions == s.collisions
    && s'.nextId == s.nextId
    && (forall k :: k in s'.info ==> k in s.info && s'.info[k].addr == s.info[k].addr)
    && (forall k :: k in s.info && (t in s.newTable ==> k != s.newTable[t]) ==> SameInfo(s, s', k))
  }

  function Cleared(e: Env, s: State, t: Slot): State
    requires t in s.newTable ==> s.newTable[t] in s.info && InOrder(s, s.newTable[t])
  {
    if t !in s.newTable then s
    else
      var id := s.newTable[t];
      var s1 := Unref(e, s, id, t.bucket);
      if s1.info[id].refCount == 0 then Deleted(e, s1, id) else s1
  }

  lemma InSlot(e: Env, s: State, t: Slot)
    requires IndexOk(s) && SlotsOk(e, s) && t in s.newTable
    ensures var id := s.newTable[t];
           id in s.info && t.bucket in Refs(e, s, id) && !s.info[id].inTried
           && t == e.NewSlot(s.info[id].addr, t.bucket)
    ensures InOrder(s, s.newTable[t])
  {
    assert NewOk(e, s, t) && Known(s, s.newTable[t]) && OrderOk(s, |s.random| - 1);
  }

  /** One reference less: the address stays, if it has others, and then within its range. */
  lemma UnrefOne(e: Env, s: State, x: set<Id>, u: set<Id>, t: Slot)
    requires Inv(e, s, x, u) && t in s.newTable && (forall k :: k in u && k in s.info ==> s.info[k].refCount == 0)
    ensures var id := s.newTable[t];
      && id in s.info && id !in u && Inv(e, Unref(e, s, id, t.bucket), x + {id}, u)
      && Unref(e, s, id, t.bucket).info[id].refCount >= 0
      && (Unref(e, s, id, t.bucket).info[id].refCount > 0 ==> Inv(e, Unref(e, s, id, t.bucket), x, u))
  {
    InSlot(e, s, t);
    var id := s.newTable[t];
    if id in u { Unreferenced(e, s, id, t); }
    MoreExempt(e, s, x, u, id);
    UnrefInv(e, s, x + {id}, u, id, t.bucket);
    var s1 := Unref(e, s, id, t.bucket);
    assert Placed(e, s1, id) && RangeOk(s, x, id);
    if id in x { assert x + {id} == x; } else if s1.info[id].refCount > 0 { FewerExempt(e, s1, x, u, id); }
  }

  lemma ClearedInv(e: Env, s: State, x: set<Id>, u: set<Id>, t: Slot)
    requires Inv(e, s, x, u) && (forall k :: k in u && k in s.info ==> s.info[k].refCount == 0)
    ensures t in s.newTable ==> s.newTable[t] in s.info && InOrder(s, s.newTable[t])
    ensures Inv(e, Cleared(e, s, t), x, u)
  {
    if t in s.newTable {
      InSlot(e, s, t);
      UnrefOne(e, s, x, u, t);
      var id := s.newTable[t];
      var s1 := Unref(e, s, id, t.bucket);
      if s1.info[id].refCount == 0 {
        DeletedInv(e, s1, x + {id}, u, id);
        DeletedWithout(e, s1, id);
        var s2 := Deleted(e, s1, id);
        assert x + {id} - {id} == x - {id};
        MoreExempt(e, s2, x - {id}, u, id);
        if id in x { assert x - {id} + {id} == x; } else { assert x - {id} == x; }
      }
    }
  }

  lemma ClearedFacts(e: Env, s: State, t: Slot)
    requires IndexOk(s) && SlotsOk(e, s)
    ensures t in s.newTable ==> s.newTable[t] in s.info && InOrder(s, s.newTable[t])
    ensures SlotCleared(s, Cleared(e, s, t), t)
  {
    if t in s.newTable {
      InSlot(e, s, t);
      var id := s.newTable[t];
      var s1 := Unref(e, s, id, t.bucket);
      IndexKept(s, s1, id);
      if s1.info[id].refCount == 0 { DeletedWithout(e, s1, id); }
    } else {
      assert s.newTable - {t} == s.newTable;
    }
  }
}
