/** The consistency check of the address manager, src/addrman.cpp:1063-1166: exactly which states pass it. */
module AddrChecks {
  import opened Basics
  import opened AddrTables
  import opened AddrSteps

  /** What the check finds wrong with an address by itself, or 0. */
  function KindCode(i: Info): int {
    if i.inTried then (if i.lastSuccess == 0 then -1 else if i.refCount != 0 then -2 else 0)
    else if i.refCount < 0 || i.refCount > NEW_BUCKETS_PER_ADDRESS then -3
    else if i.refCount == 0 then -4 else 0
  }

  /** What it finds wrong with the entry of an address, or 0. */
  function InfoCode(s: State, id: Id): int
    requires id in s.info
  {
    var i := s.info[id];
    if KindCode(i) != 0 then KindCode(i)
    else if i.addr !in s.ids || s.ids[i.addr] != id then -5
    else if i.randomPos >= |s.random| || s.random[i.randomPos] != id then -14
    else if i.lastTry < 0 then -6
    else if i.lastSuccess < 0 then -8
    else 0
  }

  ghost predicate AllInfo(s: State) {
    forall id :: id in s.info ==> InfoCode(s, id) == 0
  }

  lemma InfoPasses(e: Env, s: State, id: Id)
    requires Consistent(e, s) && id in s.info
    ensures InfoCode(s, id) == 0
  {
    assert Known(s, id) && RangeOk(s, {}, id);
  }

  // ----- Collecting the addresses -----

  ghost predicate Positive(counts: map<Network, Count>) {
    forall n :: n in counts ==> counts[n].fresh' >= 0 && counts[n].tried >= 0 && counts[n].fresh' + counts[n].tried > 0
  }

  /** What has been collected, and counted in t, when the addresses of left are still to be looked at. */
  ghost predicate Collected(e: Env, s: State, left: set<Id>, setTried: set<Id>, mapNew: map<Id, int>, t: State) {
    && setTried == Members(e, s, None, true, left) && mapNew.Keys == Members(e, s, None, false, left)
    && (forall id :: id in mapNew ==> mapNew[id] == s.info[id].refCount)
    && t.info == s.info && CountsOk(e, t, left) && Positive(t.counts)
  }

  lemma CollectedNone(e: Env, s: State, t: State)
    requires t.info == s.info && t.nNew == t.nTried == 0 && t.counts == map[]
    ensures Collected(e, s, s.info.Keys, {}, map[], t)
  {
    forall net, tried ensures CountOk(e, t, net, tried, s.info.Keys) {
      assert Members(e, t, net, tried, s.info.Keys) == {};
    }
    assert Members(e, s, None, true, s.info.Keys) == {} && Members(e, s, None, false, s.info.Keys) == {};
  }

  method Collect(e: Env, s: State)
    returns (code: int, setTried: set<Id>, mapNew: map<Id, int>, counts: map<Network, Count>, ghost t: State)
    ensures code == 0 <==> AllInfo(s)
    ensures code == 0 ==> Collected(e, s, {}, setTried, mapNew, t) && counts == t.counts
  {
    setTried, mapNew, counts := {}, map[], map[];
    var left := s.info.Keys;
    t := s.(nNew := 0, nTried := 0, counts := map[]);
    CollectedNone(e, s, t);
    while left != {}
      invariant left <= s.info.Keys && Collected(e, s, left, setTried, mapNew, t) && counts == t.counts
      invariant forall id :: id in s.info && id !in left ==> InfoCode(s, id) == 0
      decreases left
    {
      var id :| id in left;
      code := InfoCode(s, id);
      if code != 0 { return; }
      setTried, mapNew, counts, t := CollectOne(e, s, id, left, setTried, mapNew, counts, t);
      left := left - {id};
    }
    code := 0;
  }

  method CollectOne(e: Env, s: State, id: Id, ghost left: set<Id>, setTried0: set<Id>, mapNew0: map<Id, int>,
                    counts0: map<Network, Count>, ghost t0: State)
    returns (setTried: set<Id>, mapNew: map<Id, int>, counts: map<Network, Count>, ghost t: State)
    requires id in left && id in s.info && Collected(e, s, left, setTried0, mapNew0, t0) && counts0 == t0.counts
    ensures Collected(e, s, left - {id}, setTried, mapNew, t) && counts == t.counts
  {
    setTried, mapNew := setTried0, mapNew0;
    var i := s.info[id];
    var fresh', tried := if i.inTried then 0 else 1, if i.inTried then 1 else 0;
    CollectedMore(e, s, id, left, setTried0, mapNew0, t0, fresh', tried);
    if i.inTried { setTried := setTried + {id}; } else { mapNew := mapNew[id := i.refCount]; }
    counts, t := OneMore(counts0, e.network(i.addr), fresh', tried), AddCount(t0, e.network(i.addr), fresh', tried);
  }

  function OneMore(counts: map<Network, Count>, n: Network, fresh': int, tried: int): map<Network, Count> {
    var c := if n in counts then counts[n] else Count(0, 0);
    counts[n := Count(c.fresh' + fresh', c.tried + tried)]
  }

  lemma MembersMore(e: Env, s: State, id: Id, left: set<Id>, tried: bool)
    requires id in left && id in s.info
    ensures Members(e, s, None, tried, left - {id}) == Members(e, s, None, tried, left)
            + (if s.info[id].inTried == tried then {id} else {})
  {
  }

  lemma StaysPositive(e: Env, left: set<Id>, t: State, n: Network, fresh': int, tried: int)
    requires CountsOk(e, t, left) && Positive(t.counts) && fresh' >= 0 && tried >= 0 && fresh' + tried > 0
    ensures Positive(AddCount(t, n, fresh', tried).counts)
  {
    assert CountOk(e, t, Some(n), true, left) && CountOk(e, t, Some(n), false, left);
  }

  lemma CollectedMore(e: Env, s: State, id: Id, left: set<Id>, setTried: set<Id>, mapNew: map<Id, int>, t: State,
                      fresh': int, tried: int)
    requires id in left && id in s.info && Collected(e, s, left, setTried, mapNew, t)
    requires fresh' == (if s.info[id].inTried then 0 else 1) && tried == if s.info[id].inTried then 1 else 0
    ensures var i := s.info[id];
      Collected(e, s, left - {id}, if i.inTried then setTried + {id}
                else setTried, if i.inTried then mapNew else mapNew[id := i.refCount],
                AddCount(t, e.network(i.addr), fresh', tried))
  {
    MembersMore(e, s, id, left, true);
    MembersMore(e, s, id, left, false);
    Counted(e, t, left, t, left - {id}, id, fresh', tried);
    StaysPositive(e, left, t, e.network(s.info[id].addr), fresh', tried);
  }

  // ----- The tried table -----

  ghost predicate TriedPlaced(e: Env, s: State, id: Id) {
    id in s.info && s.info[id].inTried ==>
      e.triedSlot(s.info[id].addr) in s.triedTable && s.triedTable[e.triedSlot(s.info[id].addr)] == id
  }

  /** Every slot holds a tried address whose slot it is, and every tried address is in its slot. */
  ghost predicate TriedHolds(e: Env, s: State) {
    && (forall t {:trigger TriedOk(e, s, t)} :: TriedOk(e, s, t))
    && (forall id {:trigger TriedPlaced(e, s, id)} :: TriedPlaced(e, s, id))
  }

  /** The tried addresses that are in their slot, the slot not being one of these. */
  ghost function TriedDone(e: Env, s: State, slots: set<Slot>): set<Id> {
    set id | id in s.info && s.info[id].inTried && TriedPlaced(e, s, id) && e.triedSlot(s.info[id].addr) !in slots
  }

  ghost predicate TriedSoFar(e: Env, s: State, slots: set<Slot>, setTried: set<Id>) {
    && slots <= s.triedTable.Keys && (forall t {:trigger TriedOk(e, s, t)} :: t !in slots ==> TriedOk(e, s, t))
    && setTried == Members(e, s, None, true, {}) - TriedDone(e, s, slots)
  }

  lemma TriedSlotBad(e: Env, s: State, slots: set<Slot>, setTried: set<Id>, t: Slot)
    requires TriedSoFar(e, s, slots, setTried) && t in slots && TriedOk(e, s, t)
    ensures s.triedTable[t] in setTried
  {
  }

  lemma TriedSlotGood(e: Env, s: State, slots: set<Slot>, setTried: set<Id>, t: Slot)
    requires TriedSoFar(e, s, slots, setTried) && t in slots && TriedOk(e, s, t)
    ensures TriedSoFar(e, s, slots - {t}, setTried - {s.triedTable[t]})
  {
    var id := s.triedTable[t];
    assert TriedPlaced(e, s, id);
    forall x ensures x in TriedDone(e, s, slots - {t}) <==> x in TriedDone(e, s, slots) || x == id {}
  }

  lemma TriedEnds(e: Env, s: State, setTried: set<Id>)
    requires TriedSoFar(e, s, {}, setTried)
    ensures setTried == {} <==> TriedHolds(e, s)
  {
    if setTried == {} {
      forall id ensures TriedPlaced(e, s, id) {
        if id in s.info && s.info[id].inTried { assert id in Members(e, s, None, true, {}) && id !in setTried; }
      }
    } else {
      var id :| id in setTried;
      assert id !in TriedDone(e, s, {}) && !TriedPlaced(e, s, id);
    }
  }

  /** The tried table holds every collected tried address once. */
  method CheckTriedTable(e: Env, s: State, setTried0: set<Id>) returns (code: int, setTried: set<Id>)
    requires setTried0 == Members(e, s, None, true, {})
    ensures code == 0 && setTried == {} <==> TriedHolds(e, s)
    ensures code != 0 ==> !TriedHolds(e, s)
  {
    setTried := setTried0;
    var slots := s.triedTable.Keys;
    assert TriedDone(e, s, slots) == {};
    while slots != {}
      invariant TriedSoFar(e, s, slots, setTried)
      decreases slots
    {
      var t :| t in slots;
      var id := s.triedTable[t];
      if TriedOk(e, s, t) { TriedSlotBad(e, s, slots, setTried, t); }
      if id !in setTried { return -11, setTried; }
      if id !in s.info || e.triedSlot(s.info[id].addr).bucket != t.bucket { return -17, setTried; }
      if e.triedSlot(s.info[id].addr).pos != t.pos { return -18, setTried; }
      assert TriedOk(e, s, t);
      TriedSlotGood(e, s, slots, setTried, t);
      setTried, slots := setTried - {id}, slots - {t};
    }
    code := 0;
    TriedEnds(e, s, setTried);
  }

  // ----- The new table -----

  /** The slots are in the buckets of the table. */
  ghost predicate InTables(s: State) {
    forall t :: t in s.newTable ==> t.bucket < NEW_BUCKETS
  }

  ghost predicate NewPlaced(e: Env, s: State, id: Id) {
    id in s.info && !s.info[id].inTried ==> s.info[id].refCount == |Refs(e, s, id)|
  }

  /** Every slot holds a new address at its position, and every new address is there as often as it is referenced. */
  ghost predicate NewHolds(e: Env, s: State) {
    && (forall t {:trigger NewOk(e, s, t)} :: NewOk(e, s, t))
    && (forall id {:trigger NewPlaced(e, s, id)} :: NewPlaced(e, s, id))
  }

  /** The buckets that hold id, the slot not being one of these. */
  ghost function RefsDone(e: Env, s: State, id: Id, slots: set<Slot>): set<nat>
    requires id in s.info
  {
    set b | b in Refs(e, s, id) && e.NewSlot(s.info[id].addr, b) !in slots
  }

  /** The number kept for id is what is left of its references. */
  ghost predicate RefsLeft(e: Env, s: State, mapNew: map<Id, int>, slots: set<Slot>, id: Id) {
    if id in s.info && !s.info[id].inTried then
      var left := s.info[id].refCount - |RefsDone(e, s, id, slots)|;
      left >= 0 && (id in mapNew <==> left > 0) && (id in mapNew ==> mapNew[id] == left)
    else id !in mapNew
  }

  ghost predicate NewSoFar(e: Env, s: State, mapNew: map<Id, int>, slots: set<Slot>) {
    && slots <= s.newTable.Keys && (forall t {:trigger NewOk(e, s, t)} :: t !in slots ==> NewOk(e, s, t))
    && (forall id {:trigger RefsLeft(e, s, mapNew, slots, id)} :: RefsLeft(e, s, mapNew, slots, id))
  }

  lemma NewStart(e: Env, s: State, mapNew: map<Id, int>)
    requires AllInfo(s) && mapNew.Keys == Members(e, s, None, false, {})
    requires forall id :: id in mapNew ==> mapNew[id] == s.info[id].refCount
    ensures NewSoFar(e, s, mapNew, s.newTable.Keys)
  {
    forall id ensures RefsLeft(e, s, mapNew, s.newTable.Keys, id) {
      assert id in mapNew <==> id in Members(e, s, None, false, {});
      if id in s.info {
        assert RefsDone(e, s, id, s.newTable.Keys) == {};
        assert InfoCode(s, id) == 0;
      }
    }
  }

  function Decreased(mapNew: map<Id, int>, id: Id): map<Id, int>
    requires id in mapNew
  {
    if mapNew[id] - 1 == 0 then mapNew - {id} else mapNew[id := mapNew[id] - 1]
  }

  /** A right slot adds its bucket to those done for its address. */
  lemma RefsMore(e: Env, s: State, slots: set<Slot>, t: Slot, x: Id)
    requires t in slots && slots <= s.newTable.Keys && NewOk(e, s, t) && x in s.info
    ensures var done := RefsDone(e, s, x, slots);
      && RefsDone(e, s, x, slots - {t}) == done + (if x == s.newTable[t] then {t.bucket} else {})
      && (x == s.newTable[t] ==> t.bucket in Refs(e, s, x) && t.bucket !in done)
  {
  }

  lemma NewSlotGood(e: Env, s: State, mapNew: map<Id, int>, slots: set<Slot>, t: Slot)
    requires NewSoFar(e, s, mapNew, slots) && t in slots && NewOk(e, s, t) && s.newTable[t] in mapNew
    ensures NewSoFar(e, s, Decreased(mapNew, s.newTable[t]), slots - {t})
  {
    var id := s.newTable[t];
    forall x ensures RefsLeft(e, s, Decreased(mapNew, id), slots - {t}, x) {
      assert RefsLeft(e, s, mapNew, slots, x);
      if x in s.info { RefsMore(e, s, slots, t, x); }
    }
  }

  /** A right slot of an address that has no reference left: it has too many. */
  lemma NewSlotBad(e: Env, s: State, mapNew: map<Id, int>, slots: set<Slot>, t: Slot)
    requires NewSoFar(e, s, mapNew, slots) && t in slots && NewOk(e, s, t) && s.newTable[t] !in mapNew
    ensures !NewPlaced(e, s, s.newTable[t])
  {
    var id := s.newTable[t];
    assert RefsLeft(e, s, mapNew, slots, id);
    RefsMore(e, s, slots, t, id);
    var done := RefsDone(e, s, id, slots);
    SubsetSize(done + {t.bucket}, Refs(e, s, id));
  }

  lemma NewEnds(e: Env, s: State, mapNew: map<Id, int>)
    requires NewSoFar(e, s, mapNew, {})
    ensures mapNew == map[] <==> NewHolds(e, s)
  {
    forall id ensures id !in mapNew <==> NewPlaced(e, s, id) {
      assert RefsLeft(e, s, mapNew, {}, id);
      if id in s.info { assert RefsDone(e, s, id, {}) == Refs(e, s, id); }
    }
    assert mapNew == map[] <==> forall id :: id !in mapNew;
  }

  /** The new table holds every collected new address as often as it has references. */
  method CheckNewTable(e: Env, s: State, mapNew0: map<Id, int>) returns (code: int, mapNew: map<Id, int>)
    requires AllInfo(s) && InTables(s) && mapNew0.Keys == Members(e, s, None, false, {})
    requires forall id :: id in mapNew0 ==> mapNew0[id] == s.info[id].refCount
    ensures code == 0 && mapNew == map[] <==> NewHolds(e, s)
    ensures code != 0 ==> !NewHolds(e, s)
  {
    mapNew := mapNew0;
    var slots := s.newTable.Keys;
    NewStart(e, s, mapNew);
    while slots != {}
      invariant NewSoFar(e, s, mapNew, slots)
      decreases slots
    {
      var t :| t in slots;
      var id := s.newTable[t];
      if id !in mapNew {
        if NewOk(e, s, t) { NewSlotBad(e, s, mapNew, slots, t); }
        return -12, mapNew;
      }
      assert RefsLeft(e, s, mapNew, slots, id);
      if id !in s.info || e.newPos(s.info[id].addr, t.bucket) != t.pos {
        assert !NewOk(e, s, t);
        return -19, mapNew;
      }
      NewSlotGood(e, s, mapNew, slots, t);
      mapNew, slots := Decreased(mapNew, id), slots - {t};
    }
    code := 0;
    NewEnds(e, s, mapNew);
  }

  // ----- The counters -----

  ghost function Networks(e: Env, s: State): set<Network> {
    set id | id in s.info :: e.network(s.info[id].addr)
  }

  ghost predicate NetOk(e: Env, s: State, n: Network) {
    n in s.counts ==> s.counts[n] == Count(|Members(e, s, Some(n), false, {})|, |Members(e, s, Some(n), true, {})|)
  }

  /** There are as many counters as networks, and every counter that is there is right. */
  ghost predicate NetsHold(e: Env, s: State) {
    |Networks(e, s)| <= |s.counts| && forall n {:trigger NetOk(e, s, n)} :: NetOk(e, s, n)
  }

  lemma CountedNet(e: Env, s: State, t: State, n: Network)
    requires t.info == s.info && CountsOk(e, t, {}) && Positive(t.counts)
    ensures CountFor(t, n) == Count(|Members(e, s, Some(n), false, {})|, |Members(e, s, Some(n), true, {})|)
    ensures n in t.counts <==> n in Networks(e, s)
  {
    assert CountOk(e, t, Some(n), true, {}) && CountOk(e, t, Some(n), false, {});
    assert Members(e, s, Some(n), true, {}) == Members(e, t, Some(n), true, {});
    assert Members(e, s, Some(n), false, {}) == Members(e, t, Some(n), false, {});
    if n in t.counts {
      var tried := t.counts[n].tried > 0;
      var id :| id in Members(e, s, Some(n), tried, {});
    }
    if n in Networks(e, s) {
      var id :| id in s.info && e.network(s.info[id].addr) == n;
      assert id in Members(e, s, Some(n), s.info[id].inTried, {});
    }
  }

  method CheckCounts(e: Env, s: State, counts: map<Network, Count>, ghost t: State) returns (code: int)
    requires t.info == s.info && CountsOk(e, t, {}) && Positive(t.counts) && counts == t.counts
    ensures code == 0 <==> NetsHold(e, s)
  {
    forall n ensures n in counts <==> n in Networks(e, s) { CountedNet(e, s, t, n); }
    assert counts.Keys == Networks(e, s);
    if |s.counts.Keys| < |counts.Keys| { return -20; }
    var left := s.counts.Keys;
    while left != {}
      invariant left <= s.counts.Keys
                && forall n {:trigger NetOk(e, s, n)} :: n in s.counts && n !in left ==> NetOk(e, s, n)
      decreases left
    {
      var n :| n in left;
      CountedNet(e, s, t, n);
      if s.counts[n] != (if n in counts then counts[n] else Count(0, 0)) {
        assert !NetOk(e, s, n);
        return -21;
      }
      left := left - {n};
    }
    code := 0;
  }

  lemma SubsetSize(a: set<nat>, b: set<nat>)
    ensures a <= b ==> |a| <= |b|
  {
    if a <= b { assert b == a + (b - a); }
  }

  // ----- The whole check -----

  ghost predicate Passes(e: Env, s: State) {
    && |s.random| == s.nTried + s.nNew && AllInfo(s)
    && CountOk(e, s, None, true, {}) && CountOk(e, s, None, false, {})
    && TriedHolds(e, s) && NewHolds(e, s) && NetsHold(e, s)
  }

  method CheckAddrman(e: Env, s: State, keyIsNull: bool) returns (code: int)
    requires InTables(s)
    ensures code == 0 <==> Passes(e, s) && !keyIsNull
  {
    if |s.random| != s.nTried + s.nNew { return -7; }
    var setTried, mapNew, counts;
    ghost var t;
    code, setTried, mapNew, counts, t := Collect(e, s);
    if code != 0 { return; }
    assert |mapNew| == |mapNew.Keys|;
    if |setTried| != s.nTried { return -9; }
    if |mapNew| != s.nNew { return -10; }
    var triedLeft, newLeft;
    code, triedLeft := CheckTriedTable(e, s, setTried);
    if code != 0 { return; }
    code, newLeft := CheckNewTable(e, s, mapNew);
    if code != 0 { return; }
    if triedLeft != {} { return -13; }
    if newLeft != map[] { return -15; }
    if keyIsNull { return -16; }
    code := CheckCounts(e, s, counts, t);
  }

  /** A consistent state passes. */
  lemma ConsistentPasses(e: Env, s: State)
    requires Consistent(e, s)
    ensures InTables(s) && Passes(e, s)
  {
    CheckedSizes(e, s);
    forall id | id in s.info ensures InfoCode(s, id) == 0 { InfoPasses(e, s, id); }
    assert CountOk(e, s, None, true, {}) && CountOk(e, s, None, false, {});
    forall id ensures TriedPlaced(e, s, id) && NewPlaced(e, s, id) { assert Placed(e, s, id); }
    forall t | t in s.newTable ensures t.bucket < NEW_BUCKETS { assert NewOk(e, s, t); }
    forall n ensures NetOk(e, s, n) && (n in Networks(e, s) ==> n in s.counts) { ConsistentNet(e, s, n); }
    SubsetSize(Networks(e, s), s.counts.Keys);
  }

  lemma ConsistentNet(e: Env, s: State, n: Network)
    requires CountsOk(e, s, {})
    ensures NetOk(e, s, n) && (n in Networks(e, s) ==> n in s.counts)
  {
    assert CountOk(e, s, Some(n), true, {}) && CountOk(e, s, Some(n), false, {});
    if n in Networks(e, s) {
      var id :| id in s.info && e.network(s.info[id].addr) == n;
      assert id in Members(e, s, Some(n), s.info[id].inTried, {});
    }
  }

  /**
   * What passes has right slots, references and times, every address once in the random order, and right counters,
   * if and only if there is one for every network.
   */
  lemma PassedState(e: Env, s: State)
    requires Passes(e, s)
    ensures SlotsOk(e, s) && RangesOk(s, {})
    ensures forall k {:trigger OrderOk(s, k)} :: OrderOk(s, k)
    ensures CountsOk(e, s, {}) <==> Networks(e, s) <= s.counts.Keys
  {
    forall id ensures Placed(e, s, id) && RangeOk(s, {}, id) { PassedPlaced(e, s, id); }
    PassedOrder(e, s);
    PassedCounts(e, s);
  }

  lemma PassedPlaced(e: Env, s: State, id: Id)
    requires Passes(e, s)
    ensures Placed(e, s, id) && RangeOk(s, {}, id)
  {
    assert TriedPlaced(e, s, id) && NewPlaced(e, s, id);
    if id in s.info {
      assert InfoCode(s, id) == 0;
      if s.info[id].inTried {
        forall b: nat ensures b !in Refs(e, s, id) { assert NewOk(e, s, e.NewSlot(s.info[id].addr, b)); }
        assert Refs(e, s, id) == {};
      }
    }
  }

  lemma PassedCounts(e: Env, s: State)
    requires Passes(e, s)
    ensures CountsOk(e, s, {}) <==> Networks(e, s) <= s.counts.Keys
  {
    if Networks(e, s) <= s.counts.Keys {
      forall net, tried ensures CountOk(e, s, net, tried, {}) {
        if net.Some? {
          assert NetOk(e, s, net.value);
          if net.value !in s.counts {
            assert Members(e, s, net, tried, {}) == {} by { NoMembers(e, s, net.value, tried); }
          }
        }
      }
    }
    if CountsOk(e, s, {}) {
      forall n | n in Networks(e, s) ensures n in s.counts { ConsistentNet(e, s, n); }
    }
  }

  lemma NoMembers(e: Env, s: State, n: Network, tried: bool)
    requires n !in Networks(e, s)
    ensures Members(e, s, Some(n), tried, {}) == {}
  {
    forall id ensures id !in Members(e, s, Some(n), tried, {}) {
      assert id in s.info ==> e.network(s.info[id].addr) in Networks(e, s);
    }
  }

  ghost function Places(s: State, ids: set<Id>): set<nat>
    requires ids <= s.info.Keys
  {
    set id | id in ids :: s.info[id].randomPos
  }

  lemma {:induction false} PlacesSize(s: State, ids: set<Id>)
    requires AllInfo(s) && ids <= s.info.Keys
    ensures |Places(s, ids)| == |ids|
  {
    if ids != {} {
      var id :| id in ids;
      var rest := ids - {id};
      PlacesSize(s, rest);
      assert InfoCode(s, id) == 0;
      forall x | x in rest ensures s.info[x].randomPos != s.info[id].randomPos { assert InfoCode(s, x) == 0; }
      assert s.info[id].randomPos !in Places(s, rest);
      assert Places(s, ids) == Places(s, rest) + {s.info[id].randomPos};
    }
  }

  lemma {:induction false} Filled(a: set<nat>, n: nat)
    requires |a| == n && forall x :: x in a ==> x < n
    ensures forall x :: 0 <= x < n ==> x in a
  {
    if n > 0 {
      if n - 1 in a {
        Filled(a - {n - 1}, n - 1);
      } else {
        Squeezed(a, n - 1);
      }
    }
  }

  lemma {:induction false} Squeezed(a: set<nat>, n: nat)
    requires forall x :: x in a ==> x < n
    ensures |a| <= n
  {
    if n > 0 { Squeezed(a - {n - 1}, n - 1); } else { assert a == {}; }
  }

  /** As many addresses as places, each at its own: no place is left over. */
  lemma PassedOrder(e: Env, s: State)
    requires Passes(e, s)
    ensures forall k {:trigger OrderOk(s, k)} :: OrderOk(s, k)
  {
    TwoTables(e, s);
    var a := Places(s, s.info.Keys);
    PlacesSize(s, s.info.Keys);
    forall x | x in a ensures x < |s.random| {
      var id :| id in s.info && s.info[id].randomPos == x;
      assert InfoCode(s, id) == 0;
    }
    Filled(a, |s.random|);
    forall k | 0 <= k < |s.random| ensures OrderOk(s, k) {
      assert k in a;
      var id :| id in s.info && s.info[id].randomPos == k;
      assert InfoCode(s, id) == 0;
    }
  }

  // ----- A counter that is missing -----

  const ONE_NETWORK := Env(_ => 1, _ => 1, _ => Slot(0, 0), (_, _) => 0, (_, _) => 0, _ => true, _ => true)
  const MISCOUNTED := State(map[0 := Info(0, 0, 1, false, 0, 0, {}, 0, 0, 0, 0)], map[0 := 0], [0],
                            map[Slot(0, 0) := 0], map[], 1, 0,
                            map[2 := Count(0, 0)], {}, 1)

  lemma MiscountedSizes(e: Env, s: State)
    requires e == ONE_NETWORK && s == MISCOUNTED
    ensures |s.random| == s.nTried + s.nNew && AllInfo(s) && CountOk(e, s, None, true, {})
            && CountOk(e, s, None, false, {})
  {
    assert Members(e, s, None, false, {}) == {0} && Members(e, s, None, true, {}) == {};
  }

  lemma MiscountedTables(e: Env, s: State)
    requires e == ONE_NETWORK && s == MISCOUNTED
    ensures InTables(s) && TriedHolds(e, s) && NewHolds(e, s)
  {
    forall t ensures NewOk(e, s, t) {}
    forall id ensures NewPlaced(e, s, id) {
      if id == 0 {
        assert e.NewSlot(0, 0) == Slot(0, 0) && 0 in Refs(e, s, 0);
        assert Refs(e, s, 0) == {0};
      }
    }
  }

  lemma MiscountedNets(e: Env, s: State)
    requires e == ONE_NETWORK && s == MISCOUNTED
    ensures NetsHold(e, s) && 1 in Networks(e, s) && 1 !in s.counts
  {
    var nets := Networks(e, s);
    assert 0 in s.info && e.network(s.info[0].addr) == 1 && 1 in nets;
    assert nets == {1} && s.counts.Keys == {2};
    forall n ensures NetOk(e, s, n) {
      if n == 2 { assert Members(e, s, Some(2), false, {}) == {} && Members(e, s, Some(2), true, {}) == {}; }
    }
  }

  /** The only address is of network 1, and only network 2 has a counter: this passes the check. */
  lemma MissingCounter(e: Env, s: State)
    requires e == ONE_NETWORK && s == MISCOUNTED
    ensures InTables(s) && Passes(e, s) && !CountsOk(e, s, {})
  {
    MiscountedSizes(e, s);
    MiscountedTables(e, s);
    MiscountedNets(e, s);
    PassedCounts(e, s);
  }
}
