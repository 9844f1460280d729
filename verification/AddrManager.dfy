/** The address manager, src/addrman.cpp:402-690 and 812-1001: every operation keeps its tables consistent. */
module AddrManager {
  import opened Basics
  import Digits
  import opened AddrTables
  import opened AddrSteps

  const COLLISION_SIZE: nat := 10
  const HORIZON: int := 30 * 24 * 3600
  const RETRIES: int := 3
  const MAX_FAILURES: int := 10
  const MIN_FAIL: int := 7 * 24 * 3600
  const REPLACEMENT: int := 4 * 3600
  const TEST_WINDOW: int := 40 * 60

  /** Are the statistics of the address bad enough to drop it? */
  predicate IsTerrible(i: Info, now: int) {
    && now - i.lastTry > 60
    && (|| i.time > now + 600 || now - i.time > HORIZON || (i.lastSuccess == 0 && i.attempts >= RETRIES)
        || (now - i.lastSuccess > MIN_FAIL && i.attempts >= MAX_FAILURES))
  }

  /** The address is known, and in the tried table. */
  ghost predicate Tried(s: State, addr: Addr) {
    addr in s.ids && s.ids[addr] in s.info && s.info[s.ids[addr]].inTried
  }

  class AddrMan {
    const e: Env
    var s: State
    var lastGood: int

    ghost predicate Valid()
      reads this
    {
      Consistent(e, s)
    }

    constructor (e: Env)
      ensures Valid() && this.e == e && s == EMPTY
    {
      this.e, s, lastGood := e, EMPTY, 1;
      EmptyConsistent(e);
    }

    function Find(addr: Addr): (id: Option<Id>)
      reads this
      ensures IndexOk(s) ==> (id.Some? <==> addr in s.ids) && (id.Some? ==>
                                                               id.value in s.info && s.info[id.value].addr == addr)
    {
      assert IndexOk(s) ==> AddrOk(s, addr);
      if addr in s.ids && s.ids[addr] in s.info then Some(s.ids[addr]) else None
    }

    method SwapRandom(i: nat, j: nat)
      requires Inv(e, s, {}, {}) && i < |s.random| && j < |s.random|
      modifies this`s
      ensures Inv(e, s, {}, {}) && SameButOrder(old(s), s)
      ensures s.random == old(s.random)[i := old(s.random[j])][j := old(s.random[i])]
    {
      SwappedInv(e, s, {}, {}, i, j);
      SwappedSame(s, i, j);
      s := Swapped(s, i, j);
    }

    /** Only addresses without references, and not in the tried table, are deleted. */
    method Delete(id: Id, ghost x: set<Id>, ghost u: set<Id>)
      requires Inv(e, s, x, u) && id in s.info && !s.info[id].inTried && s.info[id].refCount == 0 && id !in u
      modifies this`s
      ensures Inv(e, s, x - {id}, u) && Without(old(s), s, id)
    {
      DeletedInv(e, s, x, u, id);
      DeletedWithout(e, s, id);
      s := Deleted(e, s, id);
    }

    /** Empty a slot of the new table; an address that loses its last reference is deleted. */
    method ClearNew(t: Slot, ghost x: set<Id>, ghost u: set<Id>)
      requires Inv(e, s, x, u) && forall k :: k in u && k in s.info ==> s.info[k].refCount == 0
      modifies this`s
      ensures Inv(e, s, x, u) && SlotCleared(old(s), s, t)
    {
      ClearedInv(e, s, x, u, t);
      ClearedFacts(e, s, t);
      s := Cleared(e, s, t);
    }

    // ----- Into the tried table -----

    /** Take the address out of all new buckets, going round from its own. */
    method RemoveFromNew(id: Id)
      requires Inv(e, s, {id}, {}) && id in s.info && !s.info[id].inTried
      modifies this`s
      ensures Inv(e, s, {id}, {})
      ensures s == old(s.(info := s.info[id := s.info[id].(refCount := 0)], newTable := Dropped(s.newTable, id)))
    {
      var start := e.newBucket(s.info[id].addr, s.info[id].source) % NEW_BUCKETS;
      assert Placed(e, s, id);
      var n := 0;
      while n < NEW_BUCKETS && s.info[id].refCount > 0
        invariant Inv(e, s, {id}, {}) && SameBut(old(s), s, id) && n <= NEW_BUCKETS
        invariant id in s.info && s.info[id].refCount == |Refs(e, s, id)|
        invariant NotAmong(start, n, Refs(e, s, id))
      {
        UnrefIfInv(e, old(s), s, id, Round(start, n));
        NextRound(start, n, Refs(e, s, id));
        s := UnrefIf(e, s, id, Round(start, n));
        n := n + 1;
      }
      if n == NEW_BUCKETS { AllRounds(start, Refs(e, s, id)); }
      NoneLeft(e, old(s), s, id);
    }

    /** Enter an address that is in no table into the new table again. */
    method EnterNew(y: Id, b: nat, ghost id: Id)
      requires Inv(e, s, {id} + {y}, {id} + {y}) && y in s.info && !s.info[y].inTried && s.info[y].refCount == 0
               && y != id
      requires b < NEW_BUCKETS && e.NewSlot(s.info[y].addr, b) !in s.newTable && id in s.info
      modifies this`s
      ensures Inv(e, s, {id}, {id}) && s.triedTable == old(s.triedTable) && Shrunk(old(s), s)
      ensures s.info == old(s.info[y := s.info[y].(refCount := 1)])
      ensures s.newTable == old(s.newTable[e.NewSlot(s.info[y].addr, b) := y])
    {
      RefInv(e, s, {id} + {y}, {id} + {y}, y, b);
      s := Ref(e, s, y, b);
      assert {id} + {y} - {y} == {id};
      CountsInv(e, s, {id}, {id} + {y}, {id}, y, 1);
      s := AddCount(s, e.network(s.info[y].addr), 1, 0);
    }

    /** Move the address at a tried slot back to the new table, deleting whatever is there. */
    method EvictTried(y: Id, ghost id: Id)
      requires Inv(e, s, {id}, {id}) && id in s.info && s.info[id].refCount == 0 && y in s.info && s.info[y].inTried
               && y != id
      modifies this`s
      ensures Inv(e, s, {id}, {id}) && s.triedTable == old(s.triedTable) - {e.triedSlot(old(s.info[y].addr))}
      ensures Shrunk(old(s), s) && SameInfo(old(s), s, id) && SentBack(e, old(s), s, y)
    {
      assert RangeOk(s, {id}, y);
      LeaveTriedInv(e, s, {id}, {id}, y);
      s := LeaveTried(e, s, y);
      var b := e.newBucket(s.info[y].addr, s.info[y].source) % NEW_BUCKETS;
      var t := e.NewSlot(s.info[y].addr, b);
      if t in s.newTable {
        Unreferenced(e, s, y, t);
        Unreferenced(e, s, id, t);
      }
      ghost var s1 := s;
      ClearNew(t, {id} + {y}, {id} + {y});
      assert SameInfo(s1, s, y) && SameInfo(s1, s, id);
      ghost var s2 := s;
      EnterNew(y, b, id);
      SentBackBy(e, old(s), s1, s2, s, y);
    }

    /** Take an address out of the new table and of the count of new addresses. */
    method LeaveNew(id: Id)
      requires Inv(e, s, {}, {}) && id in s.info && !s.info[id].inTried
      modifies this`s
      ensures Inv(e, s, {id}, {id}) && Shrunk(old(s), s) && s.triedTable == old(s.triedTable)
      ensures s.info == old(s.info[id := s.info[id].(refCount := 0)]) && s.newTable == old(Dropped(s.newTable, id))
    {
      MoreExempt(e, s, {}, {}, id);
      assert {} + {id} == {id};
      RemoveFromNew(id);
      CountsInv(e, s, {id}, {}, {id}, id, -1);
      s := AddCount(s, e.network(s.info[id].addr), -1, 0);
    }

    /** Move an address that was reached to the tried table, where its slot stays taken from now on. */
    method MakeTried(id: Id)
      requires Inv(e, s, {}, {}) && id in s.info && !s.info[id].inTried && s.info[id].lastSuccess > 0
      modifies this`s
      ensures Inv(e, s, {}, {}) && Shrunk(old(s), s) && id in s.info
      ensures TookSlot(e, old(s), s, id)
    {
      LeaveNew(id);
      ghost var s1 := s;
      FreeSlot(id);
      ghost var s2 := s;
      TakeSlot(id);
      TookSlotBy(e, old(s), s1, s2, s, id);
    }

    /** Make sure that the tried slot of the address is free. */
    method FreeSlot(id: Id)
      requires Inv(e, s, {id}, {id}) && id in s.info && !s.info[id].inTried && s.info[id].refCount == 0
      modifies this`s
      ensures Inv(e, s, {id}, {id}) && Shrunk(old(s), s) && SameInfo(old(s), s, id)
      ensures var t := e.triedSlot(old(s.info[id].addr));
        && s.triedTable == old(s.triedTable) - {t}
        && if t in old(s.triedTable) then
             old(s.triedTable)[t] in old(s.info) && old(s.triedTable)[t] != id
             && SentBack(e, old(s), s, old(s.triedTable)[t])
           else s == old(s)
    {
      var t := e.triedSlot(s.info[id].addr);
      if t in s.triedTable {
        assert TriedOk(e, s, t);
        EvictTried(s.triedTable[t], id);
      }
    }

    method TakeSlot(id: Id)
      requires Inv(e, s, {id}, {id}) && id in s.info && !s.info[id].inTried && s.info[id].refCount == 0
               && s.info[id].lastSuccess > 0
      requires e.triedSlot(s.info[id].addr) !in s.triedTable
      modifies this`s
      ensures Inv(e, s, {}, {}) && id in s.info && s.info[id].inTried
              && s.triedTable == old(s.triedTable)[e.triedSlot(old(s.info[id].addr)) := id]
      ensures s.info == old(s.info)[id := old(s.info[id]).(inTried := true)]
      ensures s.newTable == old(s.newTable) && s.collisions == old(s.collisions) && s.nextId == old(s.nextId)
    {
      EnterTriedInv(e, s, {id}, {id}, id);
      assert {id} - {id} == {};
      s := EnterTried(e, s, id);
    }

    // ----- What callers do -----

    /** Update the statistics of a known address. */
    method Touch(id: Id, i: Info)
      requires Valid() && id in s.info && i.lastTry >= 0 && i.lastSuccess >= 0 && (i.inTried ==> i.lastSuccess > 0)
      requires var was := s.info[id]; i == was.(time := i.time, services := i.services, lastTry := i.lastTry,
                                                lastSuccess := i.lastSuccess,
                                                lastCount := i.lastCount, attempts := i.attempts)
      modifies this`s
      ensures Valid() && s == old(s).(info := old(s.info)[id := i])
    {
      TouchInv(e, s, {}, {}, id, i);
      StillCollides(e, s, SetInfo(s, id, i));
      s := SetInfo(s, id, i);
    }

    /**
     * An address that was reached moves to the tried table, unless another one has its slot and is to be tested first.
     */
    method Good(addr: Addr, testBeforeEvict: bool, time: int) returns (moved: bool)
      requires Valid() && time > 0
      modifies this
      ensures Valid() && old(s.triedTable.Keys) <= s.triedTable.Keys
      ensures moved <==> old(addr in s.ids && !Tried(s, addr)
                             && !(testBeforeEvict && e.triedSlot(addr) in s.triedTable))
      ensures lastGood == time && (addr !in old(s.ids) ==> s == old(s))
      ensures addr in old(s.ids) ==>
        && addr in s.ids && s.ids[addr] in s.info && old(s.ids[addr] in s.info)
        && var i, i' := old(s.info[s.ids[addr]]), s.info[s.ids[addr]];
        i' == i.(lastSuccess := time, lastTry := time, attempts := 0, inTried := i.inTried || moved,
                 refCount := if moved then 0 else i.refCount, randomPos := i'.randomPos)
      ensures addr in old(s.ids) ==>
        var s1 := old(Reached(s, s.ids[addr], time));
        if moved then TookSlot(e, s1, s, old(s.ids[addr])) else s == s1.(collisions := s.collisions)
      ensures s.collisions == if old(addr in s.ids && !Tried(s, addr) && |s.collisions| < COLLISION_SIZE) && !moved
        then old(s.collisions + {s.ids[addr]}) else old(s.collisions)
      ensures s.triedTable == if moved then old(s.triedTable[e.triedSlot(addr) := s.ids[addr]]) else old(s.triedTable)
    {
      lastGood := time;
      assert AddrOk(s, addr);
      var found := Find(addr);
      if found.None? { return false; }
      var id := found.value;
      assert RangeOk(s, {}, id) && Known(s, id);
      Touch(id, Reached(s, id, time).info[id]);
      if s.info[id].inTried { return false; }
      var t := e.triedSlot(addr);
      if testBeforeEvict && t in s.triedTable {
        if |s.collisions| < COLLISION_SIZE {
          Collided(e, s, id);
          s := s.(collisions := s.collisions + {id});
        }
        return false;
      }
      ghost var s0 := s;
      MakeTried(id);
      StillCollides(e, s0, s);
      assert Known(s, id);
      moved := true;
    }

    method InsertNew(id: Id, b: nat)
      requires Inv(e, s, {id}, {}) && id in s.info && !s.info[id].inTried
               && 0 <= s.info[id].refCount < NEW_BUCKETS_PER_ADDRESS && b < NEW_BUCKETS
      requires var t := e.NewSlot(s.info[id].addr, b); t in s.newTable ==> s.newTable[t] != id
      modifies this`s
      ensures Inv(e, s, {}, {}) && Shrunk(old(s), s) && s.triedTable == old(s.triedTable)
      ensures PlacedIn(old(s), s, id, e.NewSlot(old(s.info[id].addr), b), true)
    {
      ghost var s0 := s;
      var t := e.NewSlot(s.info[id].addr, b);
      ClearNew(t, {id}, {});
      assert SameInfo(s0, s, id);
      ghost var s1 := s;
      RefInv(e, s, {id}, {}, id, b);
      s := Ref(e, s, id, b);
      assert {id} - {id} == {};
      ClearedAndPlaced(e, s0, s1, id, b);
    }

    /** Put an address that may have no reference yet into a bucket of the new table, if it is free or may be
        freed; drop the address otherwise. */
    method PlaceNew(id: Id, b: nat, now: int) returns (inserted: bool)
      requires Inv(e, s, {id}, {}) && id in s.info && !s.info[id].inTried
               && 0 <= s.info[id].refCount < NEW_BUCKETS_PER_ADDRESS && b < NEW_BUCKETS
      modifies this`s
      ensures Inv(e, s, {}, {}) && Shrunk(old(s), s) && s.triedTable == old(s.triedTable)
      ensures var t := e.NewSlot(old(s.info[id].addr), b);
        inserted == old(RoomFor(s, t, id, s.info[id].refCount, now)) && PlacedIn(old(s), s, id, t, inserted)
    {
      assert RangeOk(s, {id}, id);
      var t := e.NewSlot(s.info[id].addr, b);
      inserted := t !in s.newTable;
      if t in s.newTable && s.newTable[t] == id {
        InSlot(e, s, t);
        assert Placed(e, s, id) && Refs(e, s, id) != {};
        NoneExempt(e, s, id);
        return;
      }
      if !inserted {
        InSlot(e, s, t);
        var existing := s.info[s.newTable[t]];
        inserted := IsTerrible(existing, now) || (existing.refCount > 1 && s.info[id].refCount == 0);
      }
      if inserted {
        InsertNew(id, b);
      } else if s.info[id].refCount == 0 {
        Delete(id, {id}, {});
        assert {id} - {id} == {};
      } else {
        NoneExempt(e, s, id);
      }
    }

    /** Announce an address: it gets one more place in the new table at most, and none if nobody can reach it. */
    method AddSingle(a: Address, source: Addr, timePenalty: int, now: int, draw: nat) returns (inserted: bool)
      requires Valid()
      modifies this`s
      ensures Valid() && Announced(e, old(s), s, a, source, timePenalty, now, draw, inserted)
    {
      inserted := false;
      if e.routable(a.addr) {
        var penalty := if a.addr == source then 0 else timePenalty;
        var found := Find(a.addr);
        assert AddrOk(s, a.addr);
        if found.Some? {
          inserted := AddKnown(found.value, a, source, penalty, now, draw);
        } else {
          inserted := AddUnknown(a, source, penalty, now);
        }
      }
    }

    method AddKnown(id: Id, a: Address, source: Addr, penalty: int, now: int, draw: nat) returns (inserted: bool)
      requires Valid() && id in s.info && s.info[id].addr == a.addr
      modifies this`s
      ensures Valid() && s.triedTable == old(s.triedTable)
      ensures Reannounced(e, old(s), s, id, a, source, penalty, now, draw, inserted)
    {
      ghost var s0 := s;
      assert RangeOk(s, {}, id);
      var i := s.info[id];
      var later := Later(i, a, penalty, now);
      Touch(id, i.(time := later, services := i.services + a.services));
      ghost var s1 := s;
      inserted := false;
      // Each reference makes the next one half as likely.
      if !(a.time <= later || i.inTried || i.refCount == NEW_BUCKETS_PER_ADDRESS
           || (i.refCount > 0 && draw % Odds(i.refCount) != 0)) {
        MoreExempt(e, s, {}, {}, id);
        assert {} + {id} == {id};
        inserted := PlaceNew(id, e.newBucket(a.addr, source) % NEW_BUCKETS, now);
        StillCollides(e, s1, s);
      }
      ReannouncedBy(e, s0, s1, s, id, a, source, penalty, now, draw, inserted);
    }

    method AddUnknown(a: Address, source: Addr, penalty: int, now: int) returns (inserted: bool)
      requires Valid() && a.addr !in s.ids
      modifies this`s
      ensures Valid() && s.triedTable == old(s.triedTable)
      ensures Introduced(e, old(s), s, a, source, penalty, now, inserted)
    {
      ghost var s0 := s;
      var id := s.nextId;
      CreatedInv(e, s, a.addr, source, Max(0, a.time - penalty), a.services);
      s := Created(e, s, a.addr, source, Max(0, a.time - penalty), a.services);
      ghost var s1 := s;
      inserted := PlaceNew(id, e.newBucket(a.addr, source) % NEW_BUCKETS, now);
      StillCollides(e, s0, s);
      IntroducedBy(e, s0, s1, s, id, a, source, penalty, now, inserted);
    }

    /** Announce addresses one after the other; steps are the states in between. */
    method Add(addrs: seq<Address>, source: Addr, timePenalty: int, now: int, draws: seq<nat>)
      returns (any: bool, ghost steps: seq<State>, ghost inserted: seq<bool>)
      requires Valid() && |draws| == |addrs|
      modifies this`s
      ensures Valid() && |steps| == |addrs| + 1 && steps[0] == old(s) && steps[|addrs|] == s && |inserted| == |addrs|
      ensures forall k :: 0 <= k < |addrs| ==>
        Announced(e, steps[k], steps[k + 1], addrs[k], source, timePenalty, now, draws[k], inserted[k])
      ensures any <==> true in inserted
    {
      any, steps, inserted := false, [s], [];
      for k := 0 to |addrs|
        invariant Valid() && |steps| == k + 1 && steps[0] == old(s) && steps[k] == s && |inserted| == k
        invariant forall j :: 0 <= j < k ==>
          Announced(e, steps[j], steps[j + 1], addrs[j], source, timePenalty, now, draws[j], inserted[j])
        invariant any <==> true in inserted
      {
        var more := AddSingle(addrs[k], source, timePenalty, now, draws[k]);
        any, steps, inserted := any || more, steps + [s], inserted + [more];
      }
    }

    method Attempt(addr: Addr, countFailure: bool, time: int)
      requires Valid() && time >= 0
      modifies this`s
      ensures Valid() && (addr !in old(s.ids) ==> s == old(s))
      ensures addr in old(s.ids) ==>
        old(s.ids[addr] in s.info) && var i := old(s.info[s.ids[addr]]);
        var counts := countFailure && i.lastCount < lastGood;
        s == old(SetInfo(s, s.ids[addr], i.(lastTry := time, lastCount := if counts then time else i.lastCount,
                                            attempts := i.attempts + if counts then 1 else 0)))
    {
      var found := Find(addr);
      assert AddrOk(s, addr);
      if found.Some? {
        var i := s.info[found.value];
        assert RangeOk(s, {}, found.value);
        var counts := countFailure && i.lastCount < lastGood;
        Touch(found.value, i.(lastTry := time, lastCount := if counts then time else i.lastCount,
                              attempts := if counts then i.attempts + 1 else i.attempts));
      }
    }

    method Connected(addr: Addr, time: int)
      requires Valid()
      modifies this`s
      ensures Valid() && (addr !in old(s.ids) ==> s == old(s))
      ensures addr in old(s.ids) ==>
        old(s.ids[addr] in s.info) && var i := old(s.info[s.ids[addr]]);
        s == if time - i.time > 20 * 60 then old(SetInfo(s, s.ids[addr], i.(time := time))) else old(s)
    {
      var found := Find(addr);
      assert AddrOk(s, addr);
      if found.Some? && time - s.info[found.value].time > 20 * 60 {
        assert RangeOk(s, {}, found.value);
        Touch(found.value, s.info[found.value].(time := time));
      }
    }

    method SetServices(addr: Addr, services: set<nat>)
      requires Valid()
      modifies this`s
      ensures Valid() && (addr !in old(s.ids) ==> s == old(s))
      ensures addr in old(s.ids) ==>
        && old(s.ids[addr] in s.info)
        && s == old(SetInfo(s, s.ids[addr], s.info[s.ids[addr]].(services := services)))
    {
      var found := Find(addr);
      assert AddrOk(s, addr);
      if found.Some? {
        assert RangeOk(s, {}, found.value);
        Touch(found.value, s.info[found.value].(services := services));
      }
    }

    // ----- Collisions -----

    /** Is the collision of this address over? If so, the address may have taken the slot. */
    method ResolveOne(id: Id, now: int) returns (over: bool)
      requires Valid() && now > 0 && id in s.collisions
      modifies this
      ensures Valid() && s.collisions == old(s.collisions)
      ensures over <==> old(Verdict(e, s, id, now) != Wait)
      ensures Judged(e, old(s), s, id, now)
    {
      if id !in s.info { return true; }
      var i := s.info[id];
      assert Collides(e, s, id) && Known(s, id);
      var t := e.triedSlot(i.addr);
      if !e.valid(i.addr) { return true; }
      // The slot is taken, so that the case of a collision that is none any more does not arise.
      assert TriedOk(e, s, t);
      var old' := s.info[s.triedTable[t]];
      over := false;
      if now - old'.lastSuccess < REPLACEMENT {
        over := true;
      } else if now - old'.lastTry < REPLACEMENT {
        if now - old'.lastTry > 60 {
          var _ := Good(i.addr, false, now);
          over := true;
        }
      } else if now - i.lastSuccess > TEST_WINDOW {
        var _ := Good(i.addr, false, now);
        over := true;
      }
    }

    /**
     * Every slot of the tried table stays taken. Those that still wait are exactly the ones that the verdict, in the
     * state at[id] in which it was reached, left waiting, and a slot only goes to an address that was to replace
     * another one.
     */
    method ResolveCollisions(now: int)
      returns (ghost order: seq<Id>, ghost states: seq<State>, ghost at: map<Id, State>)
      requires Valid() && now > 0
      modifies this
      ensures Valid() && ResolvedSoFar(e, old(s), s, {}, at, now)
      ensures InTurn(e, order, states, at, now) && states[0] == old(s) && states[|order|] == s
    {
      order, states, at := [], [s], map[];
      var todo := s.collisions;
      while todo != {}
        invariant Valid() && ResolvedSoFar(e, old(s), s, todo, at, now)
        invariant InTurn(e, order, states, at, now) && states[0] == old(s) && states[|order|] == s
        decreases todo
      {
        var id :| id in todo;
        ghost var was := s;
        var over := ResolveOne(id, now);
        if over {
          Resolved(e, s, id);
          s := s.(collisions := s.collisions - {id});
        }
        JudgedSlots(e, was, s, id, now);
        ResolvedStep(e, old(s), was, s, todo, at, id, now);
        InTurnNext(e, order, states, at, now, id, s);
        order, states := order + [id], states + [s];
        todo, at := todo - {id}, at[id := was];
      }
    }

    /** The address that has the tried slot that another one waits for; there always is one. */
    method SelectTriedCollision() returns (r: Option<(Addr, int)>, ghost waiting: Id)
      requires Valid()
      modifies this`s
      ensures Valid()
      ensures old(s.collisions) == {} ==> r.None? && s == old(s)
      ensures old(s.collisions) != {} ==> waiting in old(s.collisions)
      ensures old(s.collisions) != {} && waiting !in old(s.info) ==>
        r.None? && s == old(s).(collisions := old(s.collisions) - {waiting})
      ensures old(s.collisions) != {} && waiting in old(s.info) ==>
        && s == old(s) && var t := e.triedSlot(s.info[waiting].addr);
        && t in s.triedTable && s.triedTable[t] in s.info && var holder := s.info[s.triedTable[t]];
        && r == Some((holder.addr, holder.lastTry)) && Tried(s, holder.addr)
    {
      r, waiting := None, 0;
      if s.collisions == {} { return; }
      var id :| id in s.collisions;
      waiting := id;
      if id !in s.info {
        Resolved(e, s, id);
        s := s.(collisions := s.collisions - {id});
        return;
      }
      assert Collides(e, s, id);
      var t := e.triedSlot(s.info[id].addr);
      assert TriedOk(e, s, t) && Known(s, s.triedTable[t]);
      var i := s.info[s.triedTable[t]];
      r := Some((i.addr, i.lastTry));
    }

    // ----- A random selection -----

    /** Bring a random one of the remaining addresses forward, and keep it if it qualifies. */
    method PickNext(n: nat, addrs0: seq<Addr>, network: Option<Network>, filtered: bool, now: int,
                    ghost places0: seq<nat>)
      returns (addrs: seq<Addr>, ghost places: seq<nat>)
      requires Valid() && n < |s.random| && Picked(s, addrs0, places0, n)
      requires forall k :: 0 <= k < |addrs0| ==> Qualifies(e, s, addrs0[k], network, filtered, now)
      requires Covers(e, s, addrs0, network, filtered, now, n)
      modifies this`s
      ensures Valid() && SameButOrder(old(s), s) && |s.random| == old(|s.random|) && |addrs| <= |addrs0| + 1
              && Picked(s, addrs, places, n + 1)
      ensures forall k :: 0 <= k < |addrs| ==> Qualifies(e, s, addrs[k], network, filtered, now)
      ensures Covers(e, s, addrs, network, filtered, now, n + 1)
    {
      addrs, places := addrs0, places0;
      var r: nat :| n <= r < |s.random|;
      ghost var s0 := s;
      SwapRandom(n, r);
      StillCollides(e, s0, s);
      PickedKept(e, s0, s, addrs, places, n, network, filtered, now);
      CoversKept(e, s0, s, addrs, network, filtered, now, n);
      assert OrderOk(s, n) && Known(s, s.random[n]);
      var i := s.info[s.random[n]];
      if !(network.Some? && e.netClass(i.addr) != network.value) && !(filtered && IsTerrible(i, now)) {
        addrs, places := addrs + [i.addr], places + [n];
      }
      PickedNext(e, s, addrs0, places0, n, network, filtered, now, addrs, places);
    }

    /** Addresses without repetition, of the network and quality asked for: as many as asked for, or all there are. */
    method GetAddr(maxAddresses: nat, maxPct: nat, network: Option<Network>, filtered: bool, now: int)
      returns (addrs: seq<Addr>)
      requires Valid()
      modifies this`s
      ensures Valid() && SameButOrder(old(s), s) && Distinct(addrs)
      ensures forall k :: 0 <= k < |addrs| ==> Qualifies(e, s, addrs[k], network, filtered, now)
      ensures Allowed(|addrs|, maxAddresses, maxPct, old(|s.random|))
      ensures Allowed(|addrs| + 1, maxAddresses, maxPct, old(|s.random|)) ==>
        forall a :: Qualifies(e, s, a, network, filtered, now) ==> a in addrs
    {
      var nodes := AskedFor(maxAddresses, maxPct, |s.random|);
      addrs := Gather(nodes, network, filtered, now);
      AskedForMost(maxAddresses, maxPct, old(|s.random|), |addrs|);
      AskedForMost(maxAddresses, maxPct, old(|s.random|), |addrs| + 1);
    }

    /** The loop of GetAddr, for so many addresses. */
    method Gather(nodes: nat, network: Option<Network>, filtered: bool, now: int) returns (addrs: seq<Addr>)
      requires Valid()
      modifies this`s
      ensures Valid() && SameButOrder(old(s), s) && Distinct(addrs) && |addrs| <= nodes
      ensures forall k :: 0 <= k < |addrs| ==> Qualifies(e, s, addrs[k], network, filtered, now)
      ensures |addrs| < nodes ==> forall a :: Qualifies(e, s, a, network, filtered, now) ==> a in addrs
    {
      addrs := [];
      var n := 0;
      ghost var places: seq<nat> := [];
      while n < |s.random| && |addrs| < nodes
        invariant Valid() && SameButOrder(old(s), s) && n <= |s.random| && |addrs| <= nodes
        invariant Picked(s, addrs, places, n)
                  && forall k :: 0 <= k < |addrs| ==> Qualifies(e, s, addrs[k], network, filtered, now)
        invariant Covers(e, s, addrs, network, filtered, now, n)
        decreases |s.random| - n
      {
        addrs, places := PickNext(n, addrs, network, filtered, now, places);
        n := n + 1;
      }
      PickedDistinct(s, addrs, places, n);
      if n == |s.random| { CoversAll(e, s, addrs, network, filtered, now); }
    }
  }

  // ----- Announcements -----

  /** An address as it is announced, with the time when it was last seen. */
  datatype Address = Address(addr: Addr, time: int, services: set<nat>)

  /** May slot t be given to id, which has so many references? It is free, or its holder may lose it. */
  ghost predicate RoomFor(s: State, t: Slot, id: Id, refs: int, now: int) {
    t !in s.newTable || (s.newTable[t] != id && s.newTable[t] in s.info
                         && var holder := s.info[s.newTable[t]];
                            IsTerrible(holder, now) || (holder.refCount > 1 && refs == 0))
  }

  /** An address that keeps its entry when id is put into slot t. */
  ghost predicate Undisturbed(s: State, id: Id, t: Slot, inserted: bool, k: Id) {
    k in s.info && k != id && (inserted && t in s.newTable ==> k != s.newTable[t])
  }

  /** Slot t was given to id; otherwise nothing happened, but that id is gone if it has no references. */
  ghost predicate PlacedIn(s: State, s': State, id: Id, t: Slot, inserted: bool)
    requires id in s.info
  {
    && s'.newTable == (if inserted then s.newTable[t := id] else s.newTable)
    && (if inserted then
          id in s'.info
          && s'.info[id] == s.info[id].(refCount := s.info[id].refCount + 1, randomPos := s'.info[id].randomPos)
        else if s.info[id].refCount == 0 then id !in s'.info
        else s' == s)
    && (forall k :: Undisturbed(s, id, t, inserted, k) ==> SameInfo(s, s', k))
  }

  lemma ClearedAndPlaced(e: Env, s: State, s1: State, id: Id, b: nat)
    requires SameInfo(s, s1, id) && SlotCleared(s, s1, e.NewSlot(s.info[id].addr, b))
    requires var t := e.NewSlot(s.info[id].addr, b); t in s.newTable ==> s.newTable[t] != id
    ensures PlacedIn(s, Ref(e, s1, id, b), id, e.NewSlot(s.info[id].addr, b), true)
    ensures Shrunk(s, Ref(e, s1, id, b)) && Ref(e, s1, id, b).triedTable == s.triedTable
  {
    var t, s' := e.NewSlot(s.info[id].addr, b), Ref(e, s1, id, b);
    assert (s.newTable - {t})[t := id] == s.newTable[t := id];
    forall k | Undisturbed(s, id, t, true, k) ensures SameInfo(s, s', k) { assert SameInfo(s, s1, k); }
  }

  /** The time of a known address, which is only updated once it is an hour, or a day, later than it was. */
  function Later(i: Info, a: Address, penalty: int, now: int): int {
    var interval := if now - a.time < 24 * 3600 then 3600 else 24 * 3600;
    if i.time < a.time - interval - penalty then Max(0, a.time - penalty) else i.time
  }

  function SlotFor(e: Env, a: Addr, source: Addr): Slot {
    e.NewSlot(a, e.newBucket(a, source) % NEW_BUCKETS)
  }

  /** With n references, one draw out of so many is in favour of another one. */
  function Odds(n: int): (r: nat)
    ensures r > 0
  {
    if n <= 0 then 1 else Digits.Pow(2, n)
  }

  /** A new address has its entry, if there is room for it, and is not known otherwise. */
  ghost predicate Introduced(e: Env, s: State, s': State, a: Address, source: Addr, penalty: int, now: int,
                             inserted: bool) {
    var t := SlotFor(e, a.addr, source);
    && (inserted <==> t !in s.newTable || (s.newTable[t] in s.info && (IsTerrible(s.info[s.newTable[t]], now)
                                                                      || s.info[s.newTable[t]].refCount > 1)))
    && (if inserted then
          && a.addr in s'.ids && s'.ids[a.addr] in s'.info && s'.ids[a.addr] !in s.info
          && s'.newTable == s.newTable[t := s'.ids[a.addr]]
          && var i := s'.info[s'.ids[a.addr]];
          i == Info(a.addr, source, 1, false, i.randomPos, Max(0, a.time - penalty), a.services, 0, 0, 0, 0)
        else a.addr !in s'.ids && s'.newTable == s.newTable)
    && (forall k :: k in s.info && (inserted && t in s.newTable ==> k != s.newTable[t]) ==> SameInfo(s, s', k))
  }

  /**
   * A known address has its time and services updated. It gets another slot if there is room and the time is news, if
   * it is not tried and has less than eight references, and if the draw is in its favour.
   */
  ghost predicate Reannounced(e: Env, s: State, s': State, id: Id, a: Address, source: Addr, penalty: int, now: int,
                              draw: nat, inserted: bool)
    requires id in s.info
  {
    var t, i := SlotFor(e, a.addr, source), s.info[id];
    && (inserted <==> Later(i, a, penalty, now) < a.time && !i.inTried && i.refCount < NEW_BUCKETS_PER_ADDRESS
                      && draw % Odds(i.refCount) == 0 && RoomFor(s, t, id, i.refCount, now))
    && s'.newTable == (if inserted then s.newTable[t := id] else s.newTable)
    && id in s'.info && a.addr in s'.ids && s'.ids[a.addr] == id
    && s'.info[id] == i.(time := Later(i, a, penalty, now), services := i.services + a.services,
                         refCount := i.refCount + (if inserted then 1 else 0), randomPos := s'.info[id].randomPos)
    && (forall k :: Undisturbed(s, id, t, inserted, k) ==> SameInfo(s, s', k))
  }

  lemma IntroducedBy(e: Env, s: State, s1: State, s': State, id: Id, a: Address, source: Addr, penalty: int, now: int,
                     inserted: bool)
    requires Inv(e, s, {}, {}) && a.addr !in s.ids && id == s.nextId && id !in s.info
    requires s1 == Created(e, s, a.addr, source, Max(0, a.time - penalty), a.services)
    requires IndexOk(s1) && IndexOk(s') && Shrunk(s1, s')
    requires inserted == RoomFor(s1, SlotFor(e, a.addr, source), id, 0, now)
    requires id in s1.info && PlacedIn(s1, s', id, SlotFor(e, a.addr, source), inserted)
    ensures Introduced(e, s, s', a, source, penalty, now, inserted)
  {
    var t := SlotFor(e, a.addr, source);
    assert NewOk(e, s, t);
    assert AddrOk(s', a.addr);
    if a.addr in s'.ids { assert Known(s1, s'.ids[a.addr]); }
    if inserted { assert Known(s', id); }
    forall k | k in s.info && (inserted && t in s.newTable ==> k != s.newTable[t]) ensures SameInfo(s, s', k) {
      assert Undisturbed(s1, id, t, inserted, k);
    }
  }

  lemma ReannouncedBy(e: Env, s: State, s1: State, s': State, id: Id, a: Address, source: Addr, penalty: int, now: int,
                      draw: nat, inserted: bool)
    requires Inv(e, s, {}, {}) && id in s.info && s.info[id].addr == a.addr && IndexOk(s')
    requires var i := s.info[id];
      && s1 == SetInfo(s, id, i.(time := Later(i, a, penalty, now), services := i.services + a.services))
      && (if Later(i, a, penalty, now) < a.time && !i.inTried && i.refCount < NEW_BUCKETS_PER_ADDRESS
             && draw % Odds(i.refCount) == 0
          then inserted == RoomFor(s1, SlotFor(e, a.addr, source), id, i.refCount, now)
               && PlacedIn(s1, s', id, SlotFor(e, a.addr, source), inserted)
          else !inserted && s' == s1)
    ensures Reannounced(e, s, s', id, a, source, penalty, now, draw, inserted)
  {
    var t := SlotFor(e, a.addr, source);
    assert RangeOk(s, {}, id) && NewOk(e, s, t);
    forall k | Undisturbed(s, id, t, inserted, k) ensures SameInfo(s, s', k) {
      assert Undisturbed(s1, id, t, inserted, k);
    }
    assert Known(s', id);
  }

  /** What the announcement of an address does. */
  ghost predicate Announced(e: Env, s: State, s': State, a: Address, source: Addr, timePenalty: int, now: int,
                            draw: nat, inserted: bool) {
    var penalty := if a.addr == source then 0 else timePenalty;
    && s'.triedTable == s.triedTable
    && (!e.routable(a.addr) ==> !inserted && s' == s)
    && (e.routable(a.addr) && a.addr !in s.ids ==> Introduced(e, s, s', a, source, penalty, now, inserted))
    && (e.routable(a.addr) && a.addr in s.ids ==>
          s.ids[a.addr] in s.info && Reannounced(e, s, s', s.ids[a.addr], a, source, penalty, now, draw, inserted))
  }

  /** May k addresses be returned, out of n? A limit of zero is none. */
  ghost predicate Allowed(k: nat, maxAddresses: nat, maxPct: nat, n: nat) {
    k <= n && (maxPct != 0 ==> k * 100 <= maxPct * n) && (maxAddresses != 0 ==> k <= maxAddresses)
  }

  /** As many addresses are asked for as are allowed. */
  lemma AskedForMost(maxAddresses: nat, maxPct: nat, n: nat, k: nat)
    ensures Allowed(k, maxAddresses, maxPct, n) <==> k <= AskedFor(maxAddresses, maxPct, n)
  {
    if maxPct != 0 { ShareMost(maxPct, n, k); }
  }

  lemma ShareMost(maxPct: nat, n: nat, k: nat)
    requires maxPct != 0
    ensures k <= n && k * 100 <= maxPct * n <==> k <= Share(maxPct, n)
  {
    if maxPct >= 100 {
      Digits.Times(n, 100, maxPct);
    } else {
      Digits.Times(n, maxPct, 100);
      Digits.Times(maxPct, 0, n);
      Hundredth(maxPct * n, k);
    }
  }

  lemma Hundredth(x: nat, k: nat)
    ensures k * 100 <= x <==> k <= x / 100
  {
  }

  /** How many addresses are asked for, out of n. */
  function AskedFor(maxAddresses: nat, maxPct: nat, n: nat): nat {
    var nodes := if maxPct != 0 then Share(maxPct, n) else n;
    if maxAddresses != 0 && maxAddresses < nodes then maxAddresses else nodes
  }

  /** The address at place k has been returned, if it qualifies. */
  ghost predicate CoversAt(e: Env, s: State, addrs: seq<Addr>, network: Option<Network>, filtered: bool, now: int,
                           k: nat) {
    k < |s.random| && s.random[k] in s.info && Qualifies(e, s, s.info[s.random[k]].addr, network, filtered, now) ==>
      s.info[s.random[k]].addr in addrs
  }

  ghost predicate Covers(e: Env, s: State, addrs: seq<Addr>, network: Option<Network>, filtered: bool, now: int,
                         n: nat) {
    forall k {:trigger CoversAt(e, s, addrs, network, filtered, now, k)} ::
      0 <= k < n ==> CoversAt(e, s, addrs, network, filtered, now, k)
  }

  lemma CoversKept(e: Env, s: State, s': State, addrs: seq<Addr>, network: Option<Network>, filtered: bool, now: int,
                   n: nat)
    requires Covers(e, s, addrs, network, filtered, now, n) && SameButOrder(s, s')
    requires n <= |s.random| == |s'.random| && s'.random[..n] == s.random[..n]
    ensures Covers(e, s', addrs, network, filtered, now, n)
  {
    forall k | 0 <= k < n ensures CoversAt(e, s', addrs, network, filtered, now, k) {
      assert CoversAt(e, s, addrs, network, filtered, now, k) && s'.random[..n][k] == s.random[..n][k];
    }
  }

  lemma CoversNext(e: Env, s: State, addrs: seq<Addr>, addrs': seq<Addr>, network: Option<Network>, filtered: bool,
                   now: int, n: nat)
    requires Covers(e, s, addrs, network, filtered, now, n) && addrs <= addrs'
             && CoversAt(e, s, addrs', network, filtered, now, n)
    ensures Covers(e, s, addrs', network, filtered, now, n + 1)
  {
    forall k | 0 <= k < n + 1 ensures CoversAt(e, s, addrs', network, filtered, now, k) {
      if k < n { assert CoversAt(e, s, addrs, network, filtered, now, k); }
    }
  }

  /** The address at place n is taken, if it qualifies. */
  lemma PickedNext(e: Env, s: State, addrs0: seq<Addr>, places0: seq<nat>, n: nat, network: Option<Network>,
                   filtered: bool, now: int, addrs: seq<Addr>, places: seq<nat>)
    requires IndexOk(s) && n < |s.random| && Picked(s, addrs0, places0, n) && s.random[n] in s.info
    requires forall k :: 0 <= k < |addrs0| ==> Qualifies(e, s, addrs0[k], network, filtered, now)
    requires Covers(e, s, addrs0, network, filtered, now, n)
    requires
      var i := s.info[s.random[n]];
      if (network.Some? ==> e.netClass(i.addr) == network.value) && (filtered ==> !IsTerrible(i, now))
      then addrs == addrs0 + [i.addr] && places == places0 + [n] else addrs == addrs0 && places == places0
    ensures Picked(s, addrs, places, n + 1) && Covers(e, s, addrs, network, filtered, now, n + 1)
    ensures forall k :: 0 <= k < |addrs| ==> Qualifies(e, s, addrs[k], network, filtered, now)
  {
    assert OrderOk(s, n) && Known(s, s.random[n]);
    CoversNext(e, s, addrs0, addrs, network, filtered, now, n);
  }

  lemma CoversAll(e: Env, s: State, addrs: seq<Addr>, network: Option<Network>, filtered: bool, now: int)
    requires IndexOk(s) && Covers(e, s, addrs, network, filtered, now, |s.random|)
    ensures forall a :: Qualifies(e, s, a, network, filtered, now) ==> a in addrs
  {
    forall a | Qualifies(e, s, a, network, filtered, now) ensures a in addrs {
      var id := s.ids[a];
      assert AddrOk(s, a) && Known(s, id);
      assert CoversAt(e, s, addrs, network, filtered, now, s.info[id].randomPos);
    }
  }

  datatype Outcome = Keep | Replace | Wait

  /** Whether the address that has the slot keeps it, is replaced by id, or is still to be tested. */
  ghost function Verdict(e: Env, s: State, id: Id, now: int): Outcome {
    if id !in s.info || !e.valid(s.info[id].addr) then Keep
    else if e.triedSlot(s.info[id].addr) !in s.triedTable
    || s.triedTable[e.triedSlot(s.info[id].addr)] !in s.info then Replace
    else
      var old' := s.info[s.triedTable[e.triedSlot(s.info[id].addr)]];
      if now - old'.lastSuccess < REPLACEMENT then Keep
      else if now - old'.lastTry < REPLACEMENT then (if now - old'.lastTry > 60 then Replace else Wait)
      else if now - s.info[id].lastSuccess > TEST_WINDOW then Replace else Wait
  }

  /** What the verdict does, but for the collision itself. */
  ghost predicate Judged(e: Env, s: State, s': State, id: Id, now: int) {
    if Verdict(e, s, id, now) == Replace then
      id in s.info
      && if s.info[id].inTried then s' == Reached(s, id, now).(collisions := s'.collisions)
         else TookSlot(e, Reached(s, id, now), s', id)
    else s' == s.(collisions := s'.collisions)
  }

  lemma JudgedSlots(e: Env, s: State, s': State, id: Id, now: int)
    requires Judged(e, s, s', id, now)
    ensures s'.triedTable == if Verdict(e, s, id, now) == Replace && id in s.info && !s.info[id].inTried
      then s.triedTable[e.triedSlot(s.info[id].addr) := id] else s.triedTable
  {
  }

  /** One collision after the other was judged, in the state that the ones before had led to; it is over or waits. */
  ghost predicate InTurn(e: Env, order: seq<Id>, states: seq<State>, at: map<Id, State>, now: int) {
    && |states| == |order| + 1 && Distinct(order)
    && (forall id :: id in order <==> id in at)
    && forall k :: 0 <= k < |order| ==> StepOfTurn(e, order, states, at, now, k)
  }

  ghost predicate StepOfTurn(e: Env, order: seq<Id>, states: seq<State>, at: map<Id, State>, now: int, k: nat)
    requires k < |order| && |states| == |order| + 1
  {
    var id, s, s' := order[k], states[k], states[k + 1];
    && id in at && at[id] == s && Judged(e, s, s', id, now)
    && s'.collisions == if Verdict(e, s, id, now) == Wait then s.collisions else s.collisions - {id}
  }

  lemma InTurnNext(e: Env, order: seq<Id>, states: seq<State>, at: map<Id, State>, now: int, id: Id, s: State)
    requires InTurn(e, order, states, at, now) && id !in at && Judged(e, states[|order|], s, id, now)
    requires s.collisions == if Verdict(e, states[|order|], id, now) == Wait then states[|order|].collisions
                             else states[|order|].collisions - {id}
    ensures InTurn(e, order + [id], states + [s], at[id := states[|order|]], now)
  {
    var order', states', at' := order + [id], states + [s], at[id := states[|order|]];
    forall k | 0 <= k < |order'| ensures StepOfTurn(e, order', states', at', now, k) {
      if k < |order| { assert StepOfTurn(e, order, states, at, now, k) && order[k] in order; }
    }
    assert forall i :: i in order' <==> i in order || i == id;
  }

  /** The slot is as it was, or has gone to an address that was to replace another one. */
  ghost predicate SlotResolved(e: Env, s0: State, s: State, at: map<Id, State>, now: int, t: Slot) {
    t in s.triedTable ==>
      (t in s0.triedTable && s.triedTable[t] == s0.triedTable[t]) || Replaced(e, at, s.triedTable[t], now)
  }

  /** From s0 on, all collisions but those of todo have been looked at, each in its state at[id]. */
  ghost predicate ResolvedSoFar(e: Env, s0: State, s: State, todo: set<Id>, at: map<Id, State>, now: int) {
    && s0.triedTable.Keys <= s.triedTable.Keys && todo !! at.Keys && todo + at.Keys == s0.collisions
    && (forall id {:trigger id in s.collisions} ::
        id in s.collisions <==> id in todo || (id in at && Verdict(e, at[id], id, now) == Wait))
    && (forall t {:trigger SlotResolved(e, s0, s, at, now, t)} :: SlotResolved(e, s0, s, at, now, t))
  }

  lemma ResolvedStep(e: Env, s0: State, s: State, s': State, todo: set<Id>, at: map<Id, State>, id: Id, now: int)
    requires ResolvedSoFar(e, s0, s, todo, at, now) && id in todo
    requires s'.collisions == if Verdict(e, s, id, now) == Wait then s.collisions else s.collisions - {id}
    requires s'.triedTable == if Verdict(e, s, id, now) == Replace && id in s.info && !s.info[id].inTried
      then s.triedTable[e.triedSlot(s.info[id].addr) := id] else s.triedTable
    ensures ResolvedSoFar(e, s0, s', todo - {id}, at[id := s], now)
  {
    var at' := at[id := s];
    forall t ensures SlotResolved(e, s0, s', at', now, t) {
      assert SlotResolved(e, s0, s, at, now, t);
    }
    assert at'.Keys == at.Keys + {id};
  }

  ghost predicate Replaced(e: Env, at: map<Id, State>, id: Id, now: int) {
    id in at && Verdict(e, at[id], id, now) == Replace
  }

  /** At most this many per cent of n. */
  function Share(maxPct: nat, n: nat): nat {
    Digits.Times(maxPct, 0, n);
    if maxPct < 100 then maxPct * n / 100 else n
  }

  /** A known address of the network, if one is asked for, and not a terrible one, if that is asked for. */
  ghost predicate Qualifies(e: Env, s: State, a: Addr, network: Option<Network>, filtered: bool, now: int) {
    && a in s.ids && s.ids[a] in s.info && (network.Some? ==> e.netClass(a) == network.value)
    && (filtered ==> !IsTerrible(s.info[s.ids[a]], now))
  }

  /** The addresses come from increasing places of the random order, below n. */
  ghost predicate Picked(s: State, addrs: seq<Addr>, places: seq<nat>, n: nat) {
    && |places| == |addrs| && (forall j, k :: 0 <= j < k < |places| ==> places[j] < places[k])
    && forall k :: 0 <= k < |places| ==> places[k] < n && n <= |s.random| && PickedAt(s, addrs[k], places[k])
  }

  ghost predicate PickedAt(s: State, a: Addr, p: nat) {
    p < |s.random| && s.random[p] in s.info && s.info[s.random[p]].addr == a
  }

  lemma PickedKept(e: Env, s: State, s': State, addrs: seq<Addr>, places: seq<nat>, n: nat, network: Option<Network>,
                   filtered: bool, now: int)
    requires Picked(s, addrs, places, n) && SameButOrder(s, s') && n <= |s.random| == |s'.random|
             && s'.random[..n] == s.random[..n]
    requires forall k :: 0 <= k < |addrs| ==> Qualifies(e, s, addrs[k], network, filtered, now)
    ensures Picked(s', addrs, places, n)
            && forall k :: 0 <= k < |addrs| ==> Qualifies(e, s', addrs[k], network, filtered, now)
  {
    forall k | 0 <= k < |places| ensures PickedAt(s', addrs[k], places[k]) {
      assert PickedAt(s, addrs[k], places[k]) && s'.random[..n][places[k]] == s.random[..n][places[k]];
    }
    forall k | 0 <= k < |addrs| ensures Qualifies(e, s', addrs[k], network, filtered, now) {
      assert Qualifies(e, s, addrs[k], network, filtered, now);
    }
  }

  lemma PickedDistinct(s: State, addrs: seq<Addr>, places: seq<nat>, n: nat)
    requires IndexOk(s) && Picked(s, addrs, places, n)
    ensures Distinct(addrs)
  {
    forall j, k | 0 <= j < k < |addrs| ensures addrs[j] != addrs[k] {
      var a, b := s.random[places[j]], s.random[places[k]];
      assert PickedAt(s, addrs[j], places[j]) && PickedAt(s, addrs[k], places[k]);
      assert OrderOk(s, places[j]) && OrderOk(s, places[k]) && Known(s, a) && Known(s, b);
    }
  }

  function Max(a: int, b: int): int {
    if a < b then b else a
  }

  lemma NoneExempt(e: Env, s: State, id: Id)
    requires Inv(e, s, {id}, {}) && id in s.info && InRange(s.info[id])
    ensures Inv(e, s, {}, {})
  {
    assert {} + {id} == {id};
    FewerExempt(e, s, {}, {}, id);
  }

  /** Taken tried slots stay taken, and new addresses have new ids: nobody waits for an empty slot. */
  lemma StillCollides(e: Env, s: State, s': State)
    requires CollisionsOk(e, s) && IndexOk(s) && s'.collisions <= s.collisions
             && s.triedTable.Keys <= s'.triedTable.Keys
    requires forall k :: k in s'.info && k < s.nextId ==> k in s.info && s'.info[k].addr == s.info[k].addr
    ensures CollisionsOk(e, s')
  {
    forall id | id in s'.collisions ensures Collides(e, s', id) {
      assert Collides(e, s, id) && id in s.collisions;
    }
  }

  lemma Collided(e: Env, s: State, id: Id)
    requires Consistent(e, s) && id in s.info && e.triedSlot(s.info[id].addr) in s.triedTable
    ensures Consistent(e, s.(collisions := s.collisions + {id}))
  {
    var s' := s.(collisions := s.collisions + {id});
    assert Known(s, id);
    CollisionsChanged(e, s, s');
    forall k | k in s'.collisions ensures Collides(e, s', k) { assert k != id ==> Collides(e, s, k); }
  }

  lemma CollisionsChanged(e: Env, s: State, s': State)
    requires Inv(e, s, {}, {}) && s' == s.(collisions := s'.collisions)
             && forall k :: k in s'.collisions ==> k < s.nextId
    ensures Inv(e, s', {}, {})
  {
    forall k ensures Known(s', k) && OrderOk(s', k) && AddrOk(s', k) && RangeOk(s', {}, k) {
      assert Known(s, k) && OrderOk(s, k) && AddrOk(s, k) && RangeOk(s, {}, k);
    }
    SlotsSame(e, s, s');
    forall net, tried ensures CountOk(e, s', net, tried, {}) {
      assert CountOk(e, s, net, tried, {}) && Members(e, s', net, tried, {}) == Members(e, s, net, tried, {});
    }
  }

  lemma Resolved(e: Env, s: State, id: Id)
    requires Consistent(e, s)
    ensures Consistent(e, s.(collisions := s.collisions - {id}))
  {
    var s' := s.(collisions := s.collisions - {id});
    CollisionsChanged(e, s, s');
    StillCollides(e, s, s');
  }

  /** Addresses may be gone, but none has changed its address, and nothing else is known to have changed. */
  ghost predicate Shrunk(s: State, s': State) {
    && (forall k :: k in s'.info ==> k in s.info && s'.info[k].addr == s.info[k].addr) && s'.collisions == s.collisions
    && s'.nextId == s.nextId
  }

  /** The address was reached at that time. */
  function Reached(s: State, id: Id, time: int): State
    requires id in s.info
  {
    SetInfo(s, id, s.info[id].(lastSuccess := time, lastTry := time, attempts := 0))
  }

  /** Address y has gone from the tried table to its slot of the new table; whoever had that may be gone. */
  ghost predicate SentBack(e: Env, s: State, s': State, y: Id)
    requires y in s.info
  {
    var t := SlotFor(e, s.info[y].addr, s.info[y].source);
    && s'.newTable == s.newTable[t := y] && y in s'.info
    && s'.info[y] == s.info[y].(inTried := false, refCount := 1, randomPos := s'.info[y].randomPos)
    && (forall k :: Undisturbed(s, y, t, true, k) ==> SameInfo(s, s', k))
  }

  lemma SentBackBy(e: Env, s: State, s1: State, s2: State, s': State, y: Id)
    requires y in s.info && s1 == LeaveTried(e, s, y) && SameInfo(s1, s2, y)
    requires SlotCleared(s1, s2, SlotFor(e, s.info[y].addr, s.info[y].source))
    requires s'.info == s2.info[y := s2.info[y].(refCount := 1)]
    requires s'.newTable == s2.newTable[SlotFor(e, s.info[y].addr, s.info[y].source) := y]
    ensures SentBack(e, s, s', y)
  {
    var t := SlotFor(e, s.info[y].addr, s.info[y].source);
    assert (s.newTable - {t})[t := y] == s.newTable[t := y];
    forall k | Undisturbed(s, y, t, true, k) ensures SameInfo(s, s', k) { assert SameInfo(s1, s2, k); }
  }

  /** Address id has left the new table for its slot of the tried table; whoever had that was sent back. */
  ghost predicate TookSlot(e: Env, s: State, s': State, id: Id)
    requires id in s.info
  {
    var t, newTable := e.triedSlot(s.info[id].addr), Dropped(s.newTable, id);
    && s'.triedTable == s.triedTable[t := id] && id in s'.info
    && s'.info[id] == s.info[id].(refCount := 0, inTried := true, randomPos := s'.info[id].randomPos)
    && (t !in s.triedTable ==> s'.newTable == newTable && forall k :: k in s.info && k != id ==> SameInfo(s, s', k))
    && (t in s.triedTable ==>
          var y := s.triedTable[t];
          && y in s.info && y in s'.info && y != id
          && s'.info[y] == s.info[y].(inTried := false, refCount := 1, randomPos := s'.info[y].randomPos)
          && var u := SlotFor(e, s.info[y].addr, s.info[y].source);
          && s'.newTable == newTable[u := y]
          && forall k :: k in s.info && k != id && k != y && (u in newTable ==> k != newTable[u]) ==>
               SameInfo(s, s', k))
  }

  lemma TookSlotBy(e: Env, s: State, s1: State, s2: State, s': State, id: Id)
    requires id in s.info && s1.info == s.info[id := s.info[id].(refCount := 0)]
    requires s1.newTable == Dropped(s.newTable, id) && s1.triedTable == s.triedTable
    requires SameInfo(s1, s2, id) && s'.info == s2.info[id := s2.info[id].(inTried := true)]
    requires s'.newTable == s2.newTable
    requires var t := e.triedSlot(s1.info[id].addr);
      && s'.triedTable == (s1.triedTable - {t})[t := id]
      && if t in s1.triedTable then
           s1.triedTable[t] in s1.info && s1.triedTable[t] != id && SentBack(e, s1, s2, s1.triedTable[t])
         else s2 == s1
    ensures TookSlot(e, s, s', id)
  {
    var t := e.triedSlot(s.info[id].addr);
    assert (s.triedTable - {t})[t := id] == s.triedTable[t := id];
    if t in s.triedTable {
      var y := s.triedTable[t];
      var u := SlotFor(e, s.info[y].addr, s.info[y].source);
      forall k | k in s.info && k != id && k != y && (u in s1.newTable ==> k != s1.newTable[u])
        ensures SameInfo(s, s', k)
      {
        assert Undisturbed(s1, y, u, true, k);
      }
    }
  }

  /** The new table without the references to id. */
  ghost function Dropped(newTable: map<Slot, Id>, id: Id): map<Slot, Id> {
    map t | t in newTable && newTable[t] != id :: newTable[t]
  }

  /** Some references to id in the new table are gone. */
  ghost predicate SameBut(s: State, s': State, id: Id) {
    && id in s.info && id in s'.info && s'.info == s.info[id := s.info[id].(refCount := s'.info[id].refCount)]
    && s' == s.(info := s'.info, newTable := s'.newTable)
    && (forall t :: t in s'.newTable ==> t in s.newTable && s'.newTable[t] == s.newTable[t])
    && (forall t :: t in s.newTable && s.newTable[t] != id ==> t in s'.newTable)
  }

  lemma NoneLeft(e: Env, s: State, s': State, id: Id)
    requires SameBut(s, s', id) && SlotsOk(e, s') && s'.info[id].refCount == |Refs(e, s', id)| == 0
    ensures s' == s.(info := s.info[id := s.info[id].(refCount := 0)], newTable := Dropped(s.newTable, id))
  {
    forall t | t in s'.newTable ensures s'.newTable[t] != id {
      assert NewOk(e, s', t);
      assert t.bucket !in Refs(e, s', id);
    }
    assert s'.newTable == Dropped(s.newTable, id);
  }

  function UnrefIf(e: Env, s: State, id: Id, b: nat): State
    requires id in s.info
  {
    var t := e.NewSlot(s.info[id].addr, b);
    if t in s.newTable && s.newTable[t] == id then Unref(e, s, id, b) else s
  }

  lemma UnrefIfInv(e: Env, s0: State, s: State, id: Id, b: nat)
    requires Inv(e, s, {id}, {}) && id in s.info && b < NEW_BUCKETS && SameBut(s0, s, id)
    ensures var s' := UnrefIf(e, s, id, b);
      && Inv(e, s', {id}, {}) && id in s'.info && Refs(e, s', id) == Refs(e, s, id) - {b} && SameBut(s0, s', id)
      && s'.info[id].refCount == |Refs(e, s', id)|
  {
    var s' := UnrefIf(e, s, id, b);
    if b in Refs(e, s, id) { UnrefInv(e, s, {id}, {}, id, b); } else { assert Refs(e, s, id) - {b} == Refs(e, s, id); }
    assert Placed(e, s', id);
  }

  function Round(start: nat, n: nat): (b: nat)
    ensures b < NEW_BUCKETS
  {
    (start + n) % NEW_BUCKETS
  }

  /** The first n buckets from start on are not among refs. */
  ghost predicate NotAmong(start: nat, n: nat, refs: set<nat>) {
    forall m :: 0 <= m < n ==> Round(start, m) !in refs
  }

  lemma NextRound(start: nat, n: nat, refs: set<nat>)
    requires NotAmong(start, n, refs)
    ensures NotAmong(start, n + 1, refs - {Round(start, n)})
  {
  }

  /** Going round visits every bucket. */
  lemma AllRounds(start: nat, refs: set<nat>)
    requires start < NEW_BUCKETS && (forall b :: b in refs ==> b < NEW_BUCKETS) && NotAmong(start, NEW_BUCKETS, refs)
    ensures refs == {}
  {
    forall b: nat | b < NEW_BUCKETS ensures b !in refs {
      var m := if b >= start then b - start else b + NEW_BUCKETS - start;
      assert Round(start, m) == b;
    }
  }
}
