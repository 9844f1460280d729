/** The tables of the address manager, src/addrman_impl.h:45-250, and when they are consistent,
    src/addrman.cpp:1063-1166. */
module AddrTables {
  import opened Basics

  type Addr = nat
  type Network = nat
  type Id = nat

  const NEW_BUCKETS: nat := 1024
  const NEW_BUCKETS_PER_ADDRESS: int := 8

  datatype Slot = Slot(bucket: nat, pos: nat)

  datatype Info = Info(addr: Addr, source: Addr, refCount: int, inTried: bool, randomPos: nat, time: int,
                       services: set<nat>, lastTry: int, lastSuccess: int, lastCount: int, attempts: int)

  /** What the hash functions and the address types compute. */
  datatype Env = Env(network: Addr -> Network, netClass: Addr -> Network, triedSlot: Addr -> Slot,
                     newBucket: (Addr, Addr) -> nat, newPos: (Addr, nat) -> nat, routable: Addr -> bool,
                     valid: Addr -> bool)
  {
    function NewSlot(a: Addr, bucket: nat): Slot { Slot(bucket, newPos(a, bucket)) }
  }

  datatype Count = Count(fresh': int, tried: int)

  datatype State = State(info: map<Id, Info>, ids: map<Addr, Id>, random: seq<Id>, newTable: map<Slot, Id>,
                         triedTable: map<Slot, Id>, nNew: int, nTried: int, counts: map<Network, Count>,
                         collisions: set<Id>, nextId: nat)

  const EMPTY := State(map[], map[], [], map[], map[], 0, 0, map[], {}, 0)

  // ----- The id map, the address index and the random order -----

  /** The address is where it says in the random order, and its own entry in the index. */
  ghost predicate Known(s: State, id: Id) {
    id in s.info ==>
      var i := s.info[id];
      i.randomPos < |s.random| && s.random[i.randomPos] == id && i.addr in s.ids && s.ids[i.addr] == id && id < s.nextId
  }

  ghost predicate OrderOk(s: State, k: nat) {
    k < |s.random| ==> s.random[k] in s.info && s.info[s.random[k]].randomPos == k
  }

  ghost predicate AddrOk(s: State, a: Addr) {
    a in s.ids ==> s.ids[a] in s.info && s.info[s.ids[a]].addr == a
  }

  ghost predicate IndexOk(s: State) {
    && (forall id {:trigger Known(s, id)} :: Known(s, id)) && (forall k {:trigger OrderOk(s, k)} :: OrderOk(s, k))
    && (forall a {:trigger AddrOk(s, a)} :: AddrOk(s, a)) && (forall id :: id in s.collisions ==> id < s.nextId)
  }

  // ----- The two tables -----

  /** The buckets of the new table that hold id. */
  ghost function Refs(e: Env, s: State, id: Id): set<nat>
    requires id in s.info
  {
    set b: nat | b < NEW_BUCKETS && e.NewSlot(s.info[id].addr, b) in s.newTable
    && s.newTable[e.NewSlot(s.info[id].addr, b)] == id
  }

  ghost predicate NewOk(e: Env, s: State, t: Slot) {
    t in s.newTable ==>
      var id := s.newTable[t];
      t.bucket < NEW_BUCKETS && id in s.info && !s.info[id].inTried && t == e.NewSlot(s.info[id].addr, t.bucket)
  }

  ghost predicate TriedOk(e: Env, s: State, t: Slot) {
    t in s.triedTable ==>
      var id := s.triedTable[t];
      id in s.info && s.info[id].inTried && t == e.triedSlot(s.info[id].addr)
  }

  /** A tried address is at its slot, and every address is in as many new buckets as it has references. */
  ghost predicate Placed(e: Env, s: State, id: Id) {
    id in s.info ==>
      && s.info[id].refCount == |Refs(e, s, id)|
      && (s.info[id].inTried ==>
            e.triedSlot(s.info[id].addr) in s.triedTable && s.triedTable[e.triedSlot(s.info[id].addr)] == id)
  }

  ghost predicate SlotsOk(e: Env, s: State) {
    && (forall t {:trigger NewOk(e, s, t)} :: NewOk(e, s, t))
    && (forall t {:trigger TriedOk(e, s, t)} :: TriedOk(e, s, t))
    && (forall id {:trigger Placed(e, s, id)} :: Placed(e, s, id))
  }

  /** A tried address has no references and was reached; any other has one to eight. Some may be exempt for now. */
  ghost predicate InRange(i: Info) {
    && i.lastTry >= 0 && i.lastSuccess >= 0
    && if i.inTried then i.refCount == 0 && i.lastSuccess > 0 else 1 <= i.refCount <= NEW_BUCKETS_PER_ADDRESS
  }

  ghost predicate RangeOk(s: State, exempt: set<Id>, id: Id) {
    id in s.info ==> s.info[id].lastTry >= 0 && s.info[id].lastSuccess >= 0 && (id !in exempt ==> InRange(s.info[id]))
  }

  ghost predicate RangesOk(s: State, exempt: set<Id>) {
    forall id {:trigger RangeOk(s, exempt, id)} :: RangeOk(s, exempt, id)
  }

  // ----- The counters -----

  /** The addresses of a network, or of all, in one of the tables; some may not be counted for now. */
  ghost function Members(e: Env, s: State, net: Option<Network>, tried: bool, uncounted: set<Id>): set<Id> {
    set id | id in s.info && id !in uncounted && s.info[id].inTried == tried
    && (net.None? || e.network(s.info[id].addr) == net.value)
  }

  function Counter(s: State, net: Option<Network>, tried: bool): int {
    match net
    case None => if tried then s.nTried else s.nNew
    case Some(n) => if n in s.counts then (if tried then s.counts[n].tried else s.counts[n].fresh') else 0
  }

  ghost predicate CountOk(e: Env, s: State, net: Option<Network>, tried: bool, uncounted: set<Id>) {
    Counter(s, net, tried) == |Members(e, s, net, tried, uncounted)|
  }

  ghost predicate CountsOk(e: Env, s: State, uncounted: set<Id>) {
    forall net, tried {:trigger CountOk(e, s, net, tried, uncounted)} :: CountOk(e, s, net, tried, uncounted)
  }

  // ----- Collisions -----

  ghost predicate Collides(e: Env, s: State, id: Id) {
    id in s.info ==> e.triedSlot(s.info[id].addr) in s.triedTable
  }

  /** Whoever waits for a tried slot, waits for one that is taken. */
  ghost predicate CollisionsOk(e: Env, s: State) {
    forall id {:trigger Collides(e, s, id)} :: id in s.collisions ==> Collides(e, s, id)
  }

  ghost predicate Inv(e: Env, s: State, exempt: set<Id>, uncounted: set<Id>) {
    IndexOk(s) && SlotsOk(e, s) && RangesOk(s, exempt) && CountsOk(e, s, uncounted)
  }

  /** All conditions of the consistency check. */
  ghost predicate Consistent(e: Env, s: State) {
    Inv(e, s, {}, {}) && CollisionsOk(e, s)
  }

  lemma EmptyConsistent(e: Env)
    ensures Consistent(e, EMPTY)
  {
    forall net, tried ensures CountOk(e, EMPTY, net, tried, {}) { assert Members(e, EMPTY, net, tried, {}) == {}; }
  }

  ghost function Ids(l: seq<Id>): set<Id> {
    set k | k in l
  }

  lemma {:induction false} OrderSize(s: State, n: nat)
    requires IndexOk(s) && n <= |s.random|
    ensures |Ids(s.random[..n])| == n
  {
    if n == 0 {
      assert Ids(s.random[..n]) == {};
    } else {
      OrderSize(s, n - 1);
      var front, last := s.random[..n - 1], s.random[n - 1];
      assert s.random[..n] == front + [last];
      forall k | 0 <= k < n - 1 ensures front[k] != last { assert OrderOk(s, k) && OrderOk(s, n - 1); }
      assert Ids(s.random[..n]) == Ids(front) + {last};
    }
  }

  lemma OrderIds(s: State)
    requires IndexOk(s)
    ensures Ids(s.random) == s.info.Keys
  {
    forall id | id in s.info ensures id in Ids(s.random) { assert Known(s, id); }
    forall id | id in Ids(s.random) ensures id in s.info {
      var k :| 0 <= k < |s.random| && s.random[k] == id;
      assert OrderOk(s, k);
    }
  }

  /** The sizes that the consistency check compares: every address is in the random order, once, and counted once. */
  lemma CheckedSizes(e: Env, s: State)
    requires Consistent(e, s)
    ensures |s.random| == s.nNew + s.nTried
  {
    assert CountOk(e, s, None, false, {}) && CountOk(e, s, None, true, {});
    OrderSize(s, |s.random|);
    OrderIds(s);
    TwoTables(e, s);
    assert s.random[..|s.random|] == s.random;
  }

  lemma TwoTables(e: Env, s: State)
    ensures |Members(e, s, None, false, {})| + |Members(e, s, None, true, {})| == |s.info.Keys|
  {
    var a, b := Members(e, s, None, false, {}), Members(e, s, None, true, {});
    assert a + b == s.info.Keys && a !! b;
  }

  // ----- Changing one address -----

  function SetInfo(s: State, id: Id, i: Info): State {
    s.(info := s.info[id := i])
  }

  /** The contribution of an address to a counter. */
  ghost function Unit(e: Env, s: State, net: Option<Network>, tried: bool, uncounted: set<Id>, id: Id): int {
    if id in Members(e, s, net, tried, uncounted) then 1 else 0
  }

  ghost predicate Shift(e: Env, s: State, u: set<Id>, s': State, u': set<Id>, id: Id, net: Option<Network>,
                        tried: bool) {
    Counter(s', net, tried) - Counter(s, net, tried) == Unit(e, s', net, tried, u', id) - Unit(e, s, net, tried, u, id)
  }

  lemma CardWithout(a: set<Id>, id: Id)
    ensures |a| == |a - {id}| + if id in a then 1 else 0
  {
    if id in a { assert a == (a - {id}) + {id}; } else { assert a == a - {id}; }
  }

  lemma RecountOne(e: Env, s: State, u: set<Id>, s': State, u': set<Id>, id: Id, net: Option<Network>, tried: bool)
    requires CountOk(e, s, net, tried, u) && s'.info - {id} == s.info - {id} && u' - {id} == u - {id}
    requires Shift(e, s, u, s', u', id, net, tried)
    ensures CountOk(e, s', net, tried, u')
  {
    SameElsewhere(e, s, u, s', u', id, net, tried);
    CardWithout(Members(e, s, net, tried, u), id);
    CardWithout(Members(e, s', net, tried, u'), id);
  }

  /** Counters stay right if they change by what the one address that changes contributes. */
  lemma Recount(e: Env, s: State, u: set<Id>, s': State, u': set<Id>, id: Id)
    requires CountsOk(e, s, u) && s'.info - {id} == s.info - {id} && u' - {id} == u - {id}
    requires forall net, tried :: Shift(e, s, u, s', u', id, net, tried)
    ensures CountsOk(e, s', u')
  {
    forall net, tried ensures CountOk(e, s', net, tried, u') {
      assert CountOk(e, s, net, tried, u) && Shift(e, s, u, s', u', id, net, tried);
      RecountOne(e, s, u, s', u', id, net, tried);
    }
  }

  lemma SameElsewhere(e: Env, s: State, u: set<Id>, s': State, u': set<Id>, id: Id, net: Option<Network>, tried: bool)
    requires s'.info - {id} == s.info - {id} && u' - {id} == u - {id}
    ensures Members(e, s, net, tried, u) - {id} == Members(e, s', net, tried, u') - {id}
  {
    forall x | x != id ensures x in Members(e, s, net, tried, u) <==> x in Members(e, s', net, tried, u') {
      assert x in s.info <==> x in s.info - {id};
      assert x in s'.info <==> x in s'.info - {id};
      assert x in u <==> x in u - {id};
      assert x in u' <==> x in u' - {id};
      if x in s.info { assert (s.info - {id})[x] == s.info[x] && (s'.info - {id})[x] == s'.info[x]; }
    }
  }
}
