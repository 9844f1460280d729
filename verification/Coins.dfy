/** One layer of the coins cache, src/coins.h:33-213 and src/coins.cpp:48-153: entries with DIRTY and
    FRESH flags, and the doubly linked list of the flagged ones. */
module Coins {
  import opened Basics

  datatype Result<T> = Ok(value: T) | Thrown

  datatype OutPoint = OutPoint(hash: nat, n: nat)

  datatype Coin = Coin(value: int, script: seq<nat>, coinbase: bool, height: nat) {
    predicate IsSpent() { value == -1 }
  }

  const EMPTY_COIN := Coin(-1, [], false, 0)
  const OP_RETURN: nat := 0x6a
  const MAX_SCRIPT_SIZE: nat := 10000

  predicate Unspendable(script: seq<nat>) {
    (|script| > 0 && script[0] == OP_RETURN) || |script| > MAX_SCRIPT_SIZE
  }

  // ----- The linked list of flagged entries -----

  datatype Node = Sentinel | Pair(key: OutPoint)

  /** The m_prev and m_next pointers; a node that is in neither map has null pointers. */
  datatype Links = Links(prev: map<Node, Node>, next: map<Node, Node>)

  const NO_LINKS := Links(map[Sentinel := Sentinel], map[Sentinel := Sentinel])

  ghost function After(ring: seq<Node>, k: nat): Node
    requires k < |ring|
  {
    if k + 1 < |ring| then ring[k + 1] else ring[0]
  }

  ghost predicate NodeOk(l: Links, ring: seq<Node>, k: nat)
    requires k < |ring|
  {
    && ring[k] in l.next && ring[k] in l.prev && After(ring, k) in l.prev
    && l.next[ring[k]] == After(ring, k) && l.prev[After(ring, k)] == ring[k]
  }

  /** The pointers form one ring: the sentinel, then the nodes in the order they were flagged. */
  ghost predicate Ring(l: Links, ring: seq<Node>) {
    && |ring| > 0 && ring[0] == Sentinel
    && Distinct(ring)
    && (forall k {:trigger NodeOk(l, ring, k)} :: 0 <= k < |ring| ==> NodeOk(l, ring, k))
    && (forall n :: n in l.prev <==> n in ring) && (forall n :: n in l.next <==> n in ring)
  }

  function Append(l: Links, n: Node): Links
    requires Sentinel in l.prev
  {
    var last := l.prev[Sentinel];
    Links(l.prev[n := last][Sentinel := n], l.next[n := Sentinel][last := n])
  }

  function Unlink(l: Links, n: Node): Links
    requires n in l.prev && n in l.next
  {
    var p, q := l.prev[n], l.next[n];
    Links(l.prev[q := p] - {n}, l.next[p := q] - {n})
  }

  lemma AppendRing(l: Links, ring: seq<Node>, n: Node)
    requires Ring(l, ring) && n !in ring
    ensures Sentinel in l.prev && Ring(Append(l, n), ring + [n])
  {
    var m := |ring| - 1;
    assert NodeOk(l, ring, m);
    var l', ring' := Append(l, n), ring + [n];
    forall k | 0 <= k < |ring'| ensures NodeOk(l', ring', k) {
      if k < m { assert NodeOk(l, ring, k) && ring'[k] == ring[k] && ring'[k + 1] == ring[k + 1]; }
    }
  }

  ghost function Without(ring: seq<Node>, k: nat): seq<Node>
    requires k < |ring|
  {
    ring[..k] + ring[k + 1..]
  }

  lemma WithoutElems(ring: seq<Node>, k: nat)
    requires Distinct(ring) && k < |ring|
    ensures Distinct(Without(ring, k)) && forall n :: n in Without(ring, k) <==> n in ring && n != ring[k]
  {
    var ring' := Without(ring, k);
    forall n | n in ring && n != ring[k] ensures n in ring' {
      var i :| 0 <= i < |ring| && ring[i] == n;
      assert ring'[if i < k then i else i - 1] == n;
    }
  }

  lemma UnlinkNode(l: Links, ring: seq<Node>, k: nat, i: nat)
    requires Ring(l, ring) && 0 < k < |ring| && i < |ring| - 1
    ensures ring[k] in l.prev && ring[k] in l.next && NodeOk(Unlink(l, ring[k]), Without(ring, k), i)
  {
    assert NodeOk(l, ring, k) && NodeOk(l, ring, k - 1);
    var ring', before := Without(ring, k), if i < k then i else i + 1;
    assert NodeOk(l, ring, before) && ring'[i] == ring[before];
    assert After(ring', i) == if i + 1 == k then After(ring, k) else After(ring, before);
  }

  lemma UnlinkRing(l: Links, ring: seq<Node>, k: nat)
    requires Ring(l, ring) && 0 < k < |ring|
    ensures ring[k] in l.prev && ring[k] in l.next && Ring(Unlink(l, ring[k]), Without(ring, k))
  {
    assert NodeOk(l, ring, k) && NodeOk(l, ring, k - 1);
    forall i | 0 <= i < |ring| - 1 ensures NodeOk(Unlink(l, ring[k]), Without(ring, k), i) {
      UnlinkNode(l, ring, k, i);
    }
    WithoutElems(ring, k);
  }

  // ----- A layer -----

  datatype Entry = Entry(coin: Coin, isDirty: bool, isFresh: bool) {
    predicate Flagged() { isDirty || isFresh }
  }

  datatype Layer = Layer(entries: map<OutPoint, Entry>, links: Links, usage: int, block: nat)

  const EMPTY_LAYER := Layer(map[], NO_LINKS, 0, 0)

  function AddFlags(l: Layer, o: OutPoint, setDirty: bool, setFresh: bool): Layer
    requires o in l.entries && Sentinel in l.links.prev
  {
    var e := l.entries[o];
    l.(entries := l.entries[o := e.(isDirty := e.isDirty || setDirty, isFresh := e.isFresh || setFresh)],
       links := if e.Flagged() then l.links else Append(l.links, Pair(o)))
  }

  function SetClean(l: Layer, o: OutPoint): Layer
    requires o in l.entries && (l.entries[o].Flagged() ==> Pair(o) in l.links.prev && Pair(o) in l.links.next)
  {
    var e := l.entries[o];
    if e.Flagged() then l.(entries := l.entries[o := e.(isDirty := false, isFresh := false)],
                           links := Unlink(l.links, Pair(o))) else l
  }

  /** Destroying an entry takes it out of the list first. */
  function Erase(l: Layer, o: OutPoint): Layer
    requires o in l.entries && (l.entries[o].Flagged() ==> Pair(o) in l.links.prev && Pair(o) in l.links.next)
  {
    var l1 := SetClean(l, o);
    l1.(entries := l1.entries - {o})
  }

  /** The list holds exactly the flagged entries. */
  ghost predicate Listed(l: Layer, ring: seq<Node>) {
    && Ring(l.links, ring)
    && (forall o :: o in l.entries && l.entries[o].Flagged() ==> Pair(o) in ring)
    && (forall n :: n in ring && n.Pair? ==> n.key in l.entries && l.entries[n.key].Flagged())
  }

  ghost function RingAdd(l: Layer, ring: seq<Node>, o: OutPoint): seq<Node>
    requires o in l.entries
  {
    if l.entries[o].Flagged() then ring else ring + [Pair(o)]
  }

  lemma AddFlagsListed(l: Layer, ring: seq<Node>, o: OutPoint, setDirty: bool, setFresh: bool)
    requires Listed(l, ring) && o in l.entries && (setDirty || setFresh)
    ensures Sentinel in l.links.prev && Listed(AddFlags(l, o, setDirty, setFresh), RingAdd(l, ring, o))
  {
    assert NodeOk(l.links, ring, 0);
    if !l.entries[o].Flagged() { AppendRing(l.links, ring, Pair(o)); }
  }

  /** Where a flagged entry is in the ring. */
  lemma FlaggedAt(l: Layer, ring: seq<Node>, o: OutPoint) returns (k: nat)
    requires Listed(l, ring) && o in l.entries && l.entries[o].Flagged()
    ensures 0 < k < |ring| && ring[k] == Pair(o) && Pair(o) in l.links.prev && Pair(o) in l.links.next
  {
    assert Pair(o) in ring;
    k :| 0 <= k < |ring| && ring[k] == Pair(o);
  }

  lemma EraseListed(l: Layer, ring: seq<Node>, o: OutPoint, k: nat)
    requires Listed(l, ring) && 0 < k < |ring| && ring[k] == Pair(o)
    ensures o in l.entries && l.entries[o].Flagged() && Pair(o) in l.links.prev && Pair(o) in l.links.next
    ensures Listed(Erase(l, o), Without(ring, k)) && Listed(SetClean(l, o), Without(ring, k))
  {
    assert ring[k] in ring;
    UnlinkRing(l.links, ring, k);
    WithoutElems(ring, k);
  }

  // ----- Memory accounting -----

  ghost function UsageOf(mem: seq<nat> -> nat, m: map<OutPoint, Entry>): nat {
    if m == map[] then 0
    else
      var o :| o in m;
      mem(m[o].coin.script) + UsageOf(mem, m - {o})
  }

  lemma {:induction false} UsageWithout(mem: seq<nat> -> nat, m: map<OutPoint, Entry>, o: OutPoint)
    requires o in m
    ensures UsageOf(mem, m) == mem(m[o].coin.script) + UsageOf(mem, m - {o})
    decreases |m|
  {
    var p :| p in m && UsageOf(mem, m) == mem(m[p].coin.script) + UsageOf(mem, m - {p});
    if p != o {
      UsageWithout(mem, m - {p}, o);
      UsageWithout(mem, m - {o}, p);
      assert m - {p} - {o} == m - {o} - {p};
    }
  }

  lemma UsageSet(mem: seq<nat> -> nat, m: map<OutPoint, Entry>, o: OutPoint, e: Entry)
    ensures UsageOf(mem, m[o := e]) == mem(e.coin.script) + UsageOf(mem, m - {o})
    ensures o !in m ==> m - {o} == m
  {
    UsageWithout(mem, m[o := e], o);
    assert m[o := e] - {o} == m - {o};
  }

  // ----- A layer as a view -----

  function Seen(c: Coin): Option<Coin> {
    if c.IsSpent() then None else Some(c)
  }

  function Get(m: map<OutPoint, Coin>, o: OutPoint): Option<Coin> {
    if o in m then Some(m[o]) else None
  }

  /** A clean entry is what the view below has; a fresh one is unspent nowhere below; a spent one is
      cleared, and dirty or fresh but not both. */
  ghost predicate EntryOk(e: Entry, below: Option<Coin>) {
    && (!e.isDirty ==> Seen(e.coin) == below)
    && (e.isFresh ==> below == None)
    && (e.coin.IsSpent() ==> e.coin.script == [] && e.isDirty != e.isFresh)
  }

  ghost predicate Holds(l: Layer, base: map<OutPoint, Coin>, view: map<OutPoint, Coin>, o: OutPoint) {
    && (o in l.entries ==> EntryOk(l.entries[o], Get(base, o)))
    && Get(view, o) == if o in l.entries then Seen(l.entries[o].coin) else Get(base, o)
  }

  /** On top of the view base, the layer shows the view. */
  ghost predicate LayerOk(mem: seq<nat> -> nat, l: Layer, ring: seq<Node>, base: map<OutPoint, Coin>,
                          view: map<OutPoint, Coin>) {
    && Listed(l, ring) && l.usage == UsageOf(mem, l.entries)
    && forall o {:trigger Holds(l, base, view, o)} :: Holds(l, base, view, o)
  }
}
