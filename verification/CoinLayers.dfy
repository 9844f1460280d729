/** What the operations of CCoinsViewCache, src/coins.cpp:48-291, do to one layer, and to the view it shows. */
module CoinLayers {
  import opened Basics
  import opened Coins

  type View = map<OutPoint, Coin>
  type Memory = seq<nat> -> nat

  /** The pointers that flag changes follow are there. */
  ghost predicate Linkable(l: Layer) {
    && Sentinel in l.links.prev
    && forall o :: o in l.entries && l.entries[o].Flagged() ==> Pair(o) in l.links.prev && Pair(o) in l.links.next
  }

  lemma ListedLinkable(l: Layer, ring: seq<Node>)
    requires Listed(l, ring)
    ensures Linkable(l)
  {
    assert NodeOk(l.links, ring, 0);
  }

  function Put(m: View, o: OutPoint, c: Option<Coin>): View {
    match c
    case None => m - {o}
    case Some(coin) => m[o := coin]
  }

  ghost function UseAt(mem: Memory, m: map<OutPoint, Entry>, o: OutPoint): int {
    if o in m then mem(m[o].coin.script) else 0
  }

  lemma HoldsElsewhere(l: Layer, base: View, view: View, o: OutPoint, l': Layer, view': View, p: OutPoint)
    requires l'.entries - {o} == l.entries - {o} && view' - {o} == view - {o} && p != o
    ensures Holds(l', base, view', p) <==> Holds(l, base, view, p)
  {
    assert p in l'.entries <==> p in l'.entries - {o};
    assert p in l.entries <==> p in l.entries - {o};
    assert p in view' <==> p in view' - {o};
    assert p in view <==> p in view - {o};
  }

  /** A layer whose flags are wrong for exactly the broken outpoints. */
  ghost predicate LayerBut(mem: Memory, l: Layer, ring: seq<Node>, base: View, view: View, broken: set<OutPoint>) {
    && Listed(l, ring) && l.usage == UsageOf(mem, l.entries)
    && forall o {:trigger Holds(l, base, view, o)} :: Holds(l, base, view, o) <==> o !in broken
  }

  lemma NoneBroken(mem: Memory, l: Layer, ring: seq<Node>, base: View, view: View, broken: set<OutPoint>)
    requires LayerBut(mem, l, ring, base, view, broken)
    ensures LayerOk(mem, l, ring, base, view) <==> broken == {}
  {
    if o :| o in broken { assert !Holds(l, base, view, o); }
  }

  lemma UsageAt(mem: Memory, m: map<OutPoint, Entry>, o: OutPoint)
    ensures UsageOf(mem, m) == UsageOf(mem, m - {o}) + UseAt(mem, m, o)
  {
    if o in m { UsageWithout(mem, m, o); } else { assert m - {o} == m; }
  }

  /** A layer that changes at o only has right flags where it had, and at o as it now has. */
  lemma OneChangedBut(mem: Memory, l: Layer, ring: seq<Node>, base: View, view: View, o: OutPoint, l': Layer,
                      ring': seq<Node>, view': View, broken: set<OutPoint>)
    requires LayerBut(mem, l, ring, base, view, broken) && Listed(l', ring') && o !in broken
    requires l'.entries - {o} == l.entries - {o} && view' - {o} == view - {o}
    requires l'.usage - UseAt(mem, l'.entries, o) == l.usage - UseAt(mem, l.entries, o)
    ensures LayerBut(mem, l', ring', base, view', if Holds(l', base, view', o) then broken else broken + {o})
  {
    UsageAt(mem, l.entries, o);
    UsageAt(mem, l'.entries, o);
    var broken' := if Holds(l', base, view', o) then broken else broken + {o};
    forall p ensures Holds(l', base, view', p) <==> p !in broken' {
      if p != o { HoldsElsewhere(l, base, view, o, l', view', p); }
    }
  }

  /** A layer that changes at o only still shows a view, if it does so at o. */
  lemma OneChanged(mem: Memory, l: Layer, ring: seq<Node>, base: View, view: View, o: OutPoint, l': Layer,
                   ring': seq<Node>, view': View)
    requires LayerOk(mem, l, ring, base, view) && Listed(l', ring')
    requires l'.entries - {o} == l.entries - {o} && view' - {o} == view - {o}
    requires l'.usage - UseAt(mem, l'.entries, o) == l.usage - UseAt(mem, l.entries, o)
    requires Holds(l', base, view', o)
    ensures LayerOk(mem, l', ring', base, view')
  {
    OneChangedBut(mem, l, ring, base, view, o, l', ring', view', {});
  }

  // ----- Storing a coin, and dropping an entry -----

  function OldEntry(l: Layer, o: OutPoint): Entry {
    if o in l.entries then l.entries[o] else Entry(EMPTY_COIN, false, false)
  }

  /** Put the coin into the entry of o, a new one if there is none, and set flags. */
  function Store(mem: Memory, l: Layer, o: OutPoint, coin: Coin, setDirty: bool, setFresh: bool): Layer
    requires Sentinel in l.links.prev
  {
    var e := OldEntry(l, o);
    var freed := if o in l.entries then mem(e.coin.script) else 0;
    var l1 := l.(entries := l.entries[o := e.(coin := coin)], usage := l.usage - freed + mem(coin.script));
    if setDirty || setFresh then AddFlags(l1, o, setDirty, setFresh) else l1
  }

  lemma StoreListed(mem: Memory, l: Layer, ring: seq<Node>, o: OutPoint, coin: Coin, setDirty: bool, setFresh: bool)
    returns (ring': seq<Node>)
    requires Listed(l, ring)
    ensures Sentinel in l.links.prev && Listed(Store(mem, l, o, coin, setDirty, setFresh), ring')
  {
    ListedLinkable(l, ring);
    ring' := ring;
    var e := OldEntry(l, o);
    var freed := if o in l.entries then mem(e.coin.script) else 0;
    var l1 := l.(entries := l.entries[o := e.(coin := coin)], usage := l.usage - freed + mem(coin.script));
    assert Listed(l1, ring);
    if setDirty || setFresh {
      AddFlagsListed(l1, ring, o, setDirty, setFresh);
      ring' := RingAdd(l1, ring, o);
    }
  }

  ghost function StoredEntry(l: Layer, o: OutPoint, coin: Coin, setDirty: bool, setFresh: bool): Entry {
    var e := OldEntry(l, o);
    Entry(coin, e.isDirty || setDirty, e.isFresh || setFresh)
  }

  lemma StoreFacts(mem: Memory, l: Layer, o: OutPoint, coin: Coin, setDirty: bool, setFresh: bool)
    requires Sentinel in l.links.prev
    ensures var l' := Store(mem, l, o, coin, setDirty, setFresh);
      && l'.entries - {o} == l.entries - {o} && o in l'.entries
      && l'.entries[o] == StoredEntry(l, o, coin, setDirty, setFresh)
      && l'.usage - UseAt(mem, l'.entries, o) == l.usage - UseAt(mem, l.entries, o)
  {
  }

  lemma PutFacts(view: View, o: OutPoint, c: Option<Coin>)
    ensures Put(view, o, c) - {o} == view - {o} && Get(Put(view, o, c), o) == c
  {
  }

  lemma StoreBut(mem: Memory, l: Layer, ring: seq<Node>, base: View, view: View, o: OutPoint, coin: Coin,
                 setDirty: bool, setFresh: bool, view': View, broken: set<OutPoint>) returns (ring': seq<Node>)
    requires LayerBut(mem, l, ring, base, view, broken) && o !in broken && view' == Put(view, o, Seen(coin))
    ensures Sentinel in l.links.prev
    ensures var right := EntryOk(StoredEntry(l, o, coin, setDirty, setFresh), Get(base, o));
      LayerBut(mem, Store(mem, l, o, coin, setDirty, setFresh), ring', base, view',
               if right then broken else broken + {o})
  {
    ring' := StoreListed(mem, l, ring, o, coin, setDirty, setFresh);
    var l' := Store(mem, l, o, coin, setDirty, setFresh);
    StoreFacts(mem, l, o, coin, setDirty, setFresh);
    PutFacts(view, o, Seen(coin));
    OneChangedBut(mem, l, ring, base, view, o, l', ring', view', broken);
  }

  lemma StoreOk(mem: Memory, l: Layer, ring: seq<Node>, base: View, view: View, o: OutPoint, coin: Coin,
                setDirty: bool, setFresh: bool, view': View) returns (ring': seq<Node>)
    requires LayerOk(mem, l, ring, base, view) && view' == Put(view, o, Seen(coin))
    requires EntryOk(StoredEntry(l, o, coin, setDirty, setFresh), Get(base, o))
    ensures Sentinel in l.links.prev && LayerOk(mem, Store(mem, l, o, coin, setDirty, setFresh), ring', base, view')
  {
    ring' := StoreBut(mem, l, ring, base, view, o, coin, setDirty, setFresh, view', {});
  }

  function Drop(mem: Memory, l: Layer, o: OutPoint): Layer
    requires o in l.entries && (l.entries[o].Flagged() ==> Pair(o) in l.links.prev && Pair(o) in l.links.next)
  {
    Erase(l.(usage := l.usage - mem(l.entries[o].coin.script)), o)
  }

  lemma DropListed(mem: Memory, l: Layer, ring: seq<Node>, o: OutPoint) returns (ring': seq<Node>)
    requires Listed(l, ring) && o in l.entries
    ensures Linkable(l) && Listed(Drop(mem, l, o), ring')
  {
    ListedLinkable(l, ring);
    var l1 := l.(usage := l.usage - mem(l.entries[o].coin.script));
    if l.entries[o].Flagged() {
      var k := FlaggedAt(l1, ring, o);
      EraseListed(l1, ring, o, k);
      ring' := Without(ring, k);
    } else {
      ring' := ring;
      assert Drop(mem, l, o) == l1.(entries := l.entries - {o});
    }
  }

  lemma DropFacts(mem: Memory, l: Layer, o: OutPoint)
    requires o in l.entries && Linkable(l)
    ensures var l' := Drop(mem, l, o);
      l'.entries == l.entries - {o} && l'.entries - {o} == l.entries - {o}
      && l'.usage == l.usage - UseAt(mem, l.entries, o)
  {
    var l' := Drop(mem, l, o);
    assert l'.entries == l.entries - {o};
  }

  lemma DropOk(mem: Memory, l: Layer, ring: seq<Node>, base: View, view: View, o: OutPoint, view': View)
    returns (ring': seq<Node>)
    requires LayerOk(mem, l, ring, base, view) && o in l.entries && view' == Put(view, o, Get(base, o))
    ensures Linkable(l) && LayerOk(mem, Drop(mem, l, o), ring', base, view')
  {
    ring' := DropListed(mem, l, ring, o);
    DropFacts(mem, l, o);
    PutFacts(view, o, Get(base, o));
    OneChanged(mem, l, ring, base, view, o, Drop(mem, l, o), ring', view');
  }

  // ----- The operations -----

  /** Keep in the layer the coin that the view below returned. */
  lemma FetchedOk(mem: Memory, l: Layer, ring: seq<Node>, base: View, view: View, o: OutPoint, coin: Coin)
    returns (ring': seq<Node>)
    requires LayerOk(mem, l, ring, base, view) && o !in l.entries
    requires Seen(coin) == Get(base, o) && (coin.IsSpent() ==> coin.script == [])
    ensures Sentinel in l.links.prev && LayerOk(mem, Store(mem, l, o, coin, false, coin.IsSpent()), ring', base, view)
  {
    assert Holds(l, base, view, o);
    assert Put(view, o, Seen(coin)) == view;
    ring' := StoreOk(mem, l, ring, base, view, o, coin, false, coin.IsSpent(), view);
  }

  function Added(mem: Memory, l: Layer, o: OutPoint, coin: Coin, possibleOverwrite: bool): Result<Layer>
    requires Sentinel in l.links.prev
  {
    var e := OldEntry(l, o);
    if !possibleOverwrite && !e.coin.IsSpent() then Thrown
    else Ok(Store(mem, l, o, coin, true, !possibleOverwrite && !e.isDirty))
  }

  /** Adding without the right to overwrite throws if the layer has the coin unspent. Otherwise the view
      gains the coin, and the flags stay right if and only if overwriting was allowed, or the layer
      has an entry for it, or the view below does not have it. */
  lemma AddedBut(mem: Memory, l: Layer, ring: seq<Node>, base: View, view: View, o: OutPoint, coin: Coin,
                 possibleOverwrite: bool, broken: set<OutPoint>)
    returns (ring': seq<Node>)
    requires LayerBut(mem, l, ring, base, view, broken) && o !in broken && !coin.IsSpent()
    ensures Linkable(l)
    ensures Added(mem, l, o, coin, possibleOverwrite).Thrown? <==> !possibleOverwrite && o in l.entries && o in view
    ensures var r := Added(mem, l, o, coin, possibleOverwrite);
      r.Ok? ==> LayerBut(mem, r.value, ring', base, view[o := coin],
                         if possibleOverwrite || o in l.entries || o !in base then broken else broken + {o})
  {
    ListedLinkable(l, ring);
    assert Holds(l, base, view, o);
    ring' := ring;
    var r, view' := Added(mem, l, o, coin, possibleOverwrite), view[o := coin];
    if r.Ok? {
      ring' := StoreBut(mem, l, ring, base, view, o, coin, true,
                        !possibleOverwrite && !OldEntry(l, o).isDirty, view', broken);
    }
  }

  function Spent(mem: Memory, l: Layer, o: OutPoint): Layer
    requires o in l.entries && Sentinel in l.links.prev
    requires l.entries[o].Flagged() ==> Pair(o) in l.links.prev && Pair(o) in l.links.next
  {
    if l.entries[o].isFresh then Drop(mem, l, o) else Store(mem, l, o, EMPTY_COIN, true, false)
  }

  lemma SpentOk(mem: Memory, l: Layer, ring: seq<Node>, base: View, view: View, o: OutPoint) returns (ring': seq<Node>)
    requires LayerOk(mem, l, ring, base, view) && o in l.entries
    ensures Linkable(l) && LayerOk(mem, Spent(mem, l, o), ring', base, view - {o})
  {
    ListedLinkable(l, ring);
    assert Holds(l, base, view, o);
    if l.entries[o].isFresh {
      ring' := DropOk(mem, l, ring, base, view, o, view - {o});
    } else {
      ring' := StoreOk(mem, l, ring, base, view, o, EMPTY_COIN, true, false, view - {o});
    }
  }

  /** Dropping an unmodified entry changes no view. */
  lemma UncachedOk(mem: Memory, l: Layer, ring: seq<Node>, base: View, view: View, o: OutPoint)
    returns (ring': seq<Node>)
    requires LayerOk(mem, l, ring, base, view) && o in l.entries && !l.entries[o].Flagged()
    ensures LayerOk(mem, Drop(mem, l, o), ring', base, view)
  {
    assert Holds(l, base, view, o);
    assert Put(view, o, Get(base, o)) == view;
    ring' := DropOk(mem, l, ring, base, view, o, view);
  }

  /** What a layer makes of a dirty entry of the layer above. */
  function WriteEntry(mem: Memory, l: Layer, o: OutPoint, e: Entry): Result<Layer>
    requires Sentinel in l.links.prev
    requires o in l.entries && l.entries[o].Flagged() ==> Pair(o) in l.links.prev && Pair(o) in l.links.next
  {
    if o !in l.entries then
      if e.isFresh && e.coin.IsSpent() then Ok(l) else Ok(Store(mem, l, o, e.coin, true, e.isFresh))
    else if e.isFresh && !l.entries[o].coin.IsSpent() then Thrown
    else if l.entries[o].isFresh && e.coin.IsSpent() then Ok(Drop(mem, l, o))
    else Ok(Store(mem, l, o, e.coin, true, false))
  }

  /** Writing a dirty entry of the layer above never throws, and the layer then shows its coin. */
  lemma WriteOk(mem: Memory, l: Layer, ring: seq<Node>, base: View, view: View, o: OutPoint, e: Entry)
    returns (ring': seq<Node>)
    requires LayerOk(mem, l, ring, base, view) && EntryOk(e, Get(view, o)) && e.isDirty
    ensures Linkable(l) && WriteEntry(mem, l, o, e).Ok?
    ensures LayerOk(mem, WriteEntry(mem, l, o, e).value, ring', base, Put(view, o, Seen(e.coin)))
  {
    ListedLinkable(l, ring);
    assert Holds(l, base, view, o);
    var view' := Put(view, o, Seen(e.coin));
    if o !in l.entries {
      ring' := StoreOk(mem, l, ring, base, view, o, e.coin, true, e.isFresh, view');
    } else if l.entries[o].isFresh && e.coin.IsSpent() {
      ring' := DropOk(mem, l, ring, base, view, o, view');
    } else {
      ring' := StoreOk(mem, l, ring, base, view, o, e.coin, true, false, view');
    }
  }
}
