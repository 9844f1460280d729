/** A database with coin caches stacked on it, src/coins.cpp:48-330 and src/txdb.cpp:68-155: every
    operation keeps the flags right, and does to a plain map what it says. */
module CoinStacks {
  import opened Basics
  import opened Coins
  import opened CoinLayers

  const NULL_BLOCK: nat := 0

  ghost predicate DbHolds(db: View, view: View, o: OutPoint) {
    && Get(view, o) == (if o in db then Seen(db[o]) else None)
    && (o in db && db[o].IsSpent() ==> db[o].script == [])
  }

  ghost predicate DbOk(db: View, view: View) {
    forall o {:trigger DbHolds(db, view, o)} :: DbHolds(db, view, o)
  }

  /** views[0] is what the database shows, and views[j + 1] what layer j shows. Level j may be exempt. */
  ghost predicate StackBut(mem: Memory, db: View, layers: seq<Layer>, rings: seq<seq<Node>>, views: seq<View>, j: int) {
    && |rings| == |layers| && |views| == |layers| + 1
    && DbOk(db, views[0])
    && (forall i :: 0 <= i < |layers| && i != j ==> LayerOk(mem, layers[i], rings[i], views[i], views[i + 1]))
  }

  /** The block a layer reports: its own, or that of the view below if it has none. */
  ghost function Best(dbBlock: nat, layers: seq<Layer>, j: nat): nat
    requires j <= |layers|
  {
    if j == 0 then dbBlock
    else if layers[j - 1].block != NULL_BLOCK then layers[j - 1].block
    else Best(dbBlock, layers, j - 1)
  }

  lemma SameView(a: View, b: View)
    requires forall o :: Get(a, o) == Get(b, o)
    ensures a == b
  {
    forall o ensures o in a <==> o in b { assert Get(a, o) == Get(b, o); }
    forall o | o in a ensures a[o] == b[o] { assert Get(a, o) == Get(b, o); }
  }

  class CoinStack {
    /** The memory that a script takes outside its coin. */
    const mem: Memory
    var db: View
    var dbBlock: nat
    var layers: seq<Layer>
    ghost var rings: seq<seq<Node>>
    ghost var views: seq<View>

    ghost predicate Valid()
      reads this
    {
      mem([]) == 0 && StackBut(mem, db, layers, rings, views, -1)
    }

    /** Nothing but the entries of the layers below level n has changed. */
    twostate predicate Kept(n: nat)
      reads this
    {
      && db == old(db) && dbBlock == old(dbBlock) && views == old(views) && |layers| == old(|layers|)
      && (forall i :: 0 <= i < |layers| ==> layers[i].block == old(layers[i].block))
      && (forall i :: n <= i < |layers| ==> layers[i] == old(layers[i]))
    }

    constructor (mem: Memory, db: View, dbBlock: nat)
      requires mem([]) == 0 && forall o :: o in db && db[o].IsSpent() ==> db[o].script == []
      ensures Valid() && this.mem == mem && this.db == db && this.dbBlock == dbBlock && layers == []
      ensures |views| == 1 && forall o :: o in views[0] <==> o in db && !db[o].IsSpent()
    {
      this.mem, this.db, this.dbBlock, layers := mem, db, dbBlock, [];
      rings, views := [], [map o | o in db && !db[o].IsSpent() :: db[o]];
    }

    /** A new cache on top shows what was there. */
    method Push()
      requires Valid()
      modifies this
      ensures Valid() && db == old(db) && dbBlock == old(dbBlock)
      ensures layers == old(layers) + [EMPTY_LAYER] && views == old(views) + [old(views[|layers|])]
    {
      EmptyOk(mem, views[|layers|], NULL_BLOCK);
      layers := layers + [EMPTY_LAYER];
      rings, views := rings + [[Sentinel]], views + [views[|views| - 1]];
    }

    /** Destroying the cache on top forgets what was changed in it. */
    method Pop()
      requires Valid() && layers != []
      modifies this
      ensures Valid() && db == old(db) && dbBlock == old(dbBlock)
      ensures layers == old(layers[..|layers| - 1]) && views == old(views[..|layers|])
    {
      layers := layers[..|layers| - 1];
      rings, views := rings[..|layers|], views[..|layers| + 1];
    }

    // ----- Reading -----

    /** base->GetCoin: the database may return a spent coin, a cache does not. */
    method BaseGetCoin(j: nat, o: OutPoint) returns (c: Option<Coin>)
      requires Valid() && j < |layers|
      modifies this
      ensures Valid() && Kept(j)
      ensures c.Some? ==> Seen(c.value) == Get(views[j], o) && (c.value.IsSpent() ==> c.value.script == [])
      ensures c.None? ==> o !in views[j]
      ensures c.Some? <==> o in views[j] || (j == 0 && o in db)
      decreases j, 0
    {
      if j == 0 {
        assert DbHolds(db, views[0], o);
        c := Get(db, o);
      } else {
        c := GetCoin(j - 1, o);
      }
    }

    method FetchCoin(j: nat, o: OutPoint) returns (found: bool)
      requires Valid() && j < |layers|
      modifies this
      ensures Valid() && Kept(j + 1)
      ensures found == (o in layers[j].entries) && (!found ==> o !in views[j + 1])
      ensures found <==> o in views[j + 1] || o in old(layers[j].entries) || (j == 0 && o in db)
      decreases j, 1
    {
      if o in layers[j].entries { return true; }
      ghost var l := layers[j];
      var c := BaseGetCoin(j, o);
      assert Holds(l, views[j], views[j + 1], o);
      match c {
        case None => found := false;
        case Some(coin) =>
          ghost var ring := FetchedOk(mem, layers[j], rings[j], views[j], views[j + 1], o, coin);
          layers := layers[j := Store(mem, layers[j], o, coin, false, coin.IsSpent())];
          rings := rings[j := ring];
          found := true;
      }
    }

    /** What a lookup returns is what the plain map has, whatever is cached where. */
    method GetCoin(j: nat, o: OutPoint) returns (c: Option<Coin>)
      requires Valid() && j < |layers|
      modifies this
      ensures Valid() && Kept(j + 1) && c == Get(views[j + 1], o)
      ensures c.Some? ==> !c.value.IsSpent()
      decreases j, 2
    {
      var found := FetchCoin(j, o);
      c := None;
      if found {
        assert Holds(layers[j], views[j], views[j + 1], o);
        c := Seen(layers[j].entries[o].coin);
      }
    }

    /** A reference to the coin, or to an empty one. */
    method AccessCoin(j: nat, o: OutPoint) returns (coin: Coin)
      requires Valid() && j < |layers|
      modifies this
      ensures Valid() && Kept(j + 1) && Seen(coin) == Get(views[j + 1], o)
    {
      var found := FetchCoin(j, o);
      coin := EMPTY_COIN;
      if found {
        assert Holds(layers[j], views[j], views[j + 1], o);
        coin := layers[j].entries[o].coin;
      }
    }

    method HaveCoin(j: nat, o: OutPoint) returns (have: bool)
      requires Valid() && j < |layers|
      modifies this
      ensures Valid() && Kept(j + 1) && have == (o in views[j + 1])
    {
      var coin := AccessCoin(j, o);
      have := !coin.IsSpent();
    }

    // ----- Changing the cache on top -----

    /** Only the view on top changes. */
    twostate predicate TopChanged(view: View)
      reads this
    {
      && db == old(db) && dbBlock == old(dbBlock) && |layers| == old(|layers|) && old(|layers| < |views|)
      && views == old(views)[old(|layers|) := view]
    }

    ghost predicate InTop(o: OutPoint)
      reads this
    {
      layers != [] && o in layers[|layers| - 1].entries
    }

    /** As valid, but in the cache on top the flags are wrong for exactly the broken outpoints. */
    ghost predicate ValidBut(broken: set<OutPoint>)
      reads this
    {
      && mem([]) == 0 && layers != [] && StackBut(mem, db, layers, rings, views, |layers| - 1)
      && LayerBut(mem, layers[|layers| - 1], rings[|layers| - 1], views[|layers| - 1], views[|layers|], broken)
    }

    lemma ValidIff(broken: set<OutPoint>)
      requires (layers != [] && Valid()) || ValidBut(broken)
      ensures ValidBut({}) <==> layers != [] && Valid()
      ensures ValidBut(broken) ==> (Valid() <==> broken == {})
    {
      var j := |layers| - 1;
      if ValidBut(broken) { NoneBroken(mem, layers[j], rings[j], views[j], views[j + 1], broken); }
    }

    /** May the coin be added like this? Denying an overwrite is wrong if the coin is below and has no entry here. */
    ghost predicate MayAdd(o: OutPoint, coin: Coin, possibleOverwrite: bool)
      requires 0 < |layers| < |views|
      reads this
    {
      possibleOverwrite || Unspendable(coin.script) || InTop(o) || o !in views[|layers| - 1]
    }

    /** Adding throws if it would overwrite a coin that it may not, and keeps the flags right exactly if it may add. */
    method AddCoin(o: OutPoint, coin: Coin, possibleOverwrite: bool, ghost broken: set<OutPoint>) returns (thrown: bool)
      requires ValidBut(broken) && o !in broken && !coin.IsSpent()
      modifies this
      ensures ValidBut(if old(MayAdd(o, coin, possibleOverwrite)) then broken else broken + {o})
      ensures thrown <==> old(!Unspendable(coin.script) && !possibleOverwrite && InTop(o) && o in views[|layers|])
      ensures var view := old(views[|layers|]);
        TopChanged(if thrown || Unspendable(coin.script) then view else view[o := coin])
      ensures forall p :: p != o ==> (InTop(p) <==> old(InTop(p)))
    {
      thrown := false;
      if !Unspendable(coin.script) { thrown := AddEntry(o, coin, possibleOverwrite, broken); }
    }

    method AddEntry(o: OutPoint, coin: Coin, possibleOverwrite: bool, ghost broken: set<OutPoint>)
      returns (thrown: bool)
      requires ValidBut(broken) && o !in broken && !coin.IsSpent()
      modifies this`layers, this`rings, this`views
      ensures ValidBut(if possibleOverwrite || old(InTop(o) || o !in views[|layers| - 1]) then broken else broken + {o})
      ensures thrown <==> !possibleOverwrite && old(InTop(o) && o in views[|layers|])
      ensures var view := old(views[|layers|]); TopChanged(if thrown then view else view[o := coin])
      ensures forall p :: p != o ==> (InTop(p) <==> old(InTop(p)))
    {
      var j := |layers| - 1;
      ghost var ring := AddedBut(mem, layers[j], rings[j], views[j], views[j + 1], o, coin, possibleOverwrite, broken);
      var r := Added(mem, layers[j], o, coin, possibleOverwrite);
      thrown := r.Thrown?;
      if !thrown {
        layers := layers[j := r.value];
        rings, views := rings[j := ring], views[j + 1 := views[j + 1][o := coin]];
      }
    }

    method SpendCoin(o: OutPoint) returns (found: bool, moved: Coin)
      requires Valid() && layers != []
      modifies this
      ensures Valid() && TopChanged(old(views[|layers|]) - {o})
      ensures found <==> old(o in views[|layers|] || o in layers[|layers| - 1].entries || (|layers| == 1 && o in db))
      ensures o in old(views[|layers|]) ==> moved == old(views[|layers|])[o]
      ensures o !in old(views[|layers|]) ==> moved.IsSpent()
    {
      var j := |layers| - 1;
      moved := EMPTY_COIN;
      found := FetchCoin(j, o);
      if found {
        moved := SpendEntry(o);
      } else {
        assert views[j + 1] - {o} == views[j + 1];
      }
    }

    method SpendEntry(o: OutPoint) returns (moved: Coin)
      requires Valid() && InTop(o)
      modifies this`layers, this`rings, this`views
      ensures Valid() && TopChanged(old(views[|layers|]) - {o}) && Seen(moved) == Get(old(views[|layers|]), o)
    {
      var j := |layers| - 1;
      assert Holds(layers[j], views[j], views[j + 1], o);
      moved := layers[j].entries[o].coin;
      ghost var ring := SpentOk(mem, layers[j], rings[j], views[j], views[j + 1], o);
      layers := layers[j := Spent(mem, layers[j], o)];
      rings, views := rings[j := ring], views[j + 1 := views[j + 1] - {o}];
    }

    /** Forgetting an unmodified entry changes no view. */
    method Uncache(j: nat, o: OutPoint)
      requires Valid() && j < |layers|
      modifies this
      ensures Valid() && Kept(j + 1)
      ensures o in layers[j].entries <==> o in old(layers[j].entries) && old(layers[j].entries[o]).Flagged()
    {
      if o in layers[j].entries && !layers[j].entries[o].Flagged() {
        ghost var ring := UncachedOk(mem, layers[j], rings[j], views[j], views[j + 1], o);
        layers := layers[j := Drop(mem, layers[j], o)];
        rings := rings[j := ring];
      }
    }

    // ----- Writing back -----

    /** The layers below level lo and from level n on are as they were. */
    twostate predicate Steady(lo: int, n: nat)
      reads this
    {
      && |layers| == old(|layers|) && dbBlock == old(dbBlock) && |rings| == |layers| == old(|rings|)
      && forall i :: 0 <= i < |layers| && (i < lo || n <= i) ==>
         layers[i] == old(layers[i]) && rings[i] == old(rings[i])
    }

    /** No view but that at level j has changed. */
    twostate predicate OthersSeen(j: nat)
      reads this
    {
      |views| == old(|views|) && (j > 0 ==> db == old(db))
      && forall i :: 0 <= i < |views| && i != j ==> views[i] == old(views[i])
    }

    /** Hand a dirty entry of layer j to the view below it. A layer throws if the entry is wrongly marked
        fresh, which does not happen. */
    method WriteDown(j: nat, o: OutPoint, e: Entry)
      requires mem([]) == 0 && j < |layers| && StackBut(mem, db, layers, rings, views, j)
               && EntryOk(e, Get(views[j], o)) && e.isDirty
      modifies this
      ensures StackBut(mem, db, layers, rings, views, j) && Steady(j - 1, j) && (j > 0 ==> db == old(db))
      ensures views == old(views)[j := Put(old(views[j]), o, Seen(e.coin))]
    {
      if j == 0 {
        DbPut(db, views[0], o, e);
        db := Put(db, o, Seen(e.coin));
        views := views[0 := Put(views[0], o, Seen(e.coin))];
      } else {
        ghost var ring := WriteOk(mem, layers[j - 1], rings[j - 1], views[j - 1], views[j], o, e);
        var r := WriteEntry(mem, layers[j - 1], o, e);
        layers := layers[j - 1 := r.value];
        rings, views := rings[j - 1 := ring], views[j := Put(views[j], o, Seen(e.coin))];
      }
    }

    /** A clean entry is not handed down: the view below has it already. */
    method WriteIfDirty(j: nat, o: OutPoint)
      requires mem([]) == 0 && j < |layers| && StackBut(mem, db, layers, rings, views, j)
      requires o in layers[j].entries && EntryOk(layers[j].entries[o], Get(views[j], o))
      modifies this
      ensures StackBut(mem, db, layers, rings, views, j) && Steady(j - 1, j) && OthersSeen(j)
      ensures views[j] == Put(old(views[j]), o, Seen(old(layers[j].entries[o]).coin))
    {
      var e := layers[j].entries[o];
      if e.isDirty {
        WriteDown(j, o, e);
      } else {
        assert Put(views[j], o, Seen(e.coin)) == views[j];
      }
    }

    /** The step of a cursor over a cache that is to be kept: forget a spent entry, unflag any other. */
    method NextAndErase(j: nat, o: OutPoint, ghost below: View) returns (next: Node)
      requires mem([]) == 0 && j < |layers| && StackBut(mem, db, layers, rings, views, j)
      requires |rings[j]| > 1 && rings[j][1] == Pair(o) && o in layers[j].entries
      requires LayerOk(mem, layers[j], rings[j], below, views[j + 1]) && views[j] == Put(below, o, Get(views[j + 1], o))
      modifies this`layers, this`rings
      ensures StackBut(mem, db, layers, rings, views, j) && Steady(j - 1, j + 1)
              && layers[j].block == old(layers[j].block)
      ensures LayerOk(mem, layers[j], rings[j], views[j], views[j + 1])
      ensures rings[j] == Without(old(rings[j]), 1) && next == After(old(rings[j]), 1)
      ensures CoinsKept(old(layers[j].entries), layers[j].entries)
    {
      var l := layers[j];
      EraseListed(l, rings[j], o, 1);
      assert NodeOk(l.links, rings[j], 1);
      next := l.links.next[Pair(o)];
      assert Holds(l, below, views[j + 1], o);
      var l' := if l.entries[o].coin.IsSpent() then Erase(l, o) else SetClean(l, o);
      Rebased(mem, l, rings[j], below, views[j + 1], o, l', Without(rings[j], 1), views[j]);
      layers, rings := layers[j := l'], rings[j := Without(rings[j], 1)];
    }

    /** Of the list of layer j, the entries in done have been handed down. If the cache is to be wiped
        anyway, the cursor leaves it as it is; otherwise it keeps it in agreement with the view below. */
    ghost predicate HandedDown(j: nat, willErase: bool, child: Layer, below: View, done: seq<Node>, rest: seq<Node>)
      reads this
    {
      && mem([]) == 0 && j < |layers| && StackBut(mem, db, layers, rings, views, j)
      && |done| > 0 && Sentinel !in rest && LayerOk(mem, child, done + rest, below, views[j + 1])
      && AllShow(done, views[j], views[j + 1], below)
      && (if willErase then layers[j] == child && rings[j] == done + rest
          else LayerOk(mem, layers[j], rings[j], views[j], views[j + 1]) && rings[j] == [Sentinel] + rest)
    }

    /** The next entry is in the layer, as right for the view below as it was at first. */
    lemma NextEntry(j: nat, willErase: bool, child: Layer, below: View, done: seq<Node>, rest: seq<Node>)
      requires HandedDown(j, willErase, child, below, done, rest) && rest != []
      ensures rest[0].Pair? && var o := rest[0].key;
        && o in layers[j].entries && var e := layers[j].entries[o];
        && EntryOk(e, Get(views[j], o)) && Seen(e.coin) == Get(views[j + 1], o)
    {
      var ring := done + rest;
      assert ring[|done|] == rest[0] && ring[|done|] in ring;
      assert rest[0] !in done by { assert forall i :: 0 <= i < |done| ==> ring[i] == done[i]; }
      var o := rest[0].key;
      assert Shows(done, views[j], views[j + 1], below, o);
      if willErase {
        assert Holds(child, below, views[j + 1], o);
      } else {
        assert rings[j][1] in rings[j];
        assert Holds(layers[j], views[j], views[j + 1], o);
      }
    }

    /** Hand down one entry of the list, and go to the next. */
    method BatchStep(j: nat, cur: Node, willErase: bool, ghost child: Layer, ghost below: View, ghost done: seq<Node>,
                     ghost rest: seq<Node>)
      returns (next: Node)
      requires HandedDown(j, willErase, child, below, done, rest) && rest != [] && cur == rest[0]
      modifies this
      ensures HandedDown(j, willErase, child, below, done + [rest[0]], rest[1..])
      ensures next == (if |rest| > 1 then rest[1] else Sentinel)
      ensures Steady(j - 1, j + 1) && layers[j].block == old(layers[j].block)
      ensures OthersSeen(j) && CoinsKept(old(layers[j].entries), layers[j].entries)
    {
      NextEntry(j, willErase, child, below, done, rest);
      if willErase {
        next := FlushStep(j, cur.key, child, below, done, rest);
      } else {
        next := SyncStep(j, cur.key, child, below, done, rest);
      }
    }

    method FlushStep(j: nat, o: OutPoint, ghost child: Layer, ghost below: View, ghost done: seq<Node>,
                     ghost rest: seq<Node>) returns (next: Node)
      requires HandedDown(j, true, child, below, done, rest) && rest != [] && rest[0] == Pair(o)
               && o in layers[j].entries
      requires EntryOk(layers[j].entries[o], Get(views[j], o))
               && Seen(layers[j].entries[o].coin) == Get(views[j + 1], o)
      modifies this
      ensures HandedDown(j, true, child, below, done + [rest[0]], rest[1..])
      ensures next == (if |rest| > 1 then rest[1] else Sentinel)
      ensures Steady(j - 1, j) && OthersSeen(j)
    {
      ghost var now, above := views[j], views[j + 1];
      WriteIfDirty(j, o);
      ShowsNext(done, rest[0], now, above, below, views[j]);
      ListTail(done, rest);
      NextInList(child.links, done, rest);
      next := layers[j].links.next[Pair(o)];
    }

    method SyncStep(j: nat, o: OutPoint, ghost child: Layer, ghost below: View, ghost done: seq<Node>,
                    ghost rest: seq<Node>) returns (next: Node)
      requires HandedDown(j, false, child, below, done, rest) && rest != [] && rest[0] == Pair(o)
               && o in layers[j].entries
      requires EntryOk(layers[j].entries[o], Get(views[j], o))
               && Seen(layers[j].entries[o].coin) == Get(views[j + 1], o)
      modifies this
      ensures HandedDown(j, false, child, below, done + [rest[0]], rest[1..])
      ensures next == (if |rest| > 1 then rest[1] else Sentinel)
      ensures Steady(j - 1, j + 1) && layers[j].block == old(layers[j].block) && OthersSeen(j)
      ensures CoinsKept(old(layers[j].entries), layers[j].entries)
    {
      ghost var now, above := views[j], views[j + 1];
      WriteIfDirty(j, o);
      ShowsNext(done, rest[0], now, above, below, views[j]);
      ListTail(done, rest);
      next := NextAndErase(j, o, now);
    }

    /** The first entry of the list, or the sentinel. */
    method FirstFlagged(j: nat) returns (first: Node)
      requires Valid() && j < |layers|
      ensures |rings[j]| > 0 && first == After(rings[j], 0)
              && HandedDown(j, true, layers[j], views[j], rings[j][..1], rings[j][1..])
      ensures HandedDown(j, false, layers[j], views[j], rings[j][..1], rings[j][1..])
    {
      assert LayerOk(mem, layers[j], rings[j], views[j], views[j + 1]);
      assert NodeOk(layers[j].links, rings[j], 0);
      assert rings[j][..1] == [Sentinel] && rings[j][..1] + rings[j][1..] == rings[j];
      first := layers[j].links.next[Sentinel];
      NoneShown([Sentinel], views[j], views[j + 1]);
    }

    lemma NothingLeft(j: nat, willErase: bool, child: Layer, below: View, done: seq<Node>, rest: seq<Node>)
      requires HandedDown(j, willErase, child, below, done, rest) && rest == []
      ensures views[j] == views[j + 1]
    {
      assert done + rest == done;
      AllHandedDown(mem, child, done, below, views[j + 1], views[j]);
    }

    /** Hand down all flagged entries of layer j. */
    method HandAllDown(j: nat, willErase: bool)
      requires Valid() && j < |layers|
      modifies this
      ensures mem([]) == 0 && Steady(j - 1, j + 1) && layers[j].block == old(layers[j].block)
      ensures CoinsKept(old(layers[j].entries), layers[j].entries)
      ensures StackBut(mem, db, layers, rings, views, j) && (j > 0 ==> db == old(db))
      ensures views == old(views)[j := old(views[j + 1])]
      ensures !willErase ==> LayerOk(mem, layers[j], rings[j], views[j], views[j + 1]) && rings[j] == [Sentinel]
    {
      var cur := FirstFlagged(j);
      ghost var child, below, done, rest := layers[j], views[j], rings[j][..1], rings[j][1..];
      while cur != Sentinel
        invariant HandedDown(j, willErase, child, below, done, rest)
        invariant cur == if rest == [] then Sentinel else rest[0]
        invariant Steady(j - 1, j + 1) && layers[j].block == child.block
        invariant OthersSeen(j) && CoinsKept(child.entries, layers[j].entries)
        decreases |rest|
      {
        cur := BatchStep(j, cur, willErase, child, below, done, rest);
        done, rest := done + [rest[0]], rest[1..];
      }
      NothingLeft(j, willErase, child, below, done, rest);
    }

    /** Hand the flagged entries of layer j down to the view below it, which then is what layer j shows. */
    method BatchWrite(j: nat, willErase: bool)
      requires Valid() && j < |layers| && (j == 0 ==> layers[0].block != NULL_BLOCK)
      modifies this
      ensures mem([]) == 0 && StackBut(mem, db, layers, rings, views, if willErase then j else -1)
      ensures views == old(views)[j := old(views[j + 1])] && (j > 0 ==> db == old(db))
      ensures |layers| == old(|layers|) && layers[j].block == old(layers[j].block)
      ensures forall i :: 0 <= i < |layers| && (i < j - 1 || j < i) ==> layers[i] == old(layers[i])
      ensures !willErase ==> rings[j] == [Sentinel]
      ensures CoinsKept(old(layers[j].entries), layers[j].entries)
      ensures if j == 0 then dbBlock == old(layers[0].block)
              else layers[j - 1].block == old(layers[j].block) && dbBlock == old(dbBlock)
    {
      HandAllDown(j, willErase);
      SetBaseBlock(j, if willErase then j else -1);
    }

    /** The view below takes over the block of layer j. */
    method SetBaseBlock(j: nat, ghost exempt: int)
      requires j < |layers| && (exempt == j || exempt == -1) && StackBut(mem, db, layers, rings, views, exempt)
      modifies this`layers, this`dbBlock
      ensures StackBut(mem, db, layers, rings, views, exempt) && |layers| == old(|layers|)
      ensures forall i :: 0 <= i < |layers| && i != j - 1 ==> layers[i] == old(layers[i])
      ensures if j == 0 then dbBlock == layers[0].block
        else layers[j - 1] == old(layers[j - 1]).(block := layers[j].block) && dbBlock == old(dbBlock)
    {
      if j == 0 {
        dbBlock := layers[0].block;
      } else {
        BlockOk(mem, layers[j - 1], rings[j - 1], views[j - 1], views[j], layers[j].block);
        layers := layers[j - 1 := layers[j - 1].(block := layers[j].block)];
      }
    }

    /** Push what was changed to the view below, and empty the cache. No view changes but that one, which
        becomes the view of this cache. */
    method Flush(j: nat) returns (ok: bool)
      requires Valid() && j < |layers| && (j == 0 ==> layers[0].block != NULL_BLOCK)
      modifies this
      ensures ok && Valid() && views == old(views)[j := old(views[j + 1])] && (j > 0 ==> db == old(db))
      ensures |layers| == old(|layers|) && layers[j] == EMPTY_LAYER.(block := old(layers[j].block))
      ensures forall i :: 0 <= i < |layers| && (i < j - 1 || j < i) ==> layers[i] == old(layers[i])
      ensures if j == 0 then dbBlock == old(layers[0].block)
              else layers[j - 1].block == old(layers[j].block) && dbBlock == old(dbBlock)
    {
      BatchWrite(j, true);
      EmptyOk(mem, views[j], layers[j].block);
      layers := layers[j := EMPTY_LAYER.(block := layers[j].block)];
      rings := rings[j := [Sentinel]];
      ok := true;
    }

    /** Push what was changed to the view below, and keep the cache, without flags and without spent coins. */
    method Sync(j: nat) returns (thrown: bool)
      requires Valid() && j < |layers| && (j == 0 ==> layers[0].block != NULL_BLOCK)
      modifies this
      ensures !thrown && Valid() && views == old(views)[j := old(views[j + 1])] && (j > 0 ==> db == old(db))
      ensures |layers| == old(|layers|) && layers[j].block == old(layers[j].block)
      ensures forall i :: 0 <= i < |layers| && (i < j - 1 || j < i) ==> layers[i] == old(layers[i])
      ensures layers[j].entries == Unflagged(old(layers[j].entries))
      ensures if j == 0 then dbBlock == old(layers[0].block)
              else layers[j - 1].block == old(layers[j].block) && dbBlock == old(dbBlock)
    {
      BatchWrite(j, false);
      assert LayerOk(mem, layers[j], rings[j], views[j], views[j + 1]);
      assert NodeOk(layers[j].links, rings[j], 0);
      thrown := layers[j].links.next[Sentinel] != Sentinel;
      forall o | o in layers[j].entries
        ensures !layers[j].entries[o].Flagged() && !layers[j].entries[o].coin.IsSpent()
      {
        assert Holds(layers[j], views[j], views[j + 1], o);
      }
      AllKept(old(layers[j].entries), layers[j].entries);
    }

    // ----- The best block -----

    method SetBestBlock(block: nat)
      requires Valid() && layers != []
      modifies this`layers
      ensures Valid() && layers == old(layers)[|layers| - 1 := old(layers[|layers| - 1]).(block := block)]
    {
      var j := |layers| - 1;
      BlockOk(mem, layers[j], rings[j], views[j], views[j + 1], block);
      layers := layers[j := layers[j].(block := block)];
    }

    /** The block is remembered on the way, and every layer goes on reporting what it did. */
    method GetBestBlock(j: nat) returns (block: nat)
      requires Valid() && j < |layers|
      modifies this`layers
      ensures Valid() && |layers| == old(|layers|) && (forall i :: j < i < |layers| ==> layers[i] == old(layers[i]))
      ensures block == old(Best(dbBlock, layers, j + 1))
      ensures forall i :: 0 <= i <= |layers| ==> Best(dbBlock, layers, i) == old(Best(dbBlock, layers, i))
      decreases j
    {
      if layers[j].block == NULL_BLOCK {
        if j == 0 {
          block := dbBlock;
        } else {
          block := GetBestBlock(j - 1);
        }
        BlockOk(mem, layers[j], rings[j], views[j], views[j + 1], block);
        forall i | 0 <= i <= |layers|
          ensures Best(dbBlock, layers[j := layers[j].(block := block)], i) == Best(dbBlock, layers, i)
        {
          BestSet(dbBlock, layers, j, block, i);
        }
        layers := layers[j := layers[j].(block := block)];
      } else {
        block := layers[j].block;
      }
    }

    // ----- Whole transactions -----

    /**
     * Add the outputs of a transaction. Without a check for overwrites this stops with an exception at the first
     * output, number n, that the cache has unspent, and leaves wrong flags for exactly the outputs before that hide a
     * coin below.
     */
    method AddCoins(hash: nat, vout: seq<TxOut>, height: nat, coinbase: bool, checkForOverwrite: bool)
      returns (thrown: bool, ghost n: nat)
      requires Valid() && layers != [] && forall i :: 0 <= i < |vout| ==> vout[i].value != -1
      modifies this
      ensures n <= |vout| && |layers| < |views| && TopChanged(views[|layers|])
      ensures forall i :: 0 <= i < n && !Unspendable(vout[i].script) ==>
        Get(views[|layers|], OutPoint(hash, i)) == Some(Coin(vout[i].value, vout[i].script, coinbase, height))
      ensures forall o: OutPoint :: o.hash != hash || o.n >= n || Unspendable(vout[o.n].script) ==>
        Get(views[|layers|], o) == Get(old(views[|layers|]), o)
      ensures coinbase || checkForOverwrite ==> !thrown && n == |vout| && Valid()
      ensures !coinbase && !checkForOverwrite ==>
        var view, below, cached := old(views[|layers|]), old(views[|layers| - 1]),
                                   old(layers[|layers| - 1].entries.Keys);
        && ValidBut(Hidden(below, cached, hash, vout, n))
        && (if thrown then n < |vout| && Clashes(view, cached, hash, vout, n) else n == |vout|)
        && forall i :: 0 <= i < n ==> !Clashes(view, cached, hash, vout, i)
    {
      if coinbase || checkForOverwrite {
        AddOverwriting(hash, vout, height, coinbase, checkForOverwrite);
        thrown, n := false, |vout|;
      } else {
        thrown, n := AddUnchecked(hash, vout, height);
      }
      OutputsAre(old(views[|layers|]), hash, vout, n, height, coinbase);
    }

    /** Every output may overwrite, or is known not to. */
    method AddOverwriting(hash: nat, vout: seq<TxOut>, height: nat, coinbase: bool, checkForOverwrite: bool)
      requires Valid() && layers != [] && (coinbase || checkForOverwrite)
               && forall i :: 0 <= i < |vout| ==> vout[i].value != -1
      modifies this
      ensures Valid() && TopChanged(WithOutputs(old(views[|layers|]), hash, vout, |vout|, height, coinbase))
    {
      for i := 0 to |vout|
        invariant Valid() && TopChanged(WithOutputs(old(views[|layers|]), hash, vout, i, height, coinbase))
      {
        var j, o := |layers| - 1, OutPoint(hash, i);
        var overwrite := coinbase;
        if checkForOverwrite { overwrite := HaveCoin(j, o); }
        assert Holds(layers[j], views[j], views[j + 1], o);
        ValidIff({});
        var thrown := AddCoin(o, Coin(vout[i].value, vout[i].script, coinbase, height), overwrite, {});
        ValidIff({});
      }
    }

    method AddUnchecked(hash: nat, vout: seq<TxOut>, height: nat) returns (thrown: bool, ghost n: nat)
      requires Valid() && layers != [] && forall i :: 0 <= i < |vout| ==> vout[i].value != -1
      modifies this
      ensures n <= |vout| && TopChanged(WithOutputs(old(views[|layers|]), hash, vout, n, height, false))
      ensures var view, below, cached := old(views[|layers|]), old(views[|layers| - 1]),
              old(layers[|layers| - 1].entries.Keys);
        && ValidBut(Hidden(below, cached, hash, vout, n))
        && (if thrown then n < |vout| && Clashes(view, cached, hash, vout, n) else n == |vout|)
        && forall i :: 0 <= i < n ==> !Clashes(view, cached, hash, vout, i)
    {
      ghost var view, below, cached := views[|layers|], views[|layers| - 1], layers[|layers| - 1].entries.Keys;
      ValidIff({});
      for i := 0 to |vout|
        invariant ValidBut(Hidden(below, cached, hash, vout, i))
        invariant TopChanged(WithOutputs(view, hash, vout, i, height, false))
        invariant forall k {:trigger InTop(OutPoint(hash, k))} ::
                  i <= k ==> (InTop(OutPoint(hash, k)) <==> OutPoint(hash, k) in cached)
        invariant forall k :: 0 <= k < i ==> !Clashes(view, cached, hash, vout, k)
      {
        var o := OutPoint(hash, i);
        OutputsElsewhere(view, hash, vout, i, height, false, o);
        HiddenNext(below, cached, hash, vout, i);
        assert InTop(o) <==> o in cached;
        thrown := AddCoin(o, Coin(vout[i].value, vout[i].script, false, height), false,
                          Hidden(below, cached, hash, vout, i));
        if thrown { return true, i; }
      }
      thrown, n := false, |vout|;
    }

    // ----- Checking the data structure -----

    /** No assertion of the sanity check can fail: only five combinations of flags occur, the list is
        doubly linked and holds exactly the flagged entries, and the memory count is right. */
    method SanityCheck(j: nat) returns (sane: bool)
      requires Valid() && j < |layers|
      ensures sane
    {
      var l := layers[j];
      assert LayerOk(mem, l, rings[j], views[j], views[j + 1]);
      var flags, usage, flagged := CheckEntries(mem, l, rings[j], views[j], views[j + 1]);
      var list, linked := CheckList(l, rings[j]);
      FlaggedCount(l, rings[j]);
      sane := flags && list && linked == flagged && usage == l.usage;
    }
  }

  /** No coin has changed, and all that are not spent are still there. */
  ghost predicate CoinsKept(before: map<OutPoint, Entry>, after: map<OutPoint, Entry>) {
    && (forall o :: o in after ==> o in before && after[o].coin == before[o].coin)
    && (forall o :: o in before && !before[o].coin.IsSpent() ==> o in after)
  }

  /** The unspent coins, without flags. */
  ghost function Unflagged(entries: map<OutPoint, Entry>): map<OutPoint, Entry> {
    map o | o in entries && !entries[o].coin.IsSpent() :: Entry(entries[o].coin, false, false)
  }

  lemma AllKept(before: map<OutPoint, Entry>, after: map<OutPoint, Entry>)
    requires CoinsKept(before, after)
    requires forall o :: o in after ==> !after[o].Flagged() && !after[o].coin.IsSpent()
    ensures after == Unflagged(before)
  {
  }

  datatype TxOut = TxOut(value: int, script: seq<nat>)

  /** The view with the first n outputs added, but for those that nobody can ever spend. */
  ghost function WithOutputs(view: View, hash: nat, vout: seq<TxOut>, n: nat, height: nat, coinbase: bool): View
    requires n <= |vout|
  {
    if n == 0 then view
    else
      var m := WithOutputs(view, hash, vout, n - 1, height, coinbase);
      var out := vout[n - 1];
      if Unspendable(out.script) then m else m[OutPoint(hash, n - 1) := Coin(out.value, out.script, coinbase, height)]
  }

  /** Output i is spendable, and the cache has it unspent. */
  ghost predicate Clashes(view: View, cached: set<OutPoint>, hash: nat, vout: seq<TxOut>, i: nat)
    requires i < |vout|
  {
    !Unspendable(vout[i].script) && OutPoint(hash, i) in view && OutPoint(hash, i) in cached
  }

  /** Output i is spendable, and the view below has it without the cache knowing. */
  ghost predicate Hides(below: View, cached: set<OutPoint>, hash: nat, vout: seq<TxOut>, i: nat)
    requires i < |vout|
  {
    !Unspendable(vout[i].script) && OutPoint(hash, i) in below && OutPoint(hash, i) !in cached
  }

  ghost function Hidden(below: View, cached: set<OutPoint>, hash: nat, vout: seq<TxOut>, n: nat): set<OutPoint>
    requires n <= |vout|
  {
    set i | 0 <= i < n && Hides(below, cached, hash, vout, i) :: OutPoint(hash, i)
  }

  lemma HiddenNext(below: View, cached: set<OutPoint>, hash: nat, vout: seq<TxOut>, n: nat)
    requires n < |vout|
    ensures OutPoint(hash, n) !in Hidden(below, cached, hash, vout, n)
    ensures Hidden(below, cached, hash, vout, n + 1) ==
      Hidden(below, cached, hash, vout, n) + (if Hides(below, cached, hash, vout, n) then {OutPoint(hash, n)} else {})
  {
  }

  lemma {:induction false} OutputsElsewhere(view: View, hash: nat, vout: seq<TxOut>, n: nat, height: nat,
                                            coinbase: bool, o: OutPoint)
    requires n <= |vout| && (o.hash != hash || o.n >= n)
    ensures Get(WithOutputs(view, hash, vout, n, height, coinbase), o) == Get(view, o)
  {
    if n > 0 { OutputsElsewhere(view, hash, vout, n - 1, height, coinbase, o); }
  }

  /** Every output that can be spent is there as a coin, and nothing else has changed. */
  lemma {:induction false} OutputsAre(view: View, hash: nat, vout: seq<TxOut>, n: nat, height: nat, coinbase: bool)
    requires n <= |vout|
    ensures forall i :: 0 <= i < n && !Unspendable(vout[i].script) ==>
      Get(WithOutputs(view, hash, vout, n, height, coinbase), OutPoint(hash, i)) ==
      Some(Coin(vout[i].value, vout[i].script, coinbase, height))
    ensures forall o: OutPoint :: o.hash != hash || o.n >= n || Unspendable(vout[o.n].script) ==>
      Get(WithOutputs(view, hash, vout, n, height, coinbase), o) == Get(view, o)
  {
    if n > 0 { OutputsAre(view, hash, vout, n - 1, height, coinbase); }
  }

  ghost function FlaggedKeys(m: map<OutPoint, Entry>): set<OutPoint> {
    set o | o in m && m[o].Flagged()
  }

  method CheckEntries(mem: Memory, l: Layer, ghost ring: seq<Node>, ghost base: View, ghost view: View)
    returns (sane: bool, usage: nat, flagged: nat)
    requires LayerOk(mem, l, ring, base, view)
    ensures sane && usage == UsageOf(mem, l.entries) && flagged == |FlaggedKeys(l.entries)|
  {
    sane, usage, flagged := true, 0, 0;
    var todo := l.entries;
    while todo != map[]
      invariant forall o :: o in todo ==> o in l.entries && todo[o] == l.entries[o]
      invariant sane && usage + UsageOf(mem, todo) == UsageOf(mem, l.entries)
      invariant flagged + |FlaggedKeys(todo)| == |FlaggedKeys(l.entries)|
      decreases |todo|
    {
      var o :| o in todo;
      var e := todo[o];
      assert Holds(l, base, view, o);
      var attr := (if e.isDirty then 1 else 0) + (if e.isFresh then 2 else 0) + (if e.coin.IsSpent() then 4 else 0);
      sane := sane && attr != 2 && attr != 4 && attr != 7;
      usage := usage + mem(e.coin.script);
      UsageWithout(mem, todo, o);
      assert FlaggedKeys(todo - {o}) == FlaggedKeys(todo) - {o};
      if e.Flagged() { flagged := flagged + 1; }
      todo := todo - {o};
    }
  }

  method CheckList(l: Layer, ghost ring: seq<Node>) returns (sane: bool, linked: nat)
    requires Listed(l, ring)
    ensures sane && linked == |ring| - 1
  {
    sane, linked := true, 0;
    assert NodeOk(l.links, ring, 0);
    var cur := l.links.next[Sentinel];
    while cur != Sentinel
      invariant sane && linked < |ring| && cur == After(ring, linked) && (cur == Sentinel ==> linked == |ring| - 1)
      decreases |ring| - linked
    {
      assert NodeOk(l.links, ring, linked) && NodeOk(l.links, ring, linked + 1) && ring[linked + 1] in ring;
      sane := sane && l.links.prev[l.links.next[cur]] == cur && l.links.next[l.links.prev[cur]] == cur
              && l.entries[cur.key].Flagged();
      linked := linked + 1;
      cur := l.links.next[cur];
    }
  }

  lemma ListDistinct(ring: seq<Node>)
    requires |ring| > 0 && ring[0] == Sentinel && Distinct(ring)
    ensures Distinct(ring[1..]) && forall n :: n in ring[1..] ==> n.Pair?
  {
    var list := ring[1..];
    forall i, j | 0 <= i < j < |list| ensures list[i] != list[j] {
      assert list[i] == ring[i + 1] && list[j] == ring[j + 1];
    }
    forall i | 0 <= i < |list| ensures list[i].Pair? { assert list[i] == ring[i + 1] && ring[i + 1] != ring[0]; }
  }

  lemma FlaggedCount(l: Layer, ring: seq<Node>)
    requires Listed(l, ring)
    ensures |FlaggedKeys(l.entries)| == |ring| - 1
  {
    var list := ring[1..];
    ListDistinct(ring);
    forall o | o in l.entries && l.entries[o].Flagged() ensures Pair(o) in list {
      var k :| 0 <= k < |ring| && ring[k] == Pair(o);
      assert list[k - 1] == Pair(o);
    }
    forall n | n in list ensures n.key in FlaggedKeys(l.entries) { assert n in ring; }
    var keys := set n | n in list :: n.key;
    assert keys == FlaggedKeys(l.entries) by {
      forall o | o in FlaggedKeys(l.entries) ensures o in keys { assert Pair(o) in list && Pair(o).key == o; }
    }
    KeyCount(list);
  }

  lemma {:induction false} KeyCount(list: seq<Node>)
    requires Distinct(list) && forall n :: n in list ==> n.Pair?
    ensures |set n | n in list :: n.key| == |list|
  {
    var keys := set n | n in list :: n.key;
    if list == [] {
      assert keys == {};
    } else {
      var n := |list| - 1;
      KeyCount(list[..n]);
      var front := set m | m in list[..n] :: m.key;
      assert list == list[..n] + [list[n]];
      assert list[n].key !in front;
      assert keys == front + {list[n].key};
    }
  }

  lemma {:induction false} BestSet(dbBlock: nat, layers: seq<Layer>, j: nat, block: nat, i: nat)
    requires j < |layers| && i <= |layers| && block == Best(dbBlock, layers, j + 1)
    ensures Best(dbBlock, layers[j := layers[j].(block := block)], i) == Best(dbBlock, layers, i)
  {
    if i > 0 { BestSet(dbBlock, layers, j, block, i - 1); }
    if i == j + 1 && block == NULL_BLOCK { BestSet(dbBlock, layers, j, block, j); }
  }

  lemma {:induction false} SameBest(dbBlock: nat, layers: seq<Layer>, layers': seq<Layer>, j: nat)
    requires j <= |layers| == |layers'| && forall i :: 0 <= i < j ==> layers'[i].block == layers[i].block
    ensures Best(dbBlock, layers', j) == Best(dbBlock, layers, j)
  {
    if j > 0 { SameBest(dbBlock, layers, layers', j - 1); }
  }

  /** Flushing hands down the block as it is stored. The layer below then reports the block that this one
      reported if and only if this one had a block, or the layer below had none that differs from
      what is reported below it. */
  lemma FlushedBlock(dbBlock: nat, layers: seq<Layer>, layers': seq<Layer>, j: nat)
    requires 0 < j < |layers| == |layers'| && layers'[j - 1].block == layers[j].block
    requires forall i :: 0 <= i < j - 1 ==> layers'[i].block == layers[i].block
    ensures Best(dbBlock, layers', j) == Best(dbBlock, layers, j + 1) <==>
      layers[j].block != NULL_BLOCK || layers[j - 1].block in {NULL_BLOCK, Best(dbBlock, layers, j - 1)}
  {
    SameBest(dbBlock, layers, layers', j - 1);
  }

  /**
   * Two caches on a database: both report block 2, and once the upper one, which has none, is flushed the lower reports
   * 1.
   */
  method FlushedNull() returns (stack: CoinStack, ghost before: nat, after: nat)
    ensures stack.Valid() && before == 2 && after == 1
  {
    stack := new CoinStack(_ => 0, map[], 1);
    stack.Push();
    stack.SetBestBlock(2);
    stack.Push();
    before := Best(stack.dbBlock, stack.layers, 2);
    assert before == Best(stack.dbBlock, stack.layers, 1);
    var _ := stack.Flush(1);
    assert Best(stack.dbBlock, stack.layers, 0) == 1;
    after := stack.GetBestBlock(0);
  }

  /** A coin of the database is spent twice, and both times this says that there was a coin. */
  method SpentTwice(o: OutPoint, coin: Coin) returns (first: bool, second: bool)
    requires !coin.IsSpent()
    ensures first && second
  {
    var stack := new CoinStack(_ => 0, map[o := coin], 1);
    stack.Push();
    var moved;
    first, moved := stack.SpendCoin(o);
    assert Holds(stack.layers[0], stack.views[0], stack.views[1], o);
    second, moved := stack.SpendCoin(o);
  }

  lemma EmptyOk(mem: Memory, view: View, block: nat)
    ensures LayerOk(mem, EMPTY_LAYER.(block := block), [Sentinel], view, view)
  {
    assert NodeOk(NO_LINKS, [Sentinel], 0);
    forall o ensures Holds(EMPTY_LAYER.(block := block), view, view, o) {}
  }

  lemma BlockOk(mem: Memory, l: Layer, ring: seq<Node>, base: View, view: View, block: nat)
    requires LayerOk(mem, l, ring, base, view)
    ensures LayerOk(mem, l.(block := block), ring, base, view)
  {
    forall o ensures Holds(l.(block := block), base, view, o) { assert Holds(l, base, view, o); }
  }

  lemma DbPut(db: View, view: View, o: OutPoint, e: Entry)
    requires DbOk(db, view)
    ensures DbOk(Put(db, o, Seen(e.coin)), Put(view, o, Seen(e.coin)))
  {
    forall p ensures DbHolds(Put(db, o, Seen(e.coin)), Put(view, o, Seen(e.coin)), p) { assert DbHolds(db, view, p); }
  }

  /** In the view below, the entries of done show what the layer above shows, and the others what they did. */
  ghost predicate Shows(done: seq<Node>, now: View, above: View, below: View, o: OutPoint) {
    Get(now, o) == if Pair(o) in done then Get(above, o) else Get(below, o)
  }

  ghost predicate AllShow(done: seq<Node>, now: View, above: View, below: View) {
    forall o {:trigger Shows(done, now, above, below, o)} :: Shows(done, now, above, below, o)
  }

  lemma NoneShown(done: seq<Node>, below: View, above: View)
    requires done == [Sentinel]
    ensures AllShow(done, below, above, below)
  {
    forall o ensures Shows(done, below, above, below, o) {}
  }

  lemma ListTail(done: seq<Node>, rest: seq<Node>)
    requires rest != []
    ensures done + [rest[0]] + rest[1..] == done + rest && Without([Sentinel] + rest, 1) == [Sentinel] + rest[1..]
  {
  }

  lemma NextInList(l: Links, done: seq<Node>, rest: seq<Node>)
    requires Ring(l, done + rest) && |done| > 0 && rest != []
    ensures rest[0] in l.next && l.next[rest[0]] == if |rest| > 1 then rest[1] else Sentinel
  {
    assert NodeOk(l, done + rest, |done|);
  }

  lemma ShowsNext(done: seq<Node>, n: Node, now: View, above: View, below: View, now': View)
    requires n.Pair? && now' == Put(now, n.key, Get(above, n.key)) && AllShow(done, now, above, below)
    ensures AllShow(done + [n], now', above, below)
  {
    forall o ensures Shows(done + [n], now', above, below, o) { assert Shows(done, now, above, below, o); }
  }

  /** When all flagged entries have been handed down, both views agree. */
  lemma AllHandedDown(mem: Memory, child: Layer, ring: seq<Node>, below: View, above: View, now: View)
    requires LayerOk(mem, child, ring, below, above) && AllShow(ring, now, above, below)
    ensures now == above
  {
    forall o ensures Get(now, o) == Get(above, o) {
      assert Shows(ring, now, above, below, o);
      assert Holds(child, below, above, o);
    }
    SameView(now, above);
  }

  /** A layer that now agrees with the view below at o, and is otherwise as it was. */
  lemma Rebased(mem: Memory, l: Layer, ring: seq<Node>, below: View, view: View, o: OutPoint, l': Layer,
                ring': seq<Node>, below': View)
    requires LayerOk(mem, l, ring, below, view) && o in l.entries && mem([]) == 0
             && below' == Put(below, o, Get(view, o))
    requires Listed(l', ring') && l'.usage == l.usage
    requires l'.entries == if l.entries[o].coin.IsSpent() then l.entries - {o}
             else l.entries[o := Entry(l.entries[o].coin, false, false)]
    ensures LayerOk(mem, l', ring', below', view)
  {
    assert Holds(l, below, view, o);
    UsageWithout(mem, l.entries, o);
    if !l.entries[o].coin.IsSpent() { UsageSet(mem, l.entries, o, l'.entries[o]); }
    forall p ensures Holds(l', below', view, p) { assert Holds(l, below, view, p); }
  }
}
