/** The sequences of data-layer calls that both engines make: taking an order or a level off
    the book, and posting what is left of a request. */
module StoreCalls {
  import opened Lists
  import opened Types
  import opened Rows
  import opened Store
  import opened PriceTime
  import opened StoreBook
  import opened StoreSteps
  import opened StoreRest
  import opened StoreCount
  import opened StoreClient
  import opened EngineDb

  // What the removal of an order leaves of a stored total.
  function Clamped(total: u64, remaining: u64): u64 {
    if total >= remaining then total - remaining else 0
  }

  // Whether a live order has this id.
  method Known(store: EngineDb, id: u64) returns (dup: bool)
    requires store.Valid() && Kept(store.db, store.cap, null)
    ensures dup <==> HasId(BookOf(store.db).bids, id) || HasId(BookOf(store.db).asks, id)
    ensures !dup ==> forall o {:trigger store.db.orders[o]} :: o in store.db.orders ==> store.db.orders[o].id != id
  {
    hide store.Valid, Kept, Sound, BookOf, HasId;
    var o := store.HashFind(id);
    KeptSound(store.db, store.cap, null);
    IdsListed(store.db, store.cap, id, o);
    dup := o != null;
  }

  // Whether the best contra order suits the request.
  method Crossing(store: EngineDb, r: Request) returns (crosses: bool)
    requires store.Valid() && Kept(store.db, store.cap, null) && IsSide(r.side)
    ensures crosses <==> CrossesBest(BookOf(store.db), r)
  {
    hide store.Valid, Kept, Sound, SideOf, Levels;
    KeptSound(store.db, store.cap, null);
    var best := store.TreeBest(Contra(r.side));
    BestHead(store.db, store.cap, Contra(r.side));
    crosses := best != null && (r.otype == MARKET
      || if r.side == BUY then store.LevelPrice(best) <= r.price else store.LevelPrice(best) >= r.price);
  }

  // Takes the k-th order of level l out of the queue, the index and the pool.
  method RemoveResting(store: EngineDb, l: LevelRow, o: OrderRow, ghost k: nat)
    requires store.Valid() && l in store.db.prices && l in store.db.queues && k < |store.db.queues[l]|
    requires store.db.queues[l][k] == o
    requires o in store.db.hash
    modifies store`db, store.orderPool, store.levelPool, store.index, store.index.buckets, store.bidTree, store.askTree
    modifies store.orderRows, store.levelRows
    ensures store.Valid() && l in old(store.db.queues)
    ensures store.db == Removed(old(store.db), l, k)
    ensures o in old(store.db.orders) && l.total == Clamped(old(l.total), old(store.db.orders[o].remaining))
    ensures unchanged((store.levelRows - {l})`total) && (old(store.Exact()) ==> store.Exact())
  {
    hide store.Valid, Sound, EngineDb.Exact, EngineDb.Modular;
    ValidSound(store);
    NotQueuedAfter(store.db, store.cap, l, k);
    store.QueueRemove(l, o, k);
    store.HashRemove(o);
    store.OrderFree(o);
  }

  // Takes an empty level out of its tree and gives it back to the pool.
  method DropLevel(store: EngineDb, t: u64, l: LevelRow) returns (ghost k: int)
    requires store.Valid() && l in store.db.Tree(t) && l in store.db.queues && store.db.queues[l] == []
    requires Sound(store.db, store.cap) && IsSide(t)
    modifies store`db, store.levelPool, store.bidTree, store.askTree, store.levelRows
    ensures store.Valid() && 0 <= k < |old(store.db.Tree(t))| && old(store.db.Tree(t))[k] == l
    ensures store.db == Dropped(old(store.db), t, k) && unchanged(store.levelRows`total)
    ensures (old(store.Exact()) ==> store.Exact()) && (old(store.Modular()) ==> store.Modular())
  {
    hide store.Valid, EngineDb.Exact, EngineDb.Modular;
    k := store.TreeRemove(t, l);
    DroppedLeft(old(store.db), store.cap, t, k);
    store.LevelFree(l);
  }

  // A fresh level at price p in tree t, unless the level rows are used up.
  method OpenLevel(store: EngineDb, t: u64, p: u64) returns (l: LevelRow?, ghost k: int)
    requires store.Valid() && IsSide(t) && Sound(store.db, store.cap)
    requires forall x {:trigger x in store.db.Tree(t)} :: x in store.db.Tree(t) ==>
        x in store.db.prices && store.db.prices[x] != p
    modifies store`db, store.levelPool, store.bidTree, store.askTree, store.levelRows
    ensures store.Valid() && (l == null <==> |old(store.db.prices)| >= store.levelCap)
    ensures l == null ==> store.db == old(store.db)
    ensures l != null ==> l !in old(store.db.prices) && 0 <= k <= |old(store.db.Tree(t))|
    ensures l != null ==> store.db == Opened(old(store.db), t, k, l, p)
    ensures (old(store.Exact()) ==> store.Exact()) && (old(store.Modular()) ==> store.Modular())
  {
    hide store.Valid, Sound, EngineDb.Exact, EngineDb.Modular;
    ghost var d := store.db;
    var row := store.LevelAlloc();
    k := 0;
    if row == null { return null, 0; }
    l := row;
    NewLeft(d, store.cap, l);
    store.SetLevelPrice(l, p);
    forall x | x in store.db.Tree(t) ensures x in store.db.prices && store.db.prices[x] != store.db.prices[l] {
      assert x in d.Tree(t) && x != l;
    }
    k := store.TreeInsert(t, l);
    assert store.db.prices == d.prices[l := p];
  }

  // The pool has had a level row for every price on the book.
  lemma LevelRoom(store: EngineDb)
    requires store.Valid() && Kept(store.db, store.cap, null)
    ensures |Prices(SideOf(store.db, BUY))| + |Prices(SideOf(store.db, SELL))| <= store.levelCap
  {
    store.Parts();
    hide store.Valid;
    LevelsCount(store.db, store.cap);
  }

  // The lookup in the tree tells whether an order rests at the price.
  lemma FoundPrice(d: Db, cap: nat, t: u64, p: u64, l: LevelRow?)
    requires Kept(d, cap, null) && IsSide(t)
    requires l == null ==> forall x {:trigger x in d.Tree(t)} :: x in d.Tree(t) ==> x in d.prices && d.prices[x] != p
    requires l != null ==> l in d.Tree(t) && l in d.prices && d.prices[l] == p
    ensures l != null <==> p in Prices(SideOf(d, t))
  {
    LevelPrices(d, cap, t);
    hide Kept, Prices, SideOf;
    if l != null { TreeListed(d, t, l); }
    if p in Prices(SideOf(d, t)) {
      var x :| x in Levels(d, t) && x in d.prices && d.prices[x] == p;
      ListedTree(d, t, x);
    }
  }

  // Finds the level of tree t at price p, or opens it if a row is left; order o is waiting for it with payload v.
  method FindLevel(store: EngineDb, t: u64, p: u64, o: OrderRow, v: Order, ghost d: Db)
    returns (l: LevelRow?, ghost x: Db, ghost hole: LevelRow?)
    requires store.Valid() && IsSide(t) && Kept(d, store.cap, null) && o !in d.orders && store.db == Waiting(d, o, v)
    modifies store`db, store.levelPool, store.bidTree, store.askTree, store.levelRows
    ensures store.Valid() && store.db == Waiting(x, o, v) && x.orders == d.orders && x.hash == d.hash
    ensures l == null <==> p !in Prices(SideOf(d, t)) && store.levelCap <= |d.prices|
    ensures l == null ==> x == d
    ensures Kept(x, store.cap, hole) && (hole == null || hole == l)
    ensures l != null ==> l in Levels(x, t) && l in x.queues && l in x.prices && x.prices[l] == p
    ensures SideOf(x, t) == SideOf(d, t) && SideOf(x, Contra(t)) == SideOf(d, Contra(t))
    ensures (old(store.Exact()) ==> store.Exact()) && (old(store.Modular()) ==> store.Modular())
  {
    hide store.Valid, Kept, Sound, Levels, SideOf, Prices, LevelKept, EngineDb.Exact, EngineDb.Modular;
    x, hole := d, null;
    KeptSound(d, store.cap, null);
    var found := store.TreeFind(t, p);
    assert store.db.Tree(t) == d.Tree(t);
    FoundPrice(d, store.cap, t, p, found);
    if found != null {
      l := found;
      TreeListed(d, t, l);
    } else {
      ValidSound(store);
      ghost var k;
      l, k := OpenLevel(store, t, p);
      if l == null { return; }
      x, hole := Opened(d, t, k, l, p), l;
      ValidSound(store);
      WaitingOpened(d, store.cap, t, k, l, p, o, v);
      OpenedBook(d, store.cap, t, k, l, p);
    }
  }

  // An order without a place: taken from the pool and written, unless the pool is used up.
  method NewOrder(store: EngineDb, v: Order) returns (o: OrderRow?)
    requires store.Valid() && Sound(store.db, store.cap)
    modifies store`db, store.orderPool, store.orderRows
    ensures store.Valid() && (o == null <==> |old(store.db.orders)| >= store.cap)
    ensures o == null ==> store.db == old(store.db)
    ensures o != null ==> o !in old(store.db.orders) && store.db == Waiting(old(store.db), o, v)
    ensures (old(store.Exact()) ==> store.Exact()) && (old(store.Modular()) ==> store.Modular())
  {
    hide store.Valid, Sound, Db.Queued, EngineDb.Exact, EngineDb.Modular;
    ghost var d := store.db;
    o := store.OrderAlloc();
    if o == null { return; }
    WaitingLoose(d, store.cap, o, store.db.orders[o]);
    assert store.db == Waiting(d, o, store.db.orders[o]);
    store.WriteOrder(o, v);
    assert store.db.orders == d.orders[o := v];
  }

  // The waiting order goes back to the pool.
  method GiveBack(store: EngineDb, o: OrderRow, ghost v: Order, ghost d: Db)
    requires store.Valid() && Sound(d, store.cap) && o !in d.orders && store.db == Waiting(d, o, v)
    modifies store`db, store.orderPool, store.orderRows
    ensures store.Valid() && store.db == d
    ensures (old(store.Exact()) ==> store.Exact()) && (old(store.Modular()) ==> store.Modular())
  {
    hide store.Valid, Sound, Db.Queued, EngineDb.Exact, EngineDb.Modular;
    WaitingLoose(d, store.cap, o, v);
    store.OrderFree(o);
    assert store.db.orders == d.orders;
  }

  // An order that waits is no part of any total.
  lemma WaitingTotal(x: Db, cap: nat, o: OrderRow, v: Order, l: LevelRow)
    requires Sound(x, cap) && o !in x.orders && l in x.queues
    ensures Waiting(x, o, v).Total(l) == x.Total(l)
  {
    assert QueueSound(x, l);
    SumSame(Waiting(x, o, v).orders, x.orders, x.queues[l]);
  }

  // The waiting order o goes to the tail of level l and into the index.
  method Enqueue(store: EngineDb, l: LevelRow, o: OrderRow, v: Order, t: u64, ghost x: Db, ghost hole: LevelRow?)
    requires store.Valid() && Kept(x, store.cap, hole) && IsSide(t) && l in Levels(x, t) && l in x.queues
    requires l in x.prices
    requires o !in x.orders && store.db == Waiting(x, o, v)
    requires forall r {:trigger x.orders[r]} :: r in x.orders ==> x.orders[r].id != v.id
    modifies store`db, store.index, store.index.buckets, store.orderRows, store.levelRows
    ensures store.Valid() && store.db == Appended(x, l, o, v)
    ensures old(store.Modular()) ==> store.Modular()
    ensures old(store.Exact()) ==> (store.Exact() <==> x.Total(l) + v.remaining < TWO64)
  {
    hide store.Valid, Kept, Sound, Levels, LevelKept, Db.Total, Db.Queued, EngineDb.Totals;
    KeptSound(x, store.cap, hole);
    WaitingLoose(x, store.cap, o, v);
    WaitingTotal(x, store.cap, o, v, l);
    store.QueueInsertTail(l, o);
    var ok := store.HashInsert(o);
    if !ok { assert false; }
  }

  // The remainder rests if the rows for it are left, an order row and, at a price without a level, a level row:
  // a new order at the tail of its level, and in the index.  An order row that finds no level goes back.
  // The total of that level stays exact if the true one fits in 64 bits, and is right modulo 2^64 anyway.
  method Post(store: EngineDb, r: Request, rem: u64) returns (ok: bool)
    requires store.Valid() && Kept(store.db, store.cap, null) && IsSide(r.side)
    requires forall o {:trigger store.db.orders[o]} :: o in store.db.orders ==> store.db.orders[o].id != r.id
    requires 0 < rem <= r.qty
    modifies store`db, store.orderPool, store.levelPool, store.index, store.index.buckets, store.bidTree, store.askTree
    modifies store.orderRows, store.levelRows
    ensures store.Valid() && Kept(store.db, store.cap, null)
    ensures var b := old(BookOf(store.db));
      ok <==> !PoolsUsedUp(store.cap, store.levelCap, b.bids, b.asks, r)
    ensures !ok ==> store.db == old(store.db) && (old(store.Exact()) ==> store.Exact())
    ensures ok ==> SideOf(store.db, r.side) == Insert(r.side, Resting(r, rem), old(SideOf(store.db, r.side)))
    ensures SideOf(store.db, Contra(r.side)) == old(SideOf(store.db, Contra(r.side)))
    ensures old(store.Modular()) ==> store.Modular()
    ensures ok && old(store.Exact()) ==>
        (store.Exact() <==> AtPrice(old(SideOf(store.db, r.side)), r.price) + rem < TWO64)
  {
    hide store.Valid, Kept, Sound, Levels, SideOf, Prices, Insert, AtPrice, EngineDb.Exact, EngineDb.Modular;
    ghost var d, v := store.db, Resting(r, rem);
    KeptSound(d, store.cap, null);
    SidesCount(d, store.cap);
    LevelsCount(d, store.cap);
    var row := NewOrder(store, Resting(r, rem));
    if row == null { return false; }
    ghost var x, hole;
    var l;
    l, x, hole := FindLevel(store, r.side, r.price, row, Resting(r, rem), d);
    if l == null {
      GiveBack(store, row, v, d);
      return false;
    }
    LevelTotal(x, store.cap, r.side, l, hole);
    Enqueue(store, l, row, Resting(r, rem), r.side, x, hole);
    ValidSound(store);
    AppendedBook(x, store.cap, r.side, l, row, v, hole);
    ok := true;
  }

  // Takes the k-th order of the m-th level of a side off the book, with the level if it was the last.
  method Withdraw(store: EngineDb, side: u64, l: LevelRow, o: OrderRow, ghost m: nat, ghost k: nat)
    requires store.Valid() && Kept(store.db, store.cap, null) && IsSide(side) && m < |Levels(store.db, side)|
    requires Levels(store.db, side)[m] == l
    requires l in store.db.queues && l in store.db.prices && k < |store.db.queues[l]| && store.db.queues[l][k] == o
    requires o in store.db.orders && o in store.db.hash
    modifies store`db, store.orderPool, store.levelPool, store.index, store.index.buckets, store.bidTree, store.askTree
    modifies store.orderRows, store.levelRows
    ensures store.Valid() && Kept(store.db, store.cap, null) && o in old(store.db.orders)
    ensures SideOf(store.db, side) == Drop(old(SideOf(store.db, side)), old(store.db.orders[o].id))
    ensures SideOf(store.db, Contra(side)) == Drop(old(SideOf(store.db, Contra(side))), old(store.db.orders[o].id))
    ensures l.total == Clamped(old(l.total), old(store.db.orders[o].remaining))
    ensures unchanged((store.levelRows - {l})`total)
    ensures store.db.prices == old(store.db.prices) || store.db.prices == old(store.db.prices) - {l}
    ensures old(store.Exact()) ==> store.Exact()
  {
    hide store.Valid, Kept, Sound, SideOf, Levels, LevelKept, Drop, Clamped, EngineDb.Exact, EngineDb.Modular;
    ghost var d := store.db;
    RemoveResting(store, l, o, k);
    ValidSound(store);
    RemovedBook(d, store.cap, side, m, k);
    RemovedLevel(d, side, m, k);
    ghost var e := store.db;
    if store.LevelCount(l) == 0 {
      ghost var i := DropLevel(store, if side == BUY then BUY else SELL, l);
      ValidSound(store);
      DroppedBook(e, store.cap, side, i);
    } else {
      NoHole(e, store.cap, l);
    }
  }

  // Takes a hashed order off the book, whichever level it rests in.
  method Revoke(store: EngineDb, o: OrderRow) returns (ghost l: LevelRow)
    requires store.Valid() && Kept(store.db, store.cap, null) && o in store.db.orders
    modifies store`db, store.orderPool, store.levelPool, store.index, store.index.buckets, store.bidTree, store.askTree
    modifies store.orderRows, store.levelRows
    ensures store.Valid() && Kept(store.db, store.cap, null) && o in old(store.db.orders)
    ensures SideOf(store.db, BUY) == Drop(old(SideOf(store.db, BUY)), old(store.db.orders[o].id))
    ensures SideOf(store.db, SELL) == Drop(old(SideOf(store.db, SELL)), old(store.db.orders[o].id))
    ensures l in old(store.db.queues) && o in old(store.db.queues)[l]
    ensures l.total == Clamped(old(l.total), old(store.db.orders[o].remaining))
    ensures unchanged((store.levelRows - {l})`total)
    ensures store.db.prices == old(store.db.prices) || store.db.prices == old(store.db.prices) - {l}
    ensures old(store.Exact()) ==> store.Exact()
  {
    hide store.Valid, Kept, Sound, SideOf, Levels, Drop, Db.Queued, Clamped, EngineDb.Exact, EngineDb.Modular;
    KeptQueued(store.db, store.cap, o);
    var owner := store.Owner(o);
    if owner == null { assert false; }
    l := owner;
    ghost var m, k := KeptOwner(store.db, store.cap, o, owner);
    var side := store.Get(o).side;
    Withdraw(store, side, owner, o, m, k);
  }
}
