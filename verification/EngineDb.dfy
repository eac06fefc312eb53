/** The data layer as one store: both pools, the order index, the level queues and
    both price trees over the same rows, with its abstract contents in `db`. */
module EngineDb {
  import opened Lists
  import opened Types
  import opened Rows
  import opened Store
  import opened Tpool
  import opened Thash
  import opened Atree
  import Llist

  function Value(o: OrderRow): Order
    reads o`id, o`account, o`side, o`stp, o`price, o`qty, o`remaining
  {
    Order(o.id, o.account, o.side, o.stp, o.price, o.qty, o.remaining)
  }

  twostate predicate KeptPayload(r: OrderRow)
    reads r
  {
    && r.id == old(r.id) && r.account == old(r.account) && r.side == old(r.side) && r.stp == old(r.stp)
    && r.price == old(r.price) && r.qty == old(r.qty) && r.remaining == old(r.remaining)
  }

  twostate predicate KeptQueue(r: OrderRow)
    reads r
  {
    r.next == old(r.next) && r.prev == old(r.prev) && r.inList == old(r.inList) && r.level == old(r.level)
  }

  // A change that is made modulo 2^64 leaves the sum right modulo 2^64, and exactly if it fits.
  lemma Shifted(stored: u64, sum: nat, a: u64, b: u64)
    requires a <= sum
    ensures stored == sum % TWO64 ==> (stored - a + b) % TWO64 == (sum - a + b) % TWO64
    ensures stored == sum ==> ((stored - a + b) % TWO64 == sum - a + b <==> sum - a + b < TWO64)
  {
  }

  lemma MinusTwice<K, V>(m: map<K, V>, k: K)
    ensures (m - {k}) - {k} == m - {k} && (m - {k}).Keys == m.Keys - {k}
  {
  }

  method NewOrderPool(capacity: u64) returns (p: OrderPool)
    ensures fresh(p) && fresh(p.rows) && p.Valid() && p.used == 0 && |p.rows| == capacity
  {
    p := new OrderPool();
    var k := 0;
    while k < capacity
      invariant 0 <= k <= capacity
      invariant p.Valid() && p.used == 0 && |p.rows| == k && fresh(p) && fresh(p.rows)
    {
      var o := new OrderRow();
      p.Reserve(o);
      k := k + 1;
    }
  }

  method NewLevelPool(capacity: u64) returns (p: LevelPool)
    ensures fresh(p) && fresh(p.rows) && p.Valid() && p.used == 0 && |p.rows| == capacity
  {
    p := new LevelPool();
    var k := 0;
    while k < capacity
      invariant 0 <= k <= capacity
      invariant p.Valid() && p.used == 0 && |p.rows| == k && fresh(p) && fresh(p.rows)
    {
      var l := new LevelRow();
      p.Reserve(l);
      k := k + 1;
    }
  }

  class EngineDb {
    // How many orders and how many levels can be live at once.
    const cap: u64
    const levelCap: u64
    const orderPool: OrderPool
    const levelPool: LevelPool
    const index: HashIndex
    const bidTree: PriceTree
    const askTree: PriceTree
    ghost const orderRows: set<OrderRow>
    ghost const levelRows: set<LevelRow>
    ghost var db: Db

    // Row o carries the payload, and its flags say where it is hashed and queued.
    ghost predicate OrderOk(orders: map<OrderRow, Order>, queues: map<LevelRow, seq<OrderRow>>, hash: set<OrderRow>,
            o: OrderRow)
      requires o in orders
      reads o`id, o`account, o`side, o`stp, o`price, o`qty, o`remaining, o`inHash, o`inList, o`level
    {
      && orders[o] == Value(o)
      && (o.inHash <==> o in hash)
      && (o.inList ==> o.level != null && o.level in queues && o in queues[o.level])
    }

    ghost predicate OrdersOk(orders: map<OrderRow, Order>, queues: map<LevelRow, seq<OrderRow>>, hash: set<OrderRow>)
      requires orders.Keys <= orderRows
      reads orderRows`id, orderRows`account, orderRows`side, orderRows`stp, orderRows`price, orderRows`qty
      reads orderRows`remaining
      reads orderRows`inHash, orderRows`inList, orderRows`level
    {
      forall o {:trigger OrderOk(orders, queues, hash, o)} :: o in orders ==> OrderOk(orders, queues, hash, o)
    }

    // Row l carries the queue q and the price p.
    ghost predicate LevelOk(orders: map<OrderRow, Order>, p: u64, q: seq<OrderRow>, l: LevelRow)
      reads l`price, l`head, l`tail, l`count, q`next, q`prev, q`inList, q`level
    {
      && p == l.price
      && (forall i {:trigger q[i]} :: 0 <= i < |q| ==> q[i] in orders)
      && Llist.QueueOk(l, q)
    }

    ghost predicate LevelsOk(orders: map<OrderRow, Order>, prices: map<LevelRow, u64>,
            queues: map<LevelRow, seq<OrderRow>>)
      requires orders.Keys <= orderRows && prices.Keys <= levelRows
      reads levelRows`price, levelRows`head, levelRows`tail, levelRows`count
      reads orderRows`next, orderRows`prev, orderRows`inList, orderRows`level
    {
      && queues.Keys == prices.Keys
      && (forall l {:trigger queues[l]} :: l in queues ==> forall i {:trigger queues[l][i]} :: 0 <= i < |queues[l]| ==>
          queues[l][i] in orderRows)
      && (forall l {:trigger LevelOk(orders, prices[l], queues[l], l)} :: l in prices ==>
          LevelOk(orders, prices[l], queues[l], l))
    }

    ghost predicate OrderPoolOk(orders: set<OrderRow>)
      reads orderPool`free, orderPool`used, orderPool`rows, orderPool`frees, orderRows`freeNext
    {
      && orders <= orderRows == orderPool.rows && cap <= |orderRows| < TWO64
      && (forall k {:trigger orderPool.frees[k]} :: 0 <= k < |orderPool.frees| ==>
          orderPool.frees[k] in orderRows && orderPool.frees[k] !in orders)
      && orderPool.Valid() && orderPool.used == |orders| <= cap
    }

    ghost predicate LevelPoolOk(levels: set<LevelRow>)
      reads levelPool`free, levelPool`used, levelPool`rows, levelPool`frees, levelRows`freeNext
    {
      && levels <= levelRows == levelPool.rows && levelCap <= |levelRows| < TWO64
      && (forall k {:trigger levelPool.frees[k]} :: 0 <= k < |levelPool.frees| ==>
          levelPool.frees[k] in levelRows && levelPool.frees[k] !in levels)
      && levelPool.Valid() && levelPool.used == |levels| <= levelCap
    }

    ghost predicate PoolsOk(orders: set<OrderRow>, levels: set<LevelRow>)
      reads orderPool`free, orderPool`used, orderPool`rows, orderPool`frees, levelPool`free, levelPool`used
      reads levelPool`rows, levelPool`frees
      reads orderRows`freeNext, levelRows`freeNext
    {
      cap + 1 < TWO32 && levelCap + 1 < TWO32 && OrderPoolOk(orders) && LevelPoolOk(levels)
    }

    ghost predicate TreesOk(levels: set<LevelRow>, bids: seq<LevelRow>, asks: seq<LevelRow>)
      requires levels <= levelRows
      reads bidTree`root, bidTree`n, bidTree`sh, askTree`root, askTree`n, askTree`sh
      reads levelRows`price, levelRows`parent, levelRows`left, levelRows`right, levelRows`inTree
    {
      && bidTree != askTree
      && bidTree.sh.pos.Keys <= levels && askTree.sh.pos.Keys <= levels
      && bidTree.sh.pos.Keys !! askTree.sh.pos.Keys
      && bids == bidTree.sh.asc && asks == askTree.sh.asc
      && bidTree.Valid() && askTree.Valid()
    }

    ghost predicate IndexOk(orders: set<OrderRow>, hash: set<OrderRow>)
      requires orders <= orderRows
      reads index`n, index`chains, index`hashed, index.buckets, orderRows`hashNext, orderRows`inHash, orderRows`id
    {
      && index.hashed == hash <= orders
      && index.Valid()
    }

    ghost predicate Valid()
      reads `db, orderPool, levelPool, index, index.buckets, bidTree, askTree, orderRows, levelRows
    {
      && db.orders.Keys <= orderRows && db.prices.Keys <= levelRows
      && PoolsOk(db.orders.Keys, db.prices.Keys)
      && TreesOk(db.prices.Keys, db.bids, db.asks)
      && IndexOk(db.orders.Keys, db.hash)
      && OrdersOk(db.orders, db.queues, db.hash)
      && LevelsOk(db.orders, db.prices, db.queues)
    }

    // The stored total of l is what its queue comes to: exactly, or modulo 2^64.
    ghost predicate TotalAt(exact: bool, l: LevelRow)
      requires l in db.queues
      reads `db, l`total
    {
      l.total == if exact then db.Total(l) else db.Total(l) % TWO64
    }

    ghost predicate Totals(exact: bool)
      reads `db, levelRows`total
    {
      db.queues.Keys <= levelRows && forall l {:trigger TotalAt(exact, l)} :: l in db.queues ==> TotalAt(exact, l)
    }

    // Every stored total is the true, unbounded one.
    ghost predicate Exact()
      reads `db, levelRows`total
    {
      Totals(true)
    }

    // Every stored total is the true one modulo 2^64.
    ghost predicate Modular()
      reads `db, levelRows`total
    {
      Totals(false)
    }

    lemma ExactModular()
      requires Exact()
      ensures Modular()
    {
      forall l | l in db.queues ensures TotalAt(false, l) { var was := TotalAt(true, l); }
    }

    // What is stored for l stays right.
    twostate predicate SameTotal(l: LevelRow)
      requires l in db.queues
      reads `db, l`total
    {
      || (l.total == 0 && db.queues[l] == [])
      || (l in old(db.queues) && l.total == old(l.total) && db.Total(l) == old(db.Total(l)))
    }

    twostate lemma TotalsSame()
      requires db.queues.Keys <= levelRows
      requires forall l {:trigger SameTotal(l)} :: l in db.queues ==> SameTotal(l)
      ensures (old(Exact()) ==> Exact()) && (old(Modular()) ==> Modular())
    {
      forall e: bool, l | l in db.queues && old(Totals(e)) ensures TotalAt(e, l) {
        var same := SameTotal(l);
        if l in old(db.queues) { var was := old(TotalAt(e, l)); }
      }
    }

    // What one order of the store can rely on.
    lemma OrderParts(o: OrderRow)
      requires Valid() && o in db.orders
      ensures o in orderRows && db.orders[o] == Value(o) && db.orders[o].remaining == o.remaining
      ensures (o.inHash <==> o in db.hash)
      ensures o.inList <==> db.Queued(o)
      ensures o.inList ==> o.level != null && o.level in db.queues && o in db.queues[o.level]
      ensures forall l {:trigger db.queues[l]} :: l in db.queues && o in db.queues[l] ==> o.inList && o.level == l
    {
      var was := OrderOk(db.orders, db.queues, db.hash, o);
      forall l | l in db.queues && o in db.queues[l] ensures o.inList && o.level == l {
        var ok := LevelOk(db.orders, db.prices[l], db.queues[l], l);
        var i :| 0 <= i < |db.queues[l]| && db.queues[l][i] == o;
        assert Llist.Linked(l, db.queues[l], i);
      }
    }

    // What one level of the store can rely on.
    lemma LevelParts(l: LevelRow)
      requires Valid() && l in db.prices
      ensures l in levelRows && l in db.queues && Llist.QueueOk(l, db.queues[l]) && Distinct(db.queues[l])
      ensures db.prices[l] == l.price
      ensures forall i {:trigger db.queues[l][i]} :: 0 <= i < |db.queues[l]| ==>
          db.queues[l][i] in orderRows && db.queues[l][i] in db.orders
      ensures |db.queues[l]| <= |db.orders| <= cap && cap + 1 < TWO32
    {
      var was := LevelOk(db.orders, db.prices[l], db.queues[l], l);
      DistinctBelow(db.queues[l], db.orders.Keys);
      assert |db.orders.Keys| == |db.orders|;
    }

    lemma Parts()
      requires Valid()
      ensures db.orders.Keys <= orderRows && db.prices.Keys <= levelRows && db.queues.Keys == db.prices.Keys
      ensures db.hash <= db.orders.Keys
      ensures PoolsOk(db.orders.Keys, db.prices.Keys) && TreesOk(db.prices.Keys, db.bids, db.asks)
      ensures IndexOk(db.orders.Keys, db.hash)
      ensures OrdersOk(db.orders, db.queues, db.hash) && LevelsOk(db.orders, db.prices, db.queues)
      ensures |db.orders| <= cap && |db.prices| <= levelCap && cap + 1 < TWO32 && levelCap + 1 < TWO32
    {
      assert |db.orders.Keys| == |db.orders|;
      assert |db.prices.Keys| == |db.prices|;
    }

    twostate lemma PoolsSame(new orders: set<OrderRow>, new levels: set<LevelRow>)
      requires old(allocated((orders, levels))) && old(PoolsOk(orders, levels))
      requires unchanged(orderPool, levelPool, orderRows`freeNext, levelRows`freeNext)
      ensures PoolsOk(orders, levels)
    {
    }

    twostate lemma OrderPoolSame(new orders: set<OrderRow>)
      requires old(allocated(orders)) && old(OrderPoolOk(orders))
      requires unchanged(orderPool, orderRows`freeNext)
      ensures OrderPoolOk(orders)
    {
    }

    twostate lemma LevelPoolSame(new levels: set<LevelRow>)
      requires old(allocated(levels)) && old(LevelPoolOk(levels))
      requires unchanged(levelPool, levelRows`freeNext)
      ensures LevelPoolOk(levels)
    {
    }

    twostate lemma TreesSame(new levels: set<LevelRow>, new bids: seq<LevelRow>, new asks: seq<LevelRow>)
      requires levels <= levelRows && old(allocated((bids, asks))) && old(TreesOk(levels, bids, asks))
      requires unchanged(bidTree, askTree, levelRows`price, levelRows`parent, levelRows`left, levelRows`right,
          levelRows`inTree)
      ensures TreesOk(levels, bids, asks)
    {
    }

    twostate lemma IndexSame(new orders: set<OrderRow>, new hash: set<OrderRow>)
      requires orders <= orderRows && old(allocated(hash)) && old(IndexOk(orders, hash))
      requires unchanged(index, index.buckets, orderRows`hashNext, orderRows`inHash, orderRows`id)
      ensures IndexOk(orders, hash)
    {
    }

    twostate lemma LevelsSame(new orders: map<OrderRow, Order>, new prices: map<LevelRow, u64>,
            new queues: map<LevelRow, seq<OrderRow>>)
      requires orders.Keys <= orderRows && prices.Keys <= levelRows
      requires old(allocated((orders, prices, queues))) && old(LevelsOk(orders, prices, queues))
      requires unchanged(levelRows`price, levelRows`head, levelRows`tail, levelRows`count)
      requires unchanged(orderRows`next, orderRows`prev, orderRows`inList, orderRows`level)
      ensures LevelsOk(orders, prices, queues)
    {
    }

    // A store over pools of `capacity` order rows and `levels` level rows, all of them free.
    constructor (capacity: u64, levels: u64, size: nat)
      requires capacity + 1 < TWO32 && levels + 1 < TWO32 && size > 0
      ensures Valid() && Exact()
      ensures fresh(orderPool) && fresh(levelPool) && fresh(index) && fresh(index.buckets) && fresh(bidTree)
      ensures fresh(askTree)
      ensures fresh(orderRows) && fresh(levelRows)
      ensures cap == capacity && levelCap == levels && db == Db(map[], map[], map[], [], [], {})
    {
      hide Valid, OrderPool.Valid, LevelPool.Valid, HashIndex.Valid, PriceTree.Valid;
      var op := NewOrderPool(capacity);
      var lp := NewLevelPool(levels);
      var ix := new HashIndex(size);
      var b := new PriceTree();
      var a := new PriceTree();
      cap, levelCap, orderPool, levelPool, index, bidTree, askTree := capacity, levels, op, lp, ix, b, a;
      orderRows, levelRows := op.rows, lp.rows;
      db := Db(map[], map[], map[], [], [], {});
      new;
      EmptyValid();
    }

    // A store whose rows are all free.
    lemma EmptyValid()
      requires db == Db(map[], map[], map[], [], [], {}) && cap + 1 < TWO32 && levelCap + 1 < TWO32
      requires orderPool.Valid() && orderPool.used == 0 && orderRows == orderPool.rows && |orderRows| == cap
      requires levelPool.Valid() && levelPool.used == 0 && levelRows == levelPool.rows && |levelRows| == levelCap
      requires index.Valid() && index.hashed == {}
      requires bidTree != askTree && bidTree.Valid() && bidTree.sh.asc == [] && askTree.Valid() && askTree.sh.asc == []
      ensures Valid()
    {
    }

    method OrderCount() returns (n: u64)
      requires Valid()
      ensures n == |db.orders|
    {
      n := orderPool.used;
    }

    method HashFind(id: u64) returns (o: OrderRow?)
      requires Valid()
      ensures o == null ==> forall r {:trigger r in db.hash} :: r in db.hash ==> db.orders[r].id != id
      ensures o != null ==> o in db.hash && o in db.orders && db.orders[o].id == id
    {
      o := index.Find(id);
      forall r | r in db.hash ensures o == null ==> db.orders[r].id != id { OrderParts(r); }
      if o != null { OrderParts(o); }
    }

    lemma HashParts(o: OrderRow)
      requires Valid() && (o in db.orders || o in db.hash)
      ensures o in db.orders && o in orderRows && index.hashed == db.hash && index.Valid() && |index.hashed| + 1 < TWO32
      ensures o.inHash <==> o in db.hash
      ensures forall r {:trigger r in db.hash} :: r in db.hash ==>
          r in db.orders && r in orderRows && db.orders[r].id == r.id
      ensures db.orders[o].id == o.id
    {
      SubsetSize(db.hash, db.orders.Keys);
      Parts();
      forall r | r in db.hash ensures db.orders[r].id == r.id { OrderParts(r); }
      OrderParts(o);
    }

    // Only the index has changed, and only in whether it holds o.
    twostate predicate HashEffect(o: OrderRow)
      reads `db, index`hashed, orderRows
    {
      && o in orderRows && o in old(db.orders)
      && db == old(db).(hash := index.hashed)
      && index.hashed <= db.orders.Keys && index.hashed - {o} == old(index.hashed) - {o}
          && (o.inHash <==> o in index.hashed)
      && (forall r {:trigger KeptPayload(r)} :: r in orderRows ==>
            KeptPayload(r) && KeptQueue(r) && r.freeNext == old(r.freeNext) && (r != o ==> r.inHash == old(r.inHash)))
    }

    twostate lemma HashRest(new o: OrderRow)
      requires old(allocated(o)) && old(Valid()) && HashEffect(o)
      requires unchanged(orderPool, levelPool, bidTree, askTree, levelRows)
      ensures PoolsOk(db.orders.Keys, db.prices.Keys) && TreesOk(db.prices.Keys, db.bids, db.asks)
      ensures LevelsOk(db.orders, db.prices, db.queues)
    {
      forall r | r in orderRows ensures KeptQueue(r) && r.freeNext == old(r.freeNext) { var k := KeptPayload(r); }
      PoolsSame(db.orders.Keys, db.prices.Keys);
      TreesSame(db.prices.Keys, db.bids, db.asks);
      LevelsSame(db.orders, db.prices, db.queues);
    }

    twostate lemma HashOrders(new o: OrderRow)
      requires old(allocated(o)) && old(Valid()) && HashEffect(o)
      ensures OrdersOk(db.orders, db.queues, db.hash)
    {
      hide PoolsOk, TreesOk, LevelsOk, HashIndex.Valid;
      forall r | r in db.orders ensures OrderOk(db.orders, db.queues, db.hash, r) {
        var was := old(OrderOk(db.orders, db.queues, db.hash, r));
        var k := KeptPayload(r);
        assert r in index.hashed - {o} <==> r in old(index.hashed) - {o};
      }
    }

    twostate lemma HashDone(new o: OrderRow)
      requires old(allocated(o)) && old(Valid()) && HashEffect(o) && index.Valid()
      requires unchanged(orderPool, levelPool, bidTree, askTree, levelRows)
      ensures Valid()
      ensures (old(Exact()) <==> Exact()) && (old(Modular()) <==> Modular())
    {
      hide PoolsOk, TreesOk, LevelsOk, OrdersOk, HashIndex.Valid;
      HashRest(o);
      HashOrders(o);
      TotalsStay();
    }

    twostate lemma TotalsStay()
      requires db.queues == old(db.queues) && db.orders == old(db.orders) && unchanged(levelRows`total)
      ensures (old(Exact()) <==> Exact()) && (old(Modular()) <==> Modular())
    {
      forall e: bool, l | l in db.queues && l in levelRows ensures old(TotalAt(e, l)) <==> TotalAt(e, l) {}
    }

    // Nothing but hash links has been written, and no flag but that of o.
    twostate lemma HashOnly(new o: OrderRow)
      requires o in orderRows && old(allocated(o)) && o in old(db.orders) && db == old(db).(hash := index.hashed)
      requires index.hashed <= db.orders.Keys && index.hashed - {o} == old(index.hashed) - {o}
      requires (o.inHash <==> o in index.hashed)
      requires unchanged(orderRows`id, orderRows`account, orderRows`side, orderRows`stp, orderRows`price, orderRows`qty,
          orderRows`remaining)
      requires unchanged(orderRows`next, orderRows`prev, orderRows`inList, orderRows`level, orderRows`freeNext,
          (orderRows - {o})`inHash)
      ensures HashEffect(o)
    {
      forall r | r in orderRows
        ensures KeptPayload(r) && KeptQueue(r) && r.freeNext == old(r.freeNext)
        ensures (r != o ==> r.inHash == old(r.inHash))
      {
      }
    }

    method IndexInsert(o: OrderRow) returns (ok: bool)
      requires index.Valid() && (o.inHash <==> o in index.hashed) && o in orderRows && o in db.orders
      requires |index.hashed| + 1 < TWO32
      requires index.hashed <= db.orders.Keys
      modifies `db, index`n, index`chains, index`hashed, index.buckets, o`hashNext, o`inHash
      ensures index.Valid() && HashEffect(o)
      ensures ok <==> forall r {:trigger r in old(index.hashed)} :: r in old(index.hashed) ==> r.id != o.id
      ensures index.hashed == if ok then old(index.hashed) + {o} else old(index.hashed)
    {
      hide HashIndex.Valid, HashEffect;
      ok := index.InsertMaybe(o);
      db := db.(hash := index.hashed);
      HashOnly(o);
    }

    method HashInsert(o: OrderRow) returns (ok: bool)
      requires Valid() && o in db.orders && o !in db.hash
      modifies `db, index`n, index`chains, index`hashed, index.buckets, orderRows`hashNext, orderRows`inHash
      ensures Valid()
      ensures ok <==>
          forall r {:trigger r in old(db.hash)} :: r in old(db.hash) ==> old(db.orders[r].id) != old(db.orders[o].id)
      ensures db == old(db).(hash := if ok then old(db.hash) + {o} else old(db.hash))
      ensures (old(Exact()) <==> Exact()) && (old(Modular()) <==> Modular())
    {
      hide Valid, HashIndex.Valid, Value, Exact, Modular;
      HashParts(o);
      ok := IndexInsert(o);
      HashDone(o);
    }

    method IndexRemove(o: OrderRow)
      requires index.Valid() && (o.inHash <==> o in index.hashed) && o in orderRows && o in db.orders
      requires index.hashed <= db.orders.Keys && index.hashed <= orderRows
      modifies `db, index`n, index`chains, index`hashed, index.buckets, orderRows`hashNext, o`inHash
      ensures index.Valid() && index.hashed == old(index.hashed) - {o} && !o.inHash
      ensures db == old(db).(hash := index.hashed)
    {
      hide HashIndex.Valid;
      db := db.(hash := index.hashed - {o});
      index.Remove(o);
    }

    method HashRemove(o: OrderRow)
      requires Valid() && o in db.hash
      modifies `db, index`n, index`chains, index`hashed, index.buckets, orderRows`hashNext, orderRows`inHash
      ensures Valid()
      ensures db == old(db).(hash := old(db.hash) - {o})
      ensures (old(Exact()) ==> Exact()) && (old(Modular()) ==> Modular())
    {
      hide Valid, HashIndex.Valid, Value, Exact, Modular, HashEffect;
      HashParts(o);
      IndexRemove(o);
      HashOnly(o);
      HashDone(o);
    }

    // ---- queues ----

    // Only the queue of l has changed, to q, and only in whether it holds o.
    twostate predicate QueueEffect(l: LevelRow, o: OrderRow, q: seq<OrderRow>)
      reads `db, orderRows, levelRows
    {
      && o in orderRows && l in old(db.prices) && o in old(db.orders) && l in old(db.queues)
      && db == old(db).(queues := old(db.queues)[l := q])
      && (forall i {:trigger q[i]} :: 0 <= i < |q| ==> q[i] == o || q[i] in old(db.queues[l]))
      && (forall r {:trigger r in q} :: r in old(db.queues[l]) && r != o ==> r in q)
      && (o.inList ==> o.level == l && o in q)
      && (old(o.inList) ==> old(o.level) == l)
      && (forall r {:trigger KeptPayload(r)} :: r in orderRows ==>
            && KeptPayload(r) && r.freeNext == old(r.freeNext)
            && r.hashNext == old(r.hashNext) && r.inHash == old(r.inHash)
            && (r != o ==>
                r.inList == old(r.inList) && r.level == old(r.level) && (r in old(db.queues[l]) || KeptQueue(r))))
      && unchanged(levelRows`price, levelRows`parent, levelRows`left, levelRows`right, levelRows`inTree,
          levelRows`freeNext)
      && unchanged((levelRows - {l})`head, (levelRows - {l})`tail, (levelRows - {l})`count, (levelRows - {l})`total)
    }

    twostate lemma OtherQueue(new l: LevelRow, new o: OrderRow, new q: seq<OrderRow>, new m: LevelRow)
      requires old(allocated((l, o, q))) && old(Valid()) && QueueEffect(l, o, q) && m in db.prices && m != l
      ensures LevelOk(db.orders, db.prices[m], db.queues[m], m)
    {
      hide PoolsOk, TreesOk, IndexOk;
      var p, r := old(db.queues[l]), old(db.queues[m]);
      var was := old(LevelOk(db.orders, db.prices[m], db.queues[m], m));
      var wasl := old(LevelOk(db.orders, db.prices[l], db.queues[l], l));
      forall i | 0 <= i < |r| ensures r[i] != o && r[i] !in p {
        var linked := old(Llist.Linked(m, r, i));
        forall j | 0 <= j < |p| ensures p[j] != r[i] { var linked := old(Llist.Linked(l, p, j)); }
      }
      forall i | 0 <= i < |r| ensures KeptQueue(r[i]) { var k := KeptPayload(r[i]); }
    }

    twostate lemma QueueOrders(new l: LevelRow, new o: OrderRow, new q: seq<OrderRow>)
      requires old(allocated((l, o, q))) && old(Valid()) && QueueEffect(l, o, q)
      ensures OrdersOk(db.orders, db.queues, db.hash)
    {
      hide PoolsOk, TreesOk, IndexOk;
      forall r | r in db.orders ensures OrderOk(db.orders, db.queues, db.hash, r) {
        var was := old(OrderOk(db.orders, db.queues, db.hash, r));
        var k := KeptPayload(r);
      }
    }

    twostate lemma QueueRest(new l: LevelRow, new o: OrderRow, new q: seq<OrderRow>)
      requires old(allocated((l, o, q))) && old(Valid()) && QueueEffect(l, o, q)
      requires unchanged(orderPool, levelPool, bidTree, askTree, index, index.buckets)
      ensures PoolsOk(db.orders.Keys, db.prices.Keys) && TreesOk(db.prices.Keys, db.bids, db.asks)
      ensures IndexOk(db.orders.Keys, db.hash)
    {
      forall r | r in orderRows
          ensures r.freeNext == old(r.freeNext) && r.hashNext == old(r.hashNext) && r.inHash == old(r.inHash)
          && r.id == old(r.id) {
        var k := KeptPayload(r);
      }
      PoolsSame(db.orders.Keys, db.prices.Keys);
      TreesSame(db.prices.Keys, db.bids, db.asks);
      IndexSame(db.orders.Keys, db.hash);
    }

    twostate lemma QueueLevels(new l: LevelRow, new o: OrderRow, new q: seq<OrderRow>)
      requires old(allocated((l, o, q))) && old(Valid()) && QueueEffect(l, o, q)
      requires Llist.QueueOk(l, q)
      ensures LevelsOk(db.orders, db.prices, db.queues)
    {
      hide PoolsOk, TreesOk, IndexOk, OrdersOk, Llist.QueueOk;
      var was := old(LevelOk(db.orders, db.prices[l], db.queues[l], l));
      forall m | m in db.prices ensures LevelOk(db.orders, db.prices[m], db.queues[m], m) {
        if m != l { OtherQueue(l, o, q, m); }
      }
    }

    twostate lemma QueueDone(new l: LevelRow, new o: OrderRow, new q: seq<OrderRow>)
      requires old(allocated((l, o, q))) && old(Valid()) && QueueEffect(l, o, q)
      requires Llist.QueueOk(l, q)
      requires unchanged(orderPool, levelPool, bidTree, askTree, index, index.buckets)
      ensures Valid()
    {
      hide PoolsOk, TreesOk, IndexOk, OrdersOk, LevelsOk, Llist.QueueOk;
      QueueRest(l, o, q);
      QueueOrders(l, o, q);
      QueueLevels(l, o, q);
    }

    // The other levels keep their totals, so only l decides.
    twostate lemma QueueTotals(new l: LevelRow, new o: OrderRow, new q: seq<OrderRow>, e: bool)
      requires old(allocated((l, o, q))) && old(Valid()) && QueueEffect(l, o, q) && old(Totals(e))
      requires db.prices.Keys <= levelRows
      ensures l in db.queues && (Totals(e) <==> TotalAt(e, l))
    {
      hide PoolsOk, TreesOk, IndexOk, OrdersOk;
      forall m | m in db.queues && m != l ensures TotalAt(e, m) { var was := old(TotalAt(e, m)); }
    }

    // The list operation itself, on a store that only has to be sound around l and o.
    method Unlink(l: LevelRow, o: OrderRow, ghost p: seq<OrderRow>, ghost k: nat)
      requires l in db.prices && l in levelRows && l in db.queues && p == db.queues[l] && o in orderRows
      requires o in db.orders
      requires k < |p| && p[k] == o && Llist.QueueOk(l, p)
      requires forall i {:trigger p[i]} :: 0 <= i < |p| ==> p[i] in orderRows
      requires Distinct(p) && o.inList && o.level == l
      modifies `db, l`head, l`tail, l`count, l`total, p`next, p`prev, o`level, o`inList
      ensures QueueEffect(l, o, Without(p, k)) && Llist.QueueOk(l, Without(p, k))
      ensures l.total == if old(l.total) >= o.remaining then old(l.total) - o.remaining else 0
    {
      hide Llist.QueueOk, Value, Sum;
      db := db.(queues := db.queues[l := Without(p, k)]);
      Llist.Remove(l, o, p, k);
      TotalRemoved(db.orders, p, k);
      forall r | r in orderRows
        ensures KeptPayload(r) && r.freeNext == old(r.freeNext) && r.hashNext == old(r.hashNext)
        ensures r.inHash == old(r.inHash)
        ensures r != o ==> r.inList == old(r.inList) && r.level == old(r.level) && (r in p || KeptQueue(r))
      {
      }
    }

    method Link(l: LevelRow, o: OrderRow, ghost p: seq<OrderRow>)
      requires l in db.prices && l in levelRows && l in db.queues && p == db.queues[l] && o in orderRows
      requires o in db.orders
      requires Llist.QueueOk(l, p) && |p| + 1 < TWO32 && forall i {:trigger p[i]} :: 0 <= i < |p| ==> p[i] in orderRows
      requires !o.inList
      modifies `db, l`head, l`tail, l`count, l`total, p`next, o`next, o`prev, o`level, o`inList
      ensures QueueEffect(l, o, p + [o]) && Llist.QueueOk(l, p + [o])
      ensures l.total == (old(l.total) + o.remaining) % TWO64
    {
      hide Llist.QueueOk, Value, Sum;
      db := db.(queues := db.queues[l := p + [o]]);
      Llist.InsertTail(l, o, p);
      forall r | r in orderRows
        ensures KeptPayload(r) && r.freeNext == old(r.freeNext) && r.hashNext == old(r.hashNext)
        ensures r.inHash == old(r.inHash)
        ensures r != o ==> r.inList == old(r.inList) && r.level == old(r.level) && (r in p || KeptQueue(r))
      {
      }
    }

    method QueueInsertTail(l: LevelRow, o: OrderRow)
      requires Valid() && l in db.prices && o in db.orders && !db.Queued(o) && l in db.queues
      modifies `db, levelRows`head, levelRows`tail, levelRows`count, levelRows`total
      modifies orderRows`next, orderRows`prev, orderRows`level, orderRows`inList
      ensures Valid()
      ensures db == old(db).(queues := old(db.queues)[l := old(db.queues[l]) + [o]])
      ensures l.total == (old(l.total) + old(db.orders[o].remaining)) % TWO64
      ensures old(Modular()) ==> Modular()
      ensures old(Exact()) ==> (Exact() <==> old(db.Total(l)) + old(db.orders[o].remaining) < TWO64)
    {
      hide Valid, Llist.QueueOk, Value, Sum, Totals;
      ghost var p := db.queues[l];
      LevelParts(l);
      OrderParts(o);
      TotalAppended(db.orders, p, o);
      Link(l, o, p);
      QueueDone(l, o, p + [o]);
      Appended(l, o, p);
    }

    twostate lemma Appended(new l: LevelRow, new o: OrderRow, new p: seq<OrderRow>)
      requires old(allocated((l, o, p))) && old(Valid()) && Valid() && QueueEffect(l, o, p + [o])
      requires p == old(db.queues[l])
      requires l.total == (old(l.total) + old(db.orders[o].remaining)) % TWO64
      ensures old(Modular()) ==> Modular()
      ensures old(Exact()) ==> (Exact() <==> old(db.Total(l)) + old(db.orders[o].remaining) < TWO64)
    {
      hide Valid, Sum, Totals;
      TotalAppended(db.orders, p, o);
      assert db.prices.Keys <= levelRows by { Parts(); }
      if old(Modular()) {
        QueueTotals(l, o, p + [o], false);
        TotalOf(false, l);
      }
      if old(Exact()) {
        QueueTotals(l, o, p + [o], true);
        TotalOf(true, l);
      }
    }

    twostate lemma TotalOf(e: bool, new l: LevelRow)
      requires old(allocated(l)) && old(Totals(e)) && l in old(db.queues)
      ensures old(TotalAt(e, l))
    {
    }

    method QueueRemove(l: LevelRow, o: OrderRow, ghost k: nat)
      requires Valid() && l in db.prices && l in db.queues && k < |db.queues[l]| && db.queues[l][k] == o
      modifies `db, levelRows`head, levelRows`tail, levelRows`count, levelRows`total
      modifies orderRows`next, orderRows`prev, orderRows`level, orderRows`inList
      ensures Valid() && o in old(db.orders)
      ensures db == old(db).(queues := old(db.queues)[l := Without(old(db.queues[l]), k)])
      ensures var q := old(db.orders[o].remaining); l.total == if old(l.total) >= q then old(l.total) - q else 0
      ensures unchanged((levelRows - {l})`total)
      ensures old(Exact()) ==> Exact() && l.total == old(l.total) - old(db.orders[o].remaining)
      ensures old(Modular()) && old(l.total) >= old(db.orders[o].remaining) ==> Modular()
    {
      hide Valid, Llist.QueueOk, Value, Sum, Totals;
      ghost var p := db.queues[l];
      LevelParts(l);
      OrderParts(o);
      TotalRemoved(db.orders, p, k);
      Unlink(l, o, p, k);
      QueueDone(l, o, Without(p, k));
      Removed(l, o, p, k);
    }

    twostate lemma Removed(new l: LevelRow, new o: OrderRow, new p: seq<OrderRow>, k: nat)
      requires old(allocated((l, o, p))) && old(Valid()) && Valid() && k < |p| && p[k] == o && Distinct(p)
      requires QueueEffect(l, o, Without(p, k)) && p == old(db.queues[l])
      requires var q := old(db.orders[o].remaining); l.total == if old(l.total) >= q then old(l.total) - q else 0
      ensures old(Exact()) ==> Exact() && l.total == old(l.total) - old(db.orders[o].remaining)
      ensures old(Modular()) && old(l.total) >= old(db.orders[o].remaining) ==> Modular()
    {
      hide Valid, Sum, Totals;
      TotalRemoved(db.orders, p, k);
      assert db.prices.Keys <= levelRows by { Parts(); }
      if old(Modular()) {
        QueueTotals(l, o, Without(p, k), false);
        TotalOf(false, l);
      }
      if old(Exact()) {
        QueueTotals(l, o, Without(p, k), true);
        TotalOf(true, l);
      }
    }

    // ---- reads ----

    function Get(o: OrderRow): (v: Order)
      requires Valid() && o in db.orders
      reads `db, orderPool, levelPool, index, index.buckets, bidTree, askTree, orderRows, levelRows
      ensures v == db.orders[o]
    {
      OrderParts(o);
      Value(o)
    }

    function LevelPrice(l: LevelRow): (p: u64)
      requires Valid() && l in db.prices
      reads `db, orderPool, levelPool, index, index.buckets, bidTree, askTree, orderRows, levelRows
      ensures p == db.prices[l]
    {
      LevelParts(l);
      l.price
    }

    function LevelCount(l: LevelRow): (n: u64)
      requires Valid() && l in db.prices
      reads `db, orderPool, levelPool, index, index.buckets, bidTree, askTree, orderRows, levelRows
      ensures l in db.queues && n == |db.queues[l]|
    {
      LevelParts(l);
      l.count
    }

    function QueueFirst(l: LevelRow): (o: OrderRow?)
      requires Valid() && l in db.prices
      reads `db, orderPool, levelPool, index, index.buckets, bidTree, askTree, orderRows, levelRows
      ensures l in db.queues && o == RowAt(db.queues[l], 0)
    {
      LevelParts(l);
      l.head
    }

    function QueueNext(o: OrderRow, ghost l: LevelRow, ghost k: nat): (r: OrderRow?)
      requires Valid() && l in db.prices && l in db.queues && k < |db.queues[l]| && db.queues[l][k] == o
      reads `db, orderPool, levelPool, index, index.buckets, bidTree, askTree, orderRows, levelRows
      ensures r == RowAt(db.queues[l], k + 1)
    {
      LevelParts(l);
      assert Llist.Linked(l, db.queues[l], k);
      o.next
    }

    method Owner(o: OrderRow) returns (l: LevelRow?)
      requires Valid() && o in db.orders
      ensures l == null <==> !db.Queued(o)
      ensures l != null ==> l in db.queues && l in db.prices && o in db.queues[l]
    {
      OrderParts(o);
      l := if o.inList then o.level else null;
    }

    // ---- price trees ----

    function TreeOf(t: u64): PriceTree {
      if t == BUY then bidTree else askTree
    }

    lemma TreeParts(t: u64)
      requires Valid()
      ensures TreeOf(t).Valid() && TreeOf(t).sh.asc == db.Tree(t)
      ensures forall x {:trigger x in TreeOf(t).sh.pos} :: x in TreeOf(t).sh.pos <==> x in db.Tree(t)
      ensures forall x {:trigger x in db.Tree(t)} :: x in db.Tree(t) ==> x in db.prices && db.prices[x] == x.price
    {
      var sh := TreeOf(t).sh;
      forall x | x in sh.pos ensures x in sh.asc { assert sh.Placed(x); }
      forall x | x in db.Tree(t) ensures x in db.prices && db.prices[x] == x.price {
        assert x in sh.pos;
        LevelParts(x);
      }
    }

    // The level of tree t at a price, or null.
    method TreeFind(t: u64, price: u64) returns (l: LevelRow?)
      requires Valid()
      ensures l == null ==> forall x {:trigger x in db.Tree(t)} :: x in db.Tree(t) ==>
          x in db.prices && db.prices[x] != price
      ensures l != null ==> l in db.Tree(t) && l in db.prices && db.prices[l] == price
    {
      hide Valid, PriceTree.Valid;
      TreeParts(t);
      l := TreeOf(t).Find(price);
      forall x | x in db.Tree(t) ensures x in db.prices && (l == null ==> db.prices[x] != price) {
        assert x in TreeOf(t).sh.pos;
      }
      assert l != null ==> l in db.Tree(t);
    }

    // The highest bid or the lowest ask.
    method TreeBest(t: u64) returns (l: LevelRow?)
      requires Valid()
      ensures l == null <==> db.Tree(t) == []
      ensures l != null ==> l in db.prices && l == db.Best(t)
    {
      hide Valid, PriceTree.Valid;
      TreeParts(t);
      if t == BUY {
        l := bidTree.Last();
      } else {
        l := askTree.First();
      }
      assert l != null ==> l in db.Tree(t);
    }

    // The levels of each tree are distinct and in strictly ascending price order.
    lemma TreeAscending(t: u64)
      requires Valid()
      ensures forall x {:trigger x in db.Tree(t)} :: x in db.Tree(t) ==> x in db.prices
      ensures forall i, j :: 0 <= i < j < |db.Tree(t)| ==> db.prices[db.Tree(t)[i]] < db.prices[db.Tree(t)[j]]
    {
      TreeParts(t);
      var sh := TreeOf(t).sh;
      forall i, j | 0 <= i < j < |db.Tree(t)| ensures db.prices[db.Tree(t)[i]] < db.prices[db.Tree(t)[j]] {
        assert sh.asc[i] in sh.pos && sh.asc[j] in sh.pos;
        assert Ordered(sh, sh.asc[i], sh.asc[j]);
      }
    }

    lemma TreesDisjoint(l: LevelRow)
      requires Valid()
      ensures !(l in db.bids && l in db.asks)
    {
      TreeParts(BUY);
      TreeParts(SELL);
      if l in db.bids {
        assert l in db.Tree(BUY) && l in bidTree.sh.pos && l !in askTree.sh.pos;
        assert l in db.Tree(SELL) <==> l in askTree.sh.pos;
      }
    }

    lemma TreeSize(t: u64)
      requires Valid()
      ensures |TreeOf(t).sh.asc| <= |db.prices| <= levelCap && levelCap + 1 < TWO32
    {
      TreeParts(t);
      Parts();
      var sh := TreeOf(t).sh;
      forall i, j | 0 <= i < j < |sh.asc| ensures sh.asc[i] != sh.asc[j] {
        assert sh.asc[i] in sh.pos && sh.asc[j] in sh.pos;
      }
      forall k | 0 <= k < |sh.asc| ensures sh.asc[k] in db.prices.Keys { assert sh.asc[k] in db.Tree(t); }
      DistinctBelow(sh.asc, db.prices.Keys);
      assert |db.prices.Keys| == |db.prices|;
    }

    // Only the trees have changed.
    twostate predicate TreeEffect()
      reads `db, orderRows, levelRows
    {
      && db == old(db).(bids := db.bids, asks := db.asks)
      && unchanged(orderRows, levelRows`price, levelRows`head, levelRows`tail, levelRows`count, levelRows`total,
          levelRows`freeNext)
    }

    twostate lemma TreesDone()
      requires old(Valid()) && TreeEffect() && TreesOk(db.prices.Keys, db.bids, db.asks)
      requires unchanged(orderPool, levelPool, index, index.buckets)
      ensures Valid()
      ensures (old(Exact()) ==> Exact()) && (old(Modular()) ==> Modular())
    {
      TotalsStay();
      PoolsSame(db.orders.Keys, db.prices.Keys);
      IndexSame(db.orders.Keys, db.hash);
      LevelsSame(db.orders, db.prices, db.queues);
      hide PoolsOk, TreesOk, IndexOk, LevelsOk;
      forall r | r in db.orders ensures OrderOk(db.orders, db.queues, db.hash, r) {
        var was := old(OrderOk(db.orders, db.queues, db.hash, r));
      }
    }

    method BidsInsert(l: LevelRow) returns (ghost i: int)
      requires db.prices.Keys <= levelRows && TreesOk(db.prices.Keys, db.bids, db.asks)
      requires l in db.prices && l !in bidTree.sh.pos && l !in askTree.sh.pos && |bidTree.sh.asc| + 1 < TWO32
      requires forall x {:trigger x in bidTree.sh.pos} :: x in bidTree.sh.pos ==> x.price != l.price
      modifies `db, bidTree`root, bidTree`n, bidTree`sh, levelRows`parent, levelRows`left, levelRows`right
      modifies levelRows`inTree
      ensures TreeEffect() && db.prices.Keys <= levelRows && TreesOk(db.prices.Keys, db.bids, db.asks)
      ensures 0 <= i <= |old(db.bids)| && db == old(db).(bids := old(db.bids)[..i] + [l] + old(db.bids)[i..])
    {
      hide PriceTree.Valid;
      i := bidTree.Insert(l);
      db := db.(bids := bidTree.sh.asc);
      assert askTree.Valid();
    }

    method AsksInsert(l: LevelRow) returns (ghost i: int)
      requires db.prices.Keys <= levelRows && TreesOk(db.prices.Keys, db.bids, db.asks)
      requires l in db.prices && l !in bidTree.sh.pos && l !in askTree.sh.pos && |askTree.sh.asc| + 1 < TWO32
      requires forall x {:trigger x in askTree.sh.pos} :: x in askTree.sh.pos ==> x.price != l.price
      modifies `db, askTree`root, askTree`n, askTree`sh, levelRows`parent, levelRows`left, levelRows`right
      modifies levelRows`inTree
      ensures TreeEffect() && db.prices.Keys <= levelRows && TreesOk(db.prices.Keys, db.bids, db.asks)
      ensures 0 <= i <= |old(db.asks)| && db == old(db).(asks := old(db.asks)[..i] + [l] + old(db.asks)[i..])
    {
      hide PriceTree.Valid;
      i := askTree.Insert(l);
      db := db.(asks := askTree.sh.asc);
      assert bidTree.Valid();
    }

    method BidsRemove(l: LevelRow) returns (ghost k: int)
      requires db.prices.Keys <= levelRows && TreesOk(db.prices.Keys, db.bids, db.asks) && l in bidTree.sh.pos
      modifies `db, bidTree`root, bidTree`n, bidTree`sh, levelRows`parent, levelRows`left, levelRows`right
      modifies levelRows`inTree
      ensures TreeEffect() && db.prices.Keys <= levelRows && TreesOk(db.prices.Keys, db.bids, db.asks)
      ensures 0 <= k < |old(db.bids)| && old(db.bids)[k] == l && db == old(db).(bids := Without(old(db.bids), k))
    {
      hide PriceTree.Valid;
      bidTree.InTree(l);
      k := bidTree.Remove(l);
      db := db.(bids := bidTree.sh.asc);
      assert askTree.Valid();
    }

    method AsksRemove(l: LevelRow) returns (ghost k: int)
      requires db.prices.Keys <= levelRows && TreesOk(db.prices.Keys, db.bids, db.asks) && l in askTree.sh.pos
      modifies `db, askTree`root, askTree`n, askTree`sh, levelRows`parent, levelRows`left, levelRows`right
      modifies levelRows`inTree
      ensures TreeEffect() && db.prices.Keys <= levelRows && TreesOk(db.prices.Keys, db.bids, db.asks)
      ensures 0 <= k < |old(db.asks)| && old(db.asks)[k] == l && db == old(db).(asks := Without(old(db.asks), k))
    {
      hide PriceTree.Valid;
      askTree.InTree(l);
      k := askTree.Remove(l);
      db := db.(asks := askTree.sh.asc);
      assert bidTree.Valid();
    }

    method TreeInsert(t: u64, l: LevelRow) returns (ghost i: int)
      requires Valid() && l in db.prices && l !in db.bids && l !in db.asks
      requires forall x {:trigger x in db.Tree(t)} :: x in db.Tree(t) ==> x in db.prices && db.prices[x] != db.prices[l]
      modifies `db, bidTree`root, bidTree`n, bidTree`sh, askTree`root, askTree`n, askTree`sh
      modifies levelRows`parent, levelRows`left, levelRows`right, levelRows`inTree
      ensures Valid()
      ensures 0 <= i <= |old(db.Tree(t))|
      ensures db == old(db).WithTree(t, old(db.Tree(t))[..i] + [l] + old(db.Tree(t))[i..])
      ensures (old(Exact()) ==> Exact()) && (old(Modular()) ==> Modular())
    {
      hide Valid, TreesOk, PoolsOk, IndexOk, OrdersOk, LevelsOk, PriceTree.Valid, Value, Exact, Modular, Llist.QueueOk,
          Distinct;
      Parts();
      TreeParts(BUY);
      TreeParts(SELL);
      TreeSize(t);
      LevelParts(l);
      if t == BUY {
        i := BidsInsert(l);
      } else {
        forall x | x in askTree.sh.pos ensures x.price != l.price { assert x in db.Tree(SELL) && x in db.Tree(t); }
        i := AsksInsert(l);
      }
      TreesDone();
    }

    method TreeRemove(t: u64, l: LevelRow) returns (ghost k: int)
      requires Valid() && l in db.Tree(t)
      modifies `db, bidTree`root, bidTree`n, bidTree`sh, askTree`root, askTree`n, askTree`sh
      modifies levelRows`parent, levelRows`left, levelRows`right, levelRows`inTree
      ensures Valid()
      ensures 0 <= k < |old(db.Tree(t))| && old(db.Tree(t))[k] == l
      ensures db == old(db).WithTree(t, Without(old(db.Tree(t)), k))
      ensures (old(Exact()) ==> Exact()) && (old(Modular()) ==> Modular())
    {
      hide Valid, TreesOk, PriceTree.Valid, Exact, Modular;
      Parts();
      TreeParts(t);
      if t == BUY {
        k := BidsRemove(l);
      } else {
        k := AsksRemove(l);
      }
      TreesDone();
    }

    // ---- pools and payloads ----

    // One order row, neither hashed nor queued, has been taken, written or given back.
    twostate predicate OrderEffect(o: OrderRow)
      reads `db, orderRows, levelRows
    {
      && o in orderRows && o !in db.hash
      && db.orders.Keys <= orderRows
      && db == old(db).(orders := db.orders) && db.orders - {o} == old(db.orders) - {o}
      && (o in db.orders ==> db.orders[o] == Value(o) && !o.inHash && !o.inList)
      && unchanged(orderRows - {o}, levelRows)
    }

    twostate lemma OrderLevels(new o: OrderRow)
      requires old(allocated(o)) && old(Valid()) && OrderEffect(o) && (o in old(db.orders) ==> !old(db.Queued(o)))
      ensures LevelsOk(db.orders, db.prices, db.queues)
    {
      hide PoolsOk, IndexOk, TreesOk, OrdersOk;
      forall l | l in db.prices ensures LevelOk(db.orders, db.prices[l], db.queues[l], l) {
        var was := old(LevelOk(db.orders, db.prices[l], db.queues[l], l));
        var q := db.queues[l];
        forall i | 0 <= i < |q|
            ensures q[i] != o && q[i] in db.orders && Remaining(db.orders, q[i]) == Remaining(old(db.orders), q[i]) {
          assert q[i] in db.orders - {o} <==> q[i] in old(db.orders) - {o};
        }
      }
    }

    twostate lemma OrderTotals(new o: OrderRow)
      requires old(allocated(o)) && old(Valid()) && OrderEffect(o) && (o in old(db.orders) ==> !old(db.Queued(o)))
      ensures (old(Exact()) ==> Exact()) && (old(Modular()) ==> Modular())
    {
      hide PoolsOk, IndexOk, TreesOk, OrdersOk;
      forall l | l in db.queues ensures SameTotal(l) {
        var was := old(LevelOk(db.orders, db.prices[l], db.queues[l], l));
        var q := db.queues[l];
        forall i | 0 <= i < |q| ensures Remaining(db.orders, q[i]) == Remaining(old(db.orders), q[i]) {
          assert q[i] != o;
          assert q[i] in db.orders - {o} <==> q[i] in old(db.orders) - {o};
          assert (db.orders - {o})[q[i]] == (old(db.orders) - {o})[q[i]];
        }
        SumSame(old(db.orders), db.orders, q);
      }
      TotalsSame();
    }

    twostate lemma OrderIndex(new o: OrderRow)
      requires old(allocated(o)) && old(Valid()) && OrderEffect(o) && unchanged(index, index.buckets)
      ensures IndexOk(db.orders.Keys, db.hash) && OrdersOk(db.orders, db.queues, db.hash)
    {
      hide PoolsOk, TreesOk, LevelsOk;
      forall r | r in db.hash ensures r in db.orders { assert r in db.orders - {o} <==> r in old(db.orders) - {o}; }
      forall r | r in db.orders ensures OrderOk(db.orders, db.queues, db.hash, r) {
        if r != o {
          assert r in db.orders - {o} <==> r in old(db.orders) - {o};
          assert (db.orders - {o})[r] == (old(db.orders) - {o})[r];
          var was := old(OrderOk(db.orders, db.queues, db.hash, r));
        }
      }
    }

    twostate lemma OrderDone(new o: OrderRow)
      requires old(allocated(o)) && old(Valid()) && OrderEffect(o) && (o in old(db.orders) ==> !old(db.Queued(o)))
      requires unchanged(index, index.buckets, bidTree, askTree) && PoolsOk(db.orders.Keys, db.prices.Keys)
      ensures Valid()
      ensures (old(Exact()) ==> Exact()) && (old(Modular()) ==> Modular())
    {
      TreesSame(db.prices.Keys, db.bids, db.asks);
      OrderTotals(o);
      hide PoolsOk, TreesOk, IndexOk, OrdersOk, LevelsOk;
      OrderLevels(o);
      OrderIndex(o);
    }

    // The row the pool hands out next.
    lemma NextOrder() returns (o: OrderRow)
      requires db.orders.Keys <= orderRows && OrderPoolOk(db.orders.Keys) && |db.orders.Keys| < cap
      ensures orderPool.Valid() && |orderPool.rows| < TWO64
      ensures orderPool.frees != [] && o == orderPool.frees[0] && o in orderRows && o !in db.orders
    {
      o := orderPool.frees[0];
    }

    twostate lemma OrderTaken(new orders: set<OrderRow>, new o: OrderRow)
      requires old(allocated(o)) && orders <= orderRows && old(OrderPoolOk(orders)) && |orders| < cap && o in orderRows
      requires o !in orders
      requires orderPool.Valid() && unchanged(orderPool`rows) && orderPool.used == old(orderPool.used) + 1
      requires old(orderPool.frees) == [o] + orderPool.frees
      ensures OrderPoolOk(orders + {o})
    {
      var frees := orderPool.frees;
      forall k | 0 <= k < |frees| ensures frees[k] in orderRows && frees[k] !in orders + {o} {
        assert old(orderPool.frees)[k + 1] == frees[k] && old(orderPool.frees)[0] == o;
        assert Distinct(old(orderPool.frees));
      }
    }

    // Row r, which is the next to be handed out.
    method TakeOrder(ghost r: OrderRow) returns (o: OrderRow)
      requires orderPool.Valid() && |orderPool.rows| < TWO64 && orderPool.frees != [] && orderPool.frees[0] == r
      requires r !in db.orders
      modifies `db, orderPool`free, orderPool`used, orderPool`frees, r`freeNext, r`next, r`prev, r`inList, r`hashNext
      modifies r`inHash
      ensures o == r && orderPool.Valid() && orderPool.used == old(orderPool.used) + 1
      ensures old(orderPool.frees) == [r] + orderPool.frees
      ensures db == old(db).(orders := old(db.orders)[r := Value(r)]) && r.next == null && r.prev == null && !r.inList
      ensures !r.inHash
    {
      hide OrderPool.Valid;
      db := db.(orders := db.orders[r := Value(r)]);
      var row := orderPool.Alloc();
      o := row;
    }

    // The row has only been filled in and entered among the live orders.
    twostate lemma OrderNew(new o: OrderRow)
      requires o in orderRows && o !in old(db.orders) && old(db.orders.Keys <= orderRows && db.hash <= db.orders.Keys)
      requires db == old(db).(orders := old(db.orders)[o := Value(o)]) && !o.inList && !o.inHash
      requires unchanged(orderRows - {o}, levelRows)
      ensures OrderEffect(o) && db.orders.Keys == old(db.orders.Keys) + {o}
    {
      assert db.orders - {o} == old(db.orders) - {o};
    }

    // A fresh row, or null exactly when the live orders have reached the capacity.
    method OrderAlloc() returns (o: OrderRow?)
      requires Valid()
      modifies `db, orderPool`free, orderPool`used, orderPool`frees
      modifies orderRows`freeNext, orderRows`next, orderRows`prev, orderRows`inList, orderRows`hashNext
      modifies orderRows`inHash
      ensures Valid()
      ensures o == null <==> |old(db.orders)| >= cap
      ensures o == null ==> db == old(db)
      ensures o != null ==>
          o !in old(db.orders) && o in db.orders && db == old(db).(orders := old(db.orders)[o := db.orders[o]])
      ensures (old(Exact()) ==> Exact()) && (old(Modular()) ==> Modular())
    {
      hide Valid, OrderPoolOk, LevelPoolOk, Value, Exact, Modular;
      Parts();
      var used := OrderCount();
      if used >= cap { return null; }
      assert |db.orders.Keys| == |db.orders|;
      ghost var r := NextOrder();
      var row := TakeOrder(r);
      OrderNew(r);
      OrderTaken(old(db.orders.Keys), r);
      LevelPoolSame(db.prices.Keys);
      OrderDone(row);
      o := row;
    }

    twostate lemma OrderReturned(new orders: set<OrderRow>, new o: OrderRow)
      requires old(allocated((orders, o))) && orders <= orderRows && old(OrderPoolOk(orders)) && o in orders
      requires orderPool.Valid() && unchanged(orderPool`rows) && orderPool.used + 1 == old(orderPool.used)
      requires orderPool.frees == [o] + old(orderPool.frees)
      ensures OrderPoolOk(orders - {o})
    {
      var frees := orderPool.frees;
      forall k | 0 <= k < |frees| ensures frees[k] in orderRows && frees[k] !in orders - {o} {
        if k > 0 { assert frees[k] == old(orderPool.frees)[k - 1]; }
      }
    }

    method GiveOrder(o: OrderRow)
      requires db.orders.Keys <= orderRows && OrderPoolOk(db.orders.Keys) && o in db.orders && o !in db.hash
      modifies `db, orderPool`free, orderPool`used, orderPool`frees, orderRows`freeNext
      ensures o in orderRows && OrderEffect(o) && OrderPoolOk(db.orders.Keys)
      ensures db.orders == old(db.orders) - {o}
    {
      assert o !in orderPool.frees && orderPool.Valid() && o in orderPool.rows && o in orderRows;
      hide OrderPool.Valid, OrderPoolOk;
      MinusTwice(db.orders, o);
      db := db.(orders := db.orders - {o});
      orderPool.Free(o);
      OrderReturned(old(db.orders.Keys), o);
      assert db.orders.Keys == old(db.orders.Keys) - {o};
    }

    method OrderFree(o: OrderRow)
      requires Valid() && o in db.orders && o !in db.hash && !db.Queued(o)
      modifies `db, orderPool`free, orderPool`used, orderPool`frees, orderRows`freeNext
      ensures Valid()
      ensures db == old(db).(orders := old(db.orders) - {o})
      ensures (old(Exact()) ==> Exact()) && (old(Modular()) ==> Modular())
    {
      hide Valid, OrderPoolOk, LevelPoolOk, Value, Exact, Modular;
      Parts();
      GiveOrder(o);
      LevelPoolSame(db.prices.Keys);
      OrderDone(o);
    }

    method Fill(o: OrderRow, v: Order)
      requires db.orders.Keys <= orderRows && o in orderRows && o in db.orders && o !in db.hash && !o.inHash
      requires !o.inList
      modifies `db, o`id, o`account, o`side, o`stp, o`price, o`qty, o`remaining
      ensures OrderEffect(o) && db.orders == old(db.orders)[o := v]
    {
      o.id, o.account, o.side, o.stp := v.id, v.account, v.side, v.stp;
      o.price, o.qty, o.remaining := v.price, v.qty, v.remaining;
      db := db.(orders := db.orders[o := v]);
      assert db.orders - {o} == old(db.orders) - {o};
    }

    // The seven payload setters on a row that is in no queue and not hashed.
    method WriteOrder(o: OrderRow, v: Order)
      requires Valid() && o in db.orders && o !in db.hash && !db.Queued(o)
      modifies `db, orderRows`id, orderRows`account, orderRows`side, orderRows`stp, orderRows`price, orderRows`qty
      modifies orderRows`remaining
      ensures Valid()
      ensures db == old(db).(orders := old(db.orders)[o := v])
      ensures (old(Exact()) ==> Exact()) && (old(Modular()) ==> Modular())
    {
      hide Valid, OrderPoolOk, LevelPoolOk, Value, Exact, Modular;
      Parts();
      OrderParts(o);
      Fill(o, v);
      assert db.orders.Keys == old(db.orders.Keys);
      OrderPoolSame(db.orders.Keys);
      LevelPoolSame(db.prices.Keys);
      OrderDone(o);
    }

    // ---- levels ----

    // One level row, in no tree and with an empty queue, has been taken, priced or given back.
    twostate predicate LevelEffect(l: LevelRow)
      reads `db, orderRows, levelRows
    {
      && l in levelRows && l !in db.bids && l !in db.asks
      && db.prices.Keys <= levelRows && db.queues.Keys == db.prices.Keys
      && db == old(db).(prices := db.prices, queues := db.queues)
      && db.prices - {l} == old(db.prices) - {l} && db.queues - {l} == old(db.queues) - {l}
      && (l in db.prices ==>
          db.prices[l] == l.price && db.queues[l] == [] && l.head == null && l.tail == null && l.count == 0)
      && unchanged(orderRows, levelRows - {l})
    }

    twostate lemma LevelRowsDone(new l: LevelRow)
      requires old(allocated(l)) && old(Valid()) && LevelEffect(l) && (l in old(db.queues) ==> old(db.queues)[l] == [])
      ensures OrdersOk(db.orders, db.queues, db.hash) && LevelsOk(db.orders, db.prices, db.queues)
    {
      hide PoolsOk, TreesOk, IndexOk;
      forall r | r in db.orders ensures OrderOk(db.orders, db.queues, db.hash, r) {
        var was := old(OrderOk(db.orders, db.queues, db.hash, r));
        var m := r.level;
        if r.inList {
          assert m in db.queues - {l} <==> m in old(db.queues) - {l};
          assert m != l ==> (db.queues - {l})[m] == (old(db.queues) - {l})[m];
        }
      }
      forall m | m in db.prices
          ensures LevelOk(db.orders, db.prices[m], db.queues[m], m) && forall i {:trigger db.queues[m][i]} ::
          0 <= i < |db.queues[m]| ==> db.queues[m][i] in orderRows {
        if m != l {
          assert m in db.queues - {l} <==> m in old(db.queues) - {l};
          assert m in db.prices - {l} <==> m in old(db.prices) - {l};
          assert (db.queues - {l})[m] == (old(db.queues) - {l})[m] && (db.prices - {l})[m] == (old(db.prices) - {l})[m];
          var was := old(LevelOk(db.orders, db.prices[m], db.queues[m], m));
        }
      }
    }

    twostate lemma LevelTrees(new l: LevelRow)
      requires old(allocated(l)) && old(Valid()) && LevelEffect(l) && l !in old(db.bids) && l !in old(db.asks)
      requires unchanged(bidTree, askTree)
      ensures TreesOk(db.prices.Keys, db.bids, db.asks)
    {
      hide PoolsOk, IndexOk, OrdersOk, LevelsOk;
      var (b, a) := (bidTree.sh, askTree.sh);
      forall x | x in b.pos ensures x in db.prices && x != l {
        assert b.Placed(x);
        assert x in db.prices - {l} <==> x in old(db.prices) - {l};
      }
      forall x | x in a.pos ensures x in db.prices && x != l {
        assert a.Placed(x);
        assert x in db.prices - {l} <==> x in old(db.prices) - {l};
      }
    }

    twostate lemma LevelTotals(new l: LevelRow)
      requires old(allocated(l)) && old(Valid()) && LevelEffect(l) && (l in old(db.queues) ==> old(db.queues)[l] == [])
      requires l in db.queues ==> l.total == 0 || (l in old(db.queues) && l.total == old(l.total))
      ensures (old(Exact()) ==> Exact()) && (old(Modular()) ==> Modular())
    {
      hide PoolsOk, TreesOk, IndexOk, OrdersOk, LevelsOk;
      forall m | m in db.queues ensures SameTotal(m) {
        if m != l {
          assert m in db.queues - {l} <==> m in old(db.queues) - {l};
          assert (db.queues - {l})[m] == (old(db.queues) - {l})[m];
        }
      }
      TotalsSame();
    }

    twostate lemma LevelDone(new l: LevelRow)
      requires old(allocated(l)) && old(Valid()) && LevelEffect(l) && (l in old(db.queues) ==> old(db.queues)[l] == [])
      requires l in db.queues ==> l.total == 0 || (l in old(db.queues) && l.total == old(l.total))
      requires unchanged(orderPool, index, index.buckets, bidTree, askTree) && LevelPoolOk(db.prices.Keys)
      ensures Valid()
      ensures (old(Exact()) ==> Exact()) && (old(Modular()) ==> Modular())
    {
      LevelTotals(l);
      OrderPoolSame(db.orders.Keys);
      IndexSame(db.orders.Keys, db.hash);
      hide OrderPoolOk, LevelPoolOk, TreesOk, IndexOk, OrdersOk, LevelsOk;
      LevelRowsDone(l);
      LevelTrees(l);
    }

    lemma NextLevel() returns (l: LevelRow)
      requires Valid() && |db.prices| < levelCap
      ensures levelPool.Valid() && |levelPool.rows| < TWO64
      ensures levelPool.frees != [] && l == levelPool.frees[0] && l in levelRows && l !in db.prices && l !in db.bids
      ensures l !in db.asks
    {
      assert |db.prices.Keys| == |db.prices|;
      l := levelPool.frees[0];
      TreeParts(BUY);
      TreeParts(SELL);
      assert l !in db.Tree(BUY) && l !in db.Tree(SELL);
    }

    twostate lemma LevelTaken(new levels: set<LevelRow>, new l: LevelRow)
      requires old(allocated(l)) && levels <= levelRows && old(LevelPoolOk(levels)) && |levels| < levelCap
      requires l in levelRows && l !in levels
      requires levelPool.Valid() && unchanged(levelPool`rows) && levelPool.used == old(levelPool.used) + 1
      requires old(levelPool.frees) == [l] + levelPool.frees
      ensures LevelPoolOk(levels + {l})
    {
      var frees := levelPool.frees;
      forall k | 0 <= k < |frees| ensures frees[k] in levelRows && frees[k] !in levels + {l} {
        assert old(levelPool.frees)[k + 1] == frees[k] && old(levelPool.frees)[0] == l;
        assert Distinct(old(levelPool.frees));
      }
    }

    // Row r, which is the next to be handed out.
    method TakeLevel(ghost r: LevelRow) returns (l: LevelRow)
      requires levelPool.Valid() && |levelPool.rows| < TWO64 && levelPool.frees != [] && levelPool.frees[0] == r
      requires r !in db.prices
      modifies `db, levelPool`free, levelPool`used, levelPool`frees, r`freeNext, r`head, r`tail, r`count, r`total
      modifies r`parent, r`left, r`right, r`inTree
      ensures l == r && levelPool.Valid() && levelPool.used == old(levelPool.used) + 1
      ensures old(levelPool.frees) == [r] + levelPool.frees
      ensures db == old(db).(prices := old(db.prices)[r := r.price], queues := old(db.queues)[r := []])
      ensures r.head == null && r.tail == null && r.count == 0 && r.total == 0
    {
      hide LevelPool.Valid;
      db := db.(prices := db.prices[r := r.price], queues := db.queues[r := []]);
      var row := levelPool.Alloc();
      l := row;
    }

    // The row has only been reset and entered among the live levels.
    twostate lemma LevelNew(new l: LevelRow)
      requires l in levelRows && l !in old(db.prices)
      requires old(db.prices.Keys <= levelRows && db.queues.Keys == db.prices.Keys)
      requires old(l !in db.bids && l !in db.asks)
      requires db == old(db).(prices := old(db.prices)[l := l.price], queues := old(db.queues)[l := []])
      requires l.head == null && l.tail == null && l.count == 0 && unchanged(orderRows, levelRows - {l})
      ensures LevelEffect(l) && db.prices.Keys == old(db.prices.Keys) + {l}
    {
      assert db.prices - {l} == old(db.prices) - {l} && db.queues - {l} == old(db.queues) - {l};
    }

    twostate lemma LevelAdded(new l: LevelRow)
      requires old(allocated(l)) && old(Valid()) && old(|db.prices| < levelCap) && l in levelRows
      requires old(l !in db.prices && l !in db.bids && l !in db.asks)
      requires levelPool.Valid() && unchanged(levelPool`rows) && levelPool.used == old(levelPool.used) + 1
      requires old(levelPool.frees) == [l] + levelPool.frees && l.head == null && l.tail == null && l.count == 0
      requires l.total == 0
      requires db == old(db).(prices := old(db.prices)[l := l.price], queues := old(db.queues)[l := []])
      requires unchanged(orderPool, index, index.buckets, bidTree, askTree, orderRows, levelRows - {l})
      ensures Valid()
      ensures (old(Exact()) ==> Exact()) && (old(Modular()) ==> Modular())
    {
      assert |old(db.prices.Keys)| == |old(db.prices)|;
      hide LevelPoolOk, OrderPoolOk, TreesOk, IndexOk, OrdersOk, LevelPool.Valid, Exact, Modular;
      LevelNew(l);
      LevelTaken(old(db.prices.Keys), l);
      LevelDone(l);
    }

    // A fresh level row, or null exactly when the live levels have reached the capacity.
    method LevelAlloc() returns (l: LevelRow?)
      requires Valid()
      modifies `db, levelPool`free, levelPool`used, levelPool`frees
      modifies levelRows`freeNext, levelRows`head, levelRows`tail, levelRows`count, levelRows`total
      modifies levelRows`parent, levelRows`left, levelRows`right, levelRows`inTree
      ensures Valid()
      ensures l == null <==> |old(db.prices)| >= levelCap
      ensures l == null ==> db == old(db)
      ensures l != null ==> l !in old(db.prices) && l in db.prices
      ensures l != null ==>
          db == old(db).(prices := old(db.prices)[l := db.prices[l]], queues := old(db.queues)[l := []])
      ensures (old(Exact()) ==> Exact()) && (old(Modular()) ==> Modular())
    {
      hide Valid, LevelPool.Valid, Exact, Modular;
      var used := levelPool.used;
      LevelCountIs();
      if used >= levelCap { return null; }
      ghost var r := NextLevel();
      l := TakeLevel(r);
      LevelAdded(r);
    }

    lemma LevelCountIs()
      requires Valid()
      ensures levelPool.used == |db.prices|
    {
      assert |db.prices.Keys| == |db.prices|;
    }

    twostate lemma LevelReturned(new levels: set<LevelRow>, new l: LevelRow)
      requires old(allocated((levels, l))) && levels <= levelRows && old(LevelPoolOk(levels)) && l in levels
      requires levelPool.Valid() && unchanged(levelPool`rows) && levelPool.used + 1 == old(levelPool.used)
      requires levelPool.frees == [l] + old(levelPool.frees)
      ensures LevelPoolOk(levels - {l})
    {
      var frees := levelPool.frees;
      forall k | 0 <= k < |frees| ensures frees[k] in levelRows && frees[k] !in levels - {l} {
        if k > 0 { assert frees[k] == old(levelPool.frees)[k - 1]; }
      }
    }

    method GiveLevel(l: LevelRow)
      requires db.prices.Keys <= levelRows && LevelPoolOk(db.prices.Keys) && l in db.prices && l !in db.bids
      requires l !in db.asks
      requires db.queues.Keys == db.prices.Keys
      modifies `db, levelPool`free, levelPool`used, levelPool`frees, levelRows`freeNext
      ensures l in levelRows && LevelEffect(l) && LevelPoolOk(db.prices.Keys)
      ensures db.prices == old(db.prices) - {l} && db.queues == old(db.queues) - {l}
    {
      assert l !in levelPool.frees && levelPool.Valid() && l in levelPool.rows && l in levelRows;
      hide LevelPool.Valid, LevelPoolOk;
      MinusTwice(db.prices, l);
      MinusTwice(db.queues, l);
      db := db.(prices := db.prices - {l}, queues := db.queues - {l});
      levelPool.Free(l);
      LevelReturned(old(db.prices.Keys), l);
      assert db.prices.Keys == old(db.prices.Keys) - {l};
    }

    method LevelFree(l: LevelRow)
      requires Valid() && l in db.prices && l in db.queues && db.queues[l] == [] && l !in db.bids && l !in db.asks
      modifies `db, levelPool`free, levelPool`used, levelPool`frees, levelRows`freeNext
      ensures Valid()
      ensures db == old(db).(prices := old(db.prices) - {l}, queues := old(db.queues) - {l})
      ensures (old(Exact()) ==> Exact()) && (old(Modular()) ==> Modular())
    {
      hide Valid, OrderPoolOk, LevelPoolOk, TreesOk, Exact, Modular;
      Parts();
      GiveLevel(l);
      LevelDone(l);
    }

    method Price(l: LevelRow, p: u64)
      requires db.prices.Keys <= levelRows && l in levelRows && l in db.prices && l in db.queues && l !in db.bids
      requires l !in db.asks
      requires db.queues.Keys == db.prices.Keys
      requires db.queues[l] == [] && l.head == null && l.tail == null && l.count == 0
      modifies `db, l`price
      ensures LevelEffect(l) && db.prices == old(db.prices)[l := p] && db.queues == old(db.queues)
    {
      l.price := p;
      db := db.(prices := db.prices[l := p]);
      assert db.prices - {l} == old(db.prices) - {l};
    }

    // The price of a level that is in no tree and has no orders yet.
    method SetLevelPrice(l: LevelRow, p: u64)
      requires Valid() && l in db.prices && l in db.queues && db.queues[l] == [] && l !in db.bids && l !in db.asks
      modifies `db, levelRows`price
      ensures Valid()
      ensures db == old(db).(prices := old(db.prices)[l := p])
      ensures (old(Exact()) ==> Exact()) && (old(Modular()) ==> Modular())
    {
      hide Valid, OrderPoolOk, LevelPoolOk, TreesOk, Exact, Modular;
      Parts();
      LevelParts(l);
      EmptyLevel(l);
      Price(l, p);
      assert db.prices.Keys == old(db.prices.Keys);
      LevelPoolSame(db.prices.Keys);
      LevelDone(l);
    }

    lemma EmptyLevel(l: LevelRow)
      requires Valid() && l in db.prices && l in db.queues && db.queues[l] == []
      ensures l.head == null && l.tail == null && l.count == 0
    {
      LevelParts(l);
    }

    // ---- partial fills ----

    // Only the remaining quantity of o has changed, to v, and the total of its level with it.
    twostate predicate FillEffect(o: OrderRow, v: u64)
      reads `db, orderRows, levelRows
    {
      && o in orderRows && o in old(db.orders) && o.remaining == v
      && db == old(db).(orders := old(db.orders)[o := old(db.orders[o]).(remaining := v)])
      && unchanged(orderRows - {o}, o`id, o`account, o`side, o`stp, o`price, o`qty, o`level, o`next, o`prev, o`inList)
      && unchanged(o`hashNext, o`inHash, o`freeNext)
      && unchanged(levelRows`price, levelRows`head, levelRows`tail, levelRows`count, levelRows`freeNext)
      && unchanged(levelRows`parent, levelRows`left, levelRows`right, levelRows`inTree)
      && (forall l {:trigger l.total} :: l in levelRows ==>
            l.total == if old(o.inList) && old(o.level) == l then (old(l.total) - old(o.remaining) + v) % TWO64
                else old(l.total))
    }

    twostate lemma FillOrders(new o: OrderRow, new v: u64)
      requires old(allocated(o)) && old(Valid()) && FillEffect(o, v)
      ensures OrdersOk(db.orders, db.queues, db.hash)
    {
      hide PoolsOk, TreesOk, IndexOk, LevelsOk;
      forall r | r in db.orders ensures OrderOk(db.orders, db.queues, db.hash, r) {
        var was := old(OrderOk(db.orders, db.queues, db.hash, r));
      }
    }

    twostate lemma FillLevel(new o: OrderRow, new v: u64, new l: LevelRow)
      requires old(allocated((o, l))) && old(Valid()) && FillEffect(o, v) && l in db.prices
      ensures LevelOk(db.orders, db.prices[l], db.queues[l], l)
    {
      hide PoolsOk, TreesOk, IndexOk;
      var was := old(LevelOk(db.orders, db.prices[l], db.queues[l], l));
    }

    // The total of the level that holds o moves with it, the others stay.
    twostate lemma FillTotal(new o: OrderRow, new v: u64, new l: LevelRow)
      requires old(allocated((o, l))) && old(Valid()) && FillEffect(o, v) && l in db.queues
      ensures l in old(db.queues) && old(db.queues) == db.queues
      ensures o in db.queues[l] ==>
        && db.Total(l) == old(db.Total(l)) - old(o.remaining) + v && old(o.remaining) <= old(db.Total(l))
        && l.total == (old(l.total) - old(o.remaining) + v) % TWO64
      ensures o !in db.queues[l] ==> db.Total(l) == old(db.Total(l)) && l.total == old(l.total)
    {
      hide PoolsOk, TreesOk, IndexOk;
      var q, m := db.queues[l], old(db.orders);
      var was := old(LevelOk(m, db.prices[l], q, l));
      var waso := old(OrderOk(m, db.queues, db.hash, o));
      if o in q {
        var k :| 0 <= k < |q| && q[k] == o;
        var linked := old(Llist.Linked(l, q, k));
        SumChange(m, q, k, m[o].(remaining := v));
        RemainingBelow(m, q, o);
      } else {
        SumSame(m, db.orders, q);
      }
    }

    // The one total that moves stays right modulo 2^64, and exactly if it fits.
    twostate lemma FillTotals(new o: OrderRow, new v: u64)
      requires old(allocated(o)) && old(Valid()) && FillEffect(o, v)
      ensures old(Modular()) ==> Modular()
      ensures old(Exact()) ==>
          (Exact() <==> forall l {:trigger db.queues[l]} :: l in db.queues && o in db.queues[l] ==> db.Total(l) < TWO64)
    {
      assert db.queues.Keys <= levelRows;
      hide Valid, FillEffect, Db.Total;
      forall l | l in db.queues && old(Modular()) ensures TotalAt(false, l) {
        var was := old(TotalAt(false, l));
        FillAt(o, v, l);
      }
      forall l | l in db.queues && old(Exact()) ensures TotalAt(true, l) <==>
          (o in db.queues[l] ==> db.Total(l) < TWO64) {
        var was := old(TotalAt(true, l));
        FillAt(o, v, l);
      }
    }

    twostate lemma FillAt(new o: OrderRow, new v: u64, new l: LevelRow)
      requires old(allocated((o, l))) && old(Valid()) && FillEffect(o, v) && l in db.queues
      ensures old(TotalAt(false, l)) ==> TotalAt(false, l)
      ensures old(TotalAt(true, l)) ==> (TotalAt(true, l) <==> (o in db.queues[l] ==> db.Total(l) < TWO64))
    {
      hide Valid, FillEffect, Db.Total;
      FillTotal(o, v, l);
      if o in db.queues[l] { Shifted(old(l.total), old(db.Total(l)), old(o.remaining), v); }
    }

    twostate lemma FillDone(new o: OrderRow, new v: u64)
      requires old(allocated(o)) && old(Valid()) && FillEffect(o, v)
      requires unchanged(orderPool, levelPool, bidTree, askTree, index, index.buckets)
      ensures Valid()
    {
      assert db.orders.Keys == old(db.orders.Keys);
      PoolsSame(db.orders.Keys, db.prices.Keys);
      TreesSame(db.prices.Keys, db.bids, db.asks);
      IndexSame(db.orders.Keys, db.hash);
      hide PoolsOk, TreesOk, IndexOk, OrdersOk;
      FillOrders(o, v);
      forall l | l in db.prices ensures LevelOk(db.orders, db.prices[l], db.queues[l], l) { FillLevel(o, v, l); }
    }

    method Refill(o: OrderRow, v: u64)
      requires o in orderRows && o in db.orders && o.inList ==> o.level != null
      requires o in orderRows && o in db.orders && db.orders[o].remaining == o.remaining
      requires o.inList ==> o.level in levelRows
      modifies `db, o`remaining, levelRows`total
      ensures FillEffect(o, v) && db == old(db).(orders := old(db.orders)[o := old(db.orders[o]).(remaining := v)])
    {
      if o.inList && o.level != null {
        var l := o.level;
        l.total := (l.total - o.remaining + v) % TWO64;
      }
      o.remaining := v;
      db := db.(orders := db.orders[o := db.orders[o].(remaining := v)]);
    }

    // A smaller remaining quantity always fits.
    twostate lemma Lowered(new o: OrderRow)
      requires old(allocated(o)) && old(Valid()) && o in old(db.orders) && o in db.orders
      requires db.orders[o].remaining <= old(db.orders[o].remaining)
      requires db == old(db).(orders := old(db.orders)[o := db.orders[o]]) && old(Exact())
      ensures forall l {:trigger db.queues[l]} :: l in db.queues && o in db.queues[l] ==> db.Total(l) < TWO64
    {
      forall l | l in db.queues && o in db.queues[l] ensures db.Total(l) < TWO64 {
        var q, m := db.queues[l], old(db.orders);
        var was, total := old(LevelOk(m, db.prices[l], q, l)), old(TotalAt(true, l));
        var k :| 0 <= k < |q| && q[k] == o;
        SumChange(m, q, k, db.orders[o]);
      }
    }

    method SetRemaining(o: OrderRow, v: u64)
      requires Valid() && o in db.orders
      modifies `db, orderRows`remaining, levelRows`total
      ensures Valid()
      ensures db == old(db).(orders := old(db.orders)[o := old(db.orders[o]).(remaining := v)])
      ensures old(Modular()) ==> Modular()
      ensures old(Exact()) ==>
          (Exact() <==> forall l {:trigger db.queues[l]} :: l in db.queues && o in db.queues[l] ==> db.Total(l) < TWO64)
      ensures old(Exact()) && v <= old(db.orders[o].remaining) ==> Exact()
    {
      hide Valid, Value, Exact, Modular, FillEffect;
      Parts();
      OrderParts(o);
      if o.inList { LevelParts(o.level); }
      Refill(o, v);
      FillDone(o, v);
      FillTotals(o, v);
      if old(Exact()) && v <= old(db.orders[o].remaining) { Lowered(o); }
    }

    // Lowers an order and its level's total by the same amount, field by field.
    method Decrement(l: LevelRow, o: OrderRow, fill: u64, ghost k: nat)
      requires Valid() && l in db.prices && l in db.queues && k < |db.queues[l]| && db.queues[l][k] == o
      requires o in db.orders && fill <= db.orders[o].remaining
      modifies `db, orderRows`remaining, levelRows`total
      ensures Valid()
      ensures db ==
          old(db).(orders := old(db.orders)[o := old(db.orders[o]).(remaining := old(db.orders[o]).remaining - fill)])
      ensures (old(Exact()) ==> Exact()) && (old(Modular()) ==> Modular())
    {
      hide Valid, Value, Exact, Modular, FillEffect, Llist.QueueOk, Distinct;
      OrderParts(o);
      LevelParts(l);
      ghost var v := db.orders[o].remaining - fill;
      Lower(l, o, fill, v);
      FillDone(o, v);
      FillTotals(o, v);
      if old(Exact()) { Lowered(o); }
    }

    method Lower(l: LevelRow, o: OrderRow, fill: u64, ghost v: u64)
      requires o in orderRows && o in db.orders && db.orders[o].remaining == o.remaining && fill + v == o.remaining
      requires o.inList && o.level == l && l in levelRows
      modifies `db, o`remaining, l`total
      ensures FillEffect(o, v) && db == old(db).(orders := old(db.orders)[o := old(db.orders[o]).(remaining := v)])
    {
      o.remaining := o.remaining - fill;
      l.total := (l.total - fill) % TWO64;
      db := db.(orders := db.orders[o := db.orders[o].(remaining := o.remaining)]);
    }
  }
}
