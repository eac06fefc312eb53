/** The generated matcher on the store. */
module Matcher {
  import opened Lists
  import opened Types
  import opened Rows
  import opened Store
  import opened PriceTime
  import opened PriceTimeLaws
  import opened StoreBook
  import opened StoreSteps
  import opened StoreRest
  import opened StoreCount
  import opened StoreClient
  import opened StoreCalls
  import opened MatchSteps
  import opened BookRuns
  import opened RequestLaws
  import opened EngineDb
  import opened TradeSink
  import Llist

  class Matcher {
    const store: EngineDb
    const sink: TradeSink
    var ntrades: u64

    // The sink has room for one trade more than there are order rows, and there is a level row for each of these.
    ghost predicate SinkOk()
      reads `ntrades, sink`n
    {
      sink.Valid() && sink.buf.Length == store.cap + 1 && ntrades == sink.n && store.cap <= store.levelCap
    }

    // A matcher on a store that is still empty and has a level row for every order row.
    constructor (s: EngineDb, t: TradeSink)
      requires s.cap <= s.levelCap && t.Valid() && t.buf.Length == s.cap + 1 && t.n == 0
      requires s.Valid() && s.Exact() && s.db == Db(map[], map[], map[], [], [], {})
      ensures store == s && sink == t && Ready() && BookOf(store.db) == Book([], [])
    {
      store, sink, ntrades := s, t, 0;
      new;
      ValidSound(store);
    }

    // Traps unless the buffer has room.
    method Emit(maker: u64, taker: u64, price: u64, qty: u64)
      requires SinkOk() && sink.n <= store.cap && store.cap + 1 < TWO64
      modifies `ntrades, sink`n, sink.buf
      ensures SinkOk() && sink.Contents() == old(sink.Contents()) + [Trade(maker, taker, price, qty)]
    {
      if ntrades >= store.cap + 1 { assert false; }
      sink.Emit(Trade(maker, taker, price, qty));
      ntrades := ntrades + 1;
    }

    // Fills as much of the request as the resting order allows, with or without a trade.
    method Fill(r: Request, best: LevelRow, o: OrderRow, rem: u64, trade: bool) returns (left: u64, next: OrderRow?)
      requires store.Valid() && SinkOk() && sink.n <= store.cap && best in store.db.prices && best in store.db.queues
      requires store.db.queues[best] != [] && store.db.queues[best][0] == o && o in store.db.orders
      requires o in store.db.hash
      modifies store`db, store.orderPool, store.levelPool, store.index, store.index.buckets, store.bidTree
      modifies store.askTree
      modifies store.orderRows, store.levelRows, `ntrades, sink`n, sink.buf
      ensures store.Valid() && SinkOk() && best in old(store.db.queues) && o in old(store.db.orders)
      ensures var v, fill := old(store.db.orders[o]), Min(rem, old(store.db.orders[o]).remaining);
        && left == rem - fill
        && store.db == Filled(old(store.db), best, fill)
        && next == RowAt(old(store.db.queues[best]), 1)
        && sink.Contents() == old(sink.Contents()) + if trade then [Trade(v.id, r.id, old(store.db.prices[best]), fill)]
            else []
      ensures old(store.Exact()) ==> store.Exact()
    {
      hide store.Valid, Removed, EngineDb.Exact, EngineDb.Modular, Clamped;
      ghost var d := store.db;
      var fill := Min(rem, store.Get(o).remaining);
      left := rem - fill;
      var prem := store.Get(o).remaining - fill;
      store.SetRemaining(o, prem);
      if trade { Emit(store.Get(o).id, r.id, store.LevelPrice(best), fill); }
      next := store.QueueNext(o, best, 0);
      if prem == 0 {
        RemoveResting(store, best, o, 0);
        RemovedAfter(d, best);
      }
    }

    // The store and the sink halfway through a request, with level `best` being emptied.
    ghost predicate Midway(r: Request, best: LevelRow, m0: Matched, own: seq<Order>, bound: nat, rem: u64)
      reads store`db, store.orderPool, store.levelPool, store.index, store.index.buckets, store.bidTree, store.askTree
      reads store.orderRows, store.levelRows, `ntrades, sink`n, sink.buf
    {
      store.Valid() && SinkOk() && AtHead(store.db, r, best)
          && Going(store.db, store.cap, r, m0, own, bound, rem, sink.Contents(), best)
    }

    method CancelHead(r: Request, best: LevelRow, o: OrderRow, rem: u64, ghost m0: Matched, ghost own: seq<Order>,
            ghost bound: nat)
      returns (left: u64, next: OrderRow?)
      requires Midway(r, best, m0, own, bound, rem) && rem > 0 && store.db.queues[best] != []
      requires store.db.queues[best][0] == o
      requires o in store.db.orders && SelfTrade(r, store.db.orders[o])
      requires (r.stp == STP_CANCEL_OLD || r.stp == STP_CANCEL_BOTH)
      modifies store`db, store.orderPool, store.levelPool, store.index, store.index.buckets, store.bidTree
      modifies store.askTree
      modifies store.orderRows, store.levelRows
      ensures Midway(r, best, m0, own, bound, left) && Advanced(old(store.db), store.db, r, best, left > 0)
      ensures left > 0 ==> next == RowAt(old(store.db.queues[best]), 1)
      ensures old(store.Exact()) ==> store.Exact()
    {
      hide store.Valid, Going, Removed, EngineDb.Exact, Clamped, Kept, Sound, SideOf, Levels, Match, Crosses;
      ghost var d, out := store.db, sink.Contents();
      GoingHead(d, store.cap, r, m0, own, bound, rem, out, best);
      next := store.QueueNext(o, best, 0);
      RemoveResting(store, best, o, 0);
      left := if r.stp == STP_CANCEL_BOTH then 0 else rem;
      ValidSound(store);
      GoingCancelled(d, store.cap, r, m0, own, bound, rem, out, best);
    }

    method FillHead(r: Request, best: LevelRow, o: OrderRow, rem: u64, trade: bool, ghost m0: Matched,
            ghost own: seq<Order>, ghost bound: nat)
      returns (left: u64, next: OrderRow?)
      requires Midway(r, best, m0, own, bound, rem) && rem > 0 && store.db.queues[best] != []
      requires store.db.queues[best][0] == o
      requires o in store.db.orders && (trade <==> !SelfTrade(r, store.db.orders[o]))
      requires !trade ==> r.stp !in {STP_CANCEL_NEW, STP_CANCEL_OLD, STP_CANCEL_BOTH}
      modifies store`db, store.orderPool, store.levelPool, store.index, store.index.buckets, store.bidTree
      modifies store.askTree
      modifies store.orderRows, store.levelRows, `ntrades, sink`n, sink.buf
      ensures Midway(r, best, m0, own, bound, left) && Advanced(old(store.db), store.db, r, best, left > 0)
      ensures left > 0 ==> next == RowAt(old(store.db.queues[best]), 1)
      ensures old(store.Exact()) ==> store.Exact()
    {
      hide store.Valid, Going, Filled, EngineDb.Exact, Kept, Sound, SideOf, Levels, Match, Crosses;
      ghost var d, out := store.db, sink.Contents();
      GoingHead(d, store.cap, r, m0, own, bound, rem, out, best);
      ghost var p, v := d.prices[best], d.orders[o];
      assert Offers(d, best, p, v);
      left, next := Fill(r, best, o, rem, trade);
      ValidSound(store);
      assert out + [] == out;
      GoingFilled(d, store.cap, r, m0, own, bound, rem, out, best, p, v, Min(rem, v.remaining));
    }

    // One turn of the inner loop: the head of the best contra level meets the request.
    method Meet(r: Request, best: LevelRow, o: OrderRow, rem: u64, ghost m0: Matched, ghost own: seq<Order>,
            ghost bound: nat)
      returns (left: u64, next: OrderRow?)
      requires Midway(r, best, m0, own, bound, rem) && rem > 0 && store.db.queues[best] != []
      requires store.db.queues[best][0] == o
      modifies store`db, store.orderPool, store.levelPool, store.index, store.index.buckets, store.bidTree
      modifies store.askTree
      modifies store.orderRows, store.levelRows, `ntrades, sink`n, sink.buf
      ensures Midway(r, best, m0, own, bound, left) && Advanced(old(store.db), store.db, r, best, left > 0)
      ensures left > 0 ==> next == RowAt(old(store.db.queues[best]), 1)
      ensures old(store.Exact()) ==> store.Exact()
    {
      hide store.Valid, Going, EngineDb.Exact;
      GoingHead(store.db, store.cap, r, m0, own, bound, rem, sink.Contents(), best);
      if r.account != 0 && r.account == store.Get(o).account && r.stp != STP_NONE {
        if r.stp == STP_CANCEL_NEW {
          left, next := 0, o;
          GoingStopped(store.db, store.cap, r, m0, own, bound, rem, sink.Contents(), best);
        } else if r.stp == STP_CANCEL_OLD || r.stp == STP_CANCEL_BOTH {
          left, next := CancelHead(r, best, o, rem, m0, own, bound);
        } else {
          left, next := FillHead(r, best, o, rem, false, m0, own, bound);
        }
      } else {
        left, next := FillHead(r, best, o, rem, true, m0, own, bound);
      }
    }

    // The inner loop: matches against one level until the level or the request is used up.
    method Drain(r: Request, best: LevelRow, rem0: u64, ghost m0: Matched, ghost own: seq<Order>, ghost bound: nat)
      returns (rem: u64)
      requires Midway(r, best, m0, own, bound, rem0) && rem0 > 0
      modifies store`db, store.orderPool, store.levelPool, store.index, store.index.buckets, store.bidTree
      modifies store.askTree
      modifies store.orderRows, store.levelRows, `ntrades, sink`n, sink.buf
      ensures Midway(r, best, m0, own, bound, rem)
      ensures store.db.bids == old(store.db.bids) && store.db.asks == old(store.db.asks)
      ensures store.db.prices == old(store.db.prices)
      ensures rem > 0 ==> store.db.queues[best] == []
      ensures old(store.Exact()) ==> store.Exact()
    {
      hide store.Valid, Going, EngineDb.Exact;
      rem := rem0;
      store.LevelParts(best);
      var passive := store.QueueFirst(best);
      var k1, n1 := 0, store.cap + 1;
      while passive != null && rem > 0
        invariant Midway(r, best, m0, own, bound, rem)
        invariant store.db.bids == old(store.db.bids) && store.db.asks == old(store.db.asks)
        invariant store.db.prices == old(store.db.prices)
        invariant rem > 0 ==> passive == RowAt(store.db.queues[best], 0)
        invariant rem > 0 ==> 0 <= k1 && k1 + |store.db.queues[best]| <= store.cap
        invariant old(store.Exact()) ==> store.Exact()
        decreases if rem > 0 then 1 + |store.db.queues[best]| else 0
      {
        if k1 == n1 { assert false; }
        rem, passive := Meet(r, best, passive, rem, m0, own, bound);
        k1 := k1 + 1;
      }
    }

    ghost predicate Between(r: Request, m0: Matched, own: seq<Order>, bound: nat, rem: u64)
      reads store`db, store.orderPool, store.levelPool, store.index, store.index.buckets, store.bidTree, store.askTree
      reads store.orderRows, store.levelRows, `ntrades, sink`n, sink.buf
    {
      store.Valid() && SinkOk() && Going(store.db, store.cap, r, m0, own, bound, rem, sink.Contents(), null)
    }

    // One turn of the outer loop: the best contra level, which the request accepts.
    method Level(r: Request, best: LevelRow, rem0: u64, ghost m0: Matched, ghost own: seq<Order>, ghost bound: nat)
      returns (rem: u64)
      requires Between(r, m0, own, bound, rem0) && rem0 > 0 && AtHead(store.db, r, best)
      modifies store`db, store.orderPool, store.levelPool, store.index, store.index.buckets, store.bidTree
      modifies store.askTree
      modifies store.orderRows, store.levelRows, `ntrades, sink`n, sink.buf
      ensures Between(r, m0, own, bound, rem)
      ensures rem > 0 ==> |Levels(store.db, Contra(r.side))| < |old(Levels(store.db, Contra(r.side)))|
      ensures old(store.Exact()) ==> store.Exact()
    {
      hide store.Valid, Going, Levels, Dropped, Kept, Sound, EngineDb.Exact, EngineDb.Modular;
      GoingIn(store.db, store.cap, r, m0, own, bound, rem0, sink.Contents(), best);
      rem := Drain(r, best, rem0, m0, own, bound);
      ghost var d, out := store.db, sink.Contents();
      ValidSound(store);
      LevelsSame(d, old(store.db), Contra(r.side));
      GoingSide(d, store.cap, r, m0, own, bound, rem, out, best);
      if store.LevelCount(best) == 0 {
        ghost var k := DropLevel(store, Contra(r.side), best);
        ValidSound(store);
        GoingDropped(d, store.cap, r, m0, own, bound, rem, out, k);
      } else {
        GoingOut(d, store.cap, r, m0, own, bound, rem, out, best);
      }
    }

    // The outer loop: level after level, until the request is used up or accepts no more.
    method Sweep(r: Request, ghost m0: Matched, ghost own: seq<Order>, ghost bound: nat) returns (rem: u64)
      requires Between(r, m0, own, bound, r.qty)
      modifies store`db, store.orderPool, store.levelPool, store.index, store.index.buckets, store.bidTree
      modifies store.askTree
      modifies store.orderRows, store.levelRows, `ntrades, sink`n, sink.buf
      ensures Between(r, m0, own, bound, rem)
      ensures m0 == Matched(rem, SideOf(store.db, Contra(r.side)), sink.Contents())
      ensures old(store.Exact()) ==> store.Exact()
    {
      hide store.Valid, Going, Levels, SideOf, EngineDb.Exact, Kept, Sound, Match;
      rem := r.qty;
      ValidSound(store);
      GoingEnd(store.db, store.cap, r, m0, own, bound, rem, sink.Contents());
      LevelsSize(store.db, store.cap, Contra(r.side));
      LevelsBelowOrders(store.db, store.cap);
      KeptSound(store.db, store.cap, null);
      var stop := false;
      var k0, n0 := 0, store.cap + 1;
      while rem > 0 && !stop
        invariant Between(r, m0, own, bound, rem)
        invariant rem > 0 && !stop ==> 0 <= k0 && k0 + |Levels(store.db, Contra(r.side))| <= store.cap
        invariant rem > 0 && stop ==> Done(store.db, r)
        invariant old(store.Exact()) ==> store.Exact()
        decreases if rem > 0 && !stop then 1 + |Levels(store.db, Contra(r.side))| else 0
      {
        if k0 == n0 { assert false; }
        GoingSides(store.db, store.cap, r, m0, own, bound, rem, sink.Contents());
        BestIs(store.db, Contra(r.side));
        var best := store.TreeBest(Contra(r.side));
        if best == null {
          stop := true;
        } else if r.otype != MARKET && (if r.side == BUY then store.LevelPrice(best) > r.price
            else store.LevelPrice(best) < r.price) {
          stop := true;
        } else {
          rem := Level(r, best, rem, m0, own, bound);
        }
        k0 := k0 + 1;
      }
      GoingOver(store.db, store.cap, r, m0, own, bound, rem, sink.Contents());
    }

    ghost predicate Steady()
      reads store`db, store.orderPool, store.levelPool, store.index, store.index.buckets, store.bidTree, store.askTree
      reads store.orderRows, store.levelRows, `ntrades, sink`n
    {
      store.Valid() && SinkOk() && Kept(store.db, store.cap, null)
    }

    // What holds between calls: the structures agree, the stored totals are the true ones, and the book is
    // sorted, uncrossed and within both limits.
    ghost predicate Ready()
      reads store`db, store.orderPool, store.levelPool, store.index, store.index.buckets, store.bidTree, store.askTree
      reads store.orderRows, store.levelRows, `ntrades, sink`n
    {
      Steady() && store.Exact() && Fits(store.cap, BookOf(store.db)) && Capped(store.cap, BookOf(store.db))
    }

    // Matching and resting, for either side; a row is left for what rests, and room in its level's total.
    method Run(r: Request) returns (code: u64)
      requires Steady() && IsSide(r.side) && sink.Contents() == [] && 0 < r.qty
      requires forall o {:trigger store.db.orders[o]} :: o in store.db.orders ==> store.db.orders[o].id != r.id
      requires r.otype <= POST_ONLY && (Rests(r) ==> |store.db.orders| < store.cap)
      requires Fits(store.cap, BookOf(store.db))
      requires (Rests(r) ==> AtPrice(SideOf(store.db, r.side), r.price) + r.qty < TWO64)
      modifies store`db, store.orderPool, store.levelPool, store.index, store.index.buckets, store.bidTree
      modifies store.askTree
      modifies store.orderRows, store.levelRows, `ntrades, sink`n, sink.buf
      ensures Steady() && code == ACCEPTED && (old(store.Exact()) ==> store.Exact())
      ensures Outcome(code, sink.Contents(), BookOf(store.db)) == Execute(old(BookOf(store.db)), r)
    {
      hide store.Valid, Kept, Sound, SideOf, Going, Insert, Match, Fits, AtPrice, EngineDb.Exact, EngineDb.Modular;
      ghost var d, t := store.db, Contra(r.side);
      SidesCount(d, store.cap);
      ghost var m0 := Match(r, r.qty, SideOf(d, t));
      GoingStart(d, store.cap, r);
      PositiveSide(store.cap, BookOf(d), t);
      OrderFrees(r, r.qty, SideOf(d, t));
      var rem := Sweep(r, m0, SideOf(d, r.side), |SideOf(d, t)|);
      GoingEnd(store.db, store.cap, r, m0, SideOf(d, r.side), |SideOf(d, t)|, rem, sink.Contents());
      MatchLeaves(r, r.qty, SideOf(d, t));
      SidesCount(store.db, store.cap);
      code := ACCEPTED;
      if rem > 0 && r.otype != IOC && r.otype != MARKET {
        LevelsBelowOrders(store.db, store.cap);
        LevelsCount(store.db, store.cap);
        var ok := Post(store, r, rem);
        if !ok { assert false; }
      }
    }

    // The reason to refuse a request before anything changes.
    method Check(r: Request) returns (code: u64)
      requires Steady()
      ensures code == Refusal(store.cap, BookOf(store.db), r)
      ensures code == ACCEPTED ==> IsSide(r.side) && r.otype <= POST_ONLY && 0 < r.qty <= MaxQty(store.cap)
      ensures code == ACCEPTED ==> (Rests(r) ==> |store.db.orders| < store.cap)
      ensures code == ACCEPTED ==> forall o {:trigger store.db.orders[o]} :: o in store.db.orders ==>
          store.db.orders[o].id != r.id
    {
      hide store.Valid, Kept, Sound, SideOf, HasId, Levels, Fits, EngineDb.Exact;
      if !(r.otype == LIMIT || r.otype == MARKET || r.otype == IOC || r.otype == POST_ONLY) { return BAD_TYPE; }
      if !(r.side == BUY || r.side == SELL) { return BAD_FIELD; }
      if !(r.stp == STP_NONE || r.stp == STP_CANCEL_NEW || r.stp == STP_CANCEL_OLD || r.stp == STP_CANCEL_BOTH
          || r.stp == STP_DECREMENT) {
        return BAD_FIELD;
      }
      if r.qty == 0 { return BAD_FIELD; }
      if r.otype != MARKET && r.price == 0 { return BAD_FIELD; }
      if (TWO64 - 1) / (store.cap + 1) < r.qty { return BAD_FIELD; }
      var dup := Known(store, r.id);
      if dup { return DUPLICATE; }
      SidesCount(store.db, store.cap);
      var count := store.OrderCount();
      if (r.otype == LIMIT || r.otype == POST_ONLY) && store.cap <= count { return NO_CAPACITY; }
      if r.otype == POST_ONLY {
        var crosses := Crossing(store, r);
        if crosses { return WOULD_CROSS; }
      }
      return ACCEPTED;
    }

    // A new request: the result code, the trades and the book are those of price-time matching.
    method ProcessOrder(r: Request) returns (code: u64)
      requires Ready()
      modifies store`db, store.orderPool, store.levelPool, store.index, store.index.buckets, store.bidTree
      modifies store.askTree
      modifies store.orderRows, store.levelRows, `ntrades, sink`n, sink.buf
      ensures Ready()
      ensures Outcome(code, sink.Contents(), BookOf(store.db)) == Process(store.cap, old(BookOf(store.db)), r)
      ensures code == ACCEPTED ==> Executed(r, old(BookOf(store.db)), sink.Contents(), BookOf(store.db))
      ensures code != ACCEPTED ==> store.db == old(store.db)
    {
      hide store.Valid, Kept, Sound, SideOf, Fits, Process, Execute, Executed, MaxQty, AtPrice, HasId, EngineDb.Exact;
      ProcessKeeps(store.cap, BookOf(store.db), r);
      ProcessCapped(store.cap, BookOf(store.db), r);
      ProcessCases(store.cap, BookOf(store.db), r);
      ntrades := 0;
      sink.Reset();
      code := Check(r);
      if code == ACCEPTED {
        SidesCount(store.db, store.cap);
        PriceFits(store.cap, SideOf(store.db, r.side), r.price, r.qty);
        ExecuteIs(store.cap, BookOf(store.db), r);
        code := Run(r);
      }
    }

    // Takes a resting order off the book.
    method Withdraw(o: OrderRow)
      requires Steady() && store.Exact() && o in store.db.orders
      modifies store`db, store.orderPool, store.levelPool, store.index, store.index.buckets, store.bidTree
      modifies store.askTree
      modifies store.orderRows, store.levelRows
      ensures Steady() && store.Exact() && o in old(store.db.orders)
      ensures var b, id := old(BookOf(store.db)), old(store.db.orders[o].id);
        BookOf(store.db) == Book(Drop(b.bids, id), Drop(b.asks, id))
    {
      hide store.Valid, Kept, Sound, SideOf, Drop, Clamped, EngineDb.Exact;
      ghost var l := Revoke(store, o);
    }

    // Cancels by id.
    method CancelOrder(id: u64) returns (code: u64)
      requires Ready()
      modifies store`db, store.orderPool, store.levelPool, store.index, store.index.buckets, store.bidTree
      modifies store.askTree
      modifies store.orderRows, store.levelRows, `ntrades, sink`n, sink.buf
      ensures Ready()
      ensures Outcome(code, sink.Contents(), BookOf(store.db)) == Cancel(old(BookOf(store.db)), id)
      ensures code != CANCELLED ==> store.db == old(store.db)
    {
      hide store.Valid, Kept, Sound, BookOf, Drop, HasId, Fits, Capped, Cancel, EngineDb.Exact;
      CancelKeeps(store.cap, BookOf(store.db), id);
      CancelCapped(store.cap, BookOf(store.db), id);
      CancelCases(BookOf(store.db), id);
      ntrades := 0;
      sink.Reset();
      var o := store.HashFind(id);
      KeptSound(store.db, store.cap, null);
      IdsListed(store.db, store.cap, id, o);
      if o == null { return UNKNOWN_ID; }
      Withdraw(o);
      return CANCELLED;
    }
  }
}
