/** The handwritten engine on the same store.  Its loops leave by break and continue, it keeps no
    counters, and it lowers quantities and totals in place. */
module MatchingEngine {
  import opened Lists
  import opened Types
  import opened Rows
  import opened Store
  import opened PriceTime
  import opened PriceTimeLaws
  import opened StoreBook
  import opened StoreSteps
  import opened StoreRest
  import opened StoreCount
  import opened StoreClient
  import opened StoreCalls
  import opened MatchSteps
  import opened BookRuns
  import opened RequestLaws
  import opened EngineDb
  import Llist

  class MatchingEngine {
    const store: EngineDb
    // What the trade callback has been told during the latest call.
    var reported: seq<Trade>

    constructor (s: EngineDb)
      requires s.Valid() && s.db == Db(map[], map[], map[], [], [], {})
      ensures store == s && Ready() && BookOf(store.db) == Book([], [])
    {
      store, reported := s, [];
      new;
      ValidSound(store);
    }

    ghost predicate Midway(r: Request, best: LevelRow, m0: Matched, own: seq<Order>, bound: nat, rem: u64)
      reads store`db, store.orderPool, store.levelPool, store.index, store.index.buckets, store.bidTree, store.askTree
      reads store.orderRows, store.levelRows, `reported
    {
      store.Valid() && AtHead(store.db, r, best) && Going(store.db, store.cap, r, m0, own, bound, rem, reported, best)
    }

    method CancelHead(r: Request, best: LevelRow, o: OrderRow, rem: u64, ghost m0: Matched, ghost own: seq<Order>,
            ghost bound: nat)
      returns (next: OrderRow?)
      requires Midway(r, best, m0, own, bound, rem) && rem > 0 && store.db.queues[best] != []
      requires store.db.queues[best][0] == o
      requires o in store.db.orders && SelfTrade(r, store.db.orders[o])
      requires (r.stp == STP_CANCEL_OLD || r.stp == STP_CANCEL_BOTH)
      modifies store`db, store.orderPool, store.levelPool, store.index, store.index.buckets, store.bidTree
      modifies store.askTree
      modifies store.orderRows, store.levelRows
      ensures Midway(r, best, m0, own, bound, if r.stp == STP_CANCEL_BOTH then 0 else rem)
      ensures Advanced(old(store.db), store.db, r, best, r.stp == STP_CANCEL_OLD)
      ensures next == RowAt(old(store.db.queues[best]), 1)
      ensures old(store.Exact()) ==> store.Exact()
    {
      hide store.Valid, Going, Removed, EngineDb.Exact, Clamped, Kept, Sound, SideOf, Levels, Match, Crosses;
      ghost var d := store.db;
      GoingHead(d, store.cap, r, m0, own, bound, rem, reported, best);
      next := store.QueueNext(o, best, 0);
      RemoveResting(store, best, o, 0);
      ValidSound(store);
      GoingCancelled(d, store.cap, r, m0, own, bound, rem, reported, best);
    }

    // Lowers the head of the queue, reports the trade if there is one, and steps on.
    method Fill(r: Request, best: LevelRow, o: OrderRow, fill: u64, trade: bool) returns (next: OrderRow?)
      requires store.Valid() && best in store.db.prices && best in store.db.queues
      requires store.db.queues[best] != [] && store.db.queues[best][0] == o && o in store.db.orders
      requires o in store.db.hash
      requires fill <= store.db.orders[o].remaining
      modifies store`db, store.orderPool, store.levelPool, store.index, store.index.buckets, store.bidTree
      modifies store.askTree
      modifies store.orderRows, store.levelRows, `reported
      ensures store.Valid() && best in old(store.db.queues) && o in old(store.db.orders)
      ensures store.db == Filled(old(store.db), best, fill) && next == RowAt(old(store.db.queues[best]), 1)
      ensures reported == old(reported)
          + if trade then [Trade(old(store.db.orders[o].id), r.id, old(store.db.prices[best]), fill)] else []
      ensures old(store.Exact()) ==> store.Exact()
    {
      hide store.Valid, Removed, EngineDb.Exact, EngineDb.Modular, Clamped;
      ghost var d := store.db;
      store.Decrement(best, o, fill, 0);
      if trade { reported := reported + [Trade(store.Get(o).id, r.id, store.LevelPrice(best), fill)]; }
      next := store.QueueNext(o, best, 0);
      if store.Get(o).remaining == 0 {
        RemoveResting(store, best, o, 0);
        RemovedAfter(d, best);
      }
    }

    method FillHead(r: Request, best: LevelRow, o: OrderRow, rem: u64, fill: u64, trade: bool, ghost m0: Matched,
            ghost own: seq<Order>, ghost bound: nat)
      returns (next: OrderRow?)
      requires Midway(r, best, m0, own, bound, rem) && rem > 0 && store.db.queues[best] != []
      requires store.db.queues[best][0] == o
      requires o in store.db.orders && fill == Min(rem, store.db.orders[o].remaining)
      requires (trade <==> !SelfTrade(r, store.db.orders[o]))
      requires !trade ==> r.stp !in {STP_CANCEL_NEW, STP_CANCEL_OLD, STP_CANCEL_BOTH}
      modifies store`db, store.orderPool, store.levelPool, store.index, store.index.buckets, store.bidTree
      modifies store.askTree
      modifies store.orderRows, store.levelRows, `reported
      ensures Midway(r, best, m0, own, bound, rem - fill) && Advanced(old(store.db), store.db, r, best, rem > fill)
      ensures rem > fill ==> next == RowAt(old(store.db.queues[best]), 1)
      ensures old(store.Exact()) ==> store.Exact()
    {
      hide store.Valid, Going, Filled, EngineDb.Exact, Kept, Sound, SideOf, Levels, Match, Crosses;
      ghost var d, out := store.db, reported;
      GoingHead(d, store.cap, r, m0, own, bound, rem, out, best);
      next := Fill(r, best, o, fill, trade);
      ValidSound(store);
      assert out + [] == out;
      GoingFilled(d, store.cap, r, m0, own, bound, rem, out, best, d.prices[best], d.orders[o], fill);
    }

    // The request meets an order of its own account: a request that is cancelled ends the loop with nothing left.
    method MeetOwn(r: Request, best: LevelRow, o: OrderRow, rem: u64, ghost m0: Matched, ghost own: seq<Order>,
            ghost bound: nat)
      returns (left: u64, next: OrderRow?)
      requires Midway(r, best, m0, own, bound, rem) && rem > 0 && store.db.queues[best] != []
      requires store.db.queues[best][0] == o
      requires o in store.db.orders && SelfTrade(r, store.db.orders[o]) && r.stp <= STP_DECREMENT
      modifies store`db, store.orderPool, store.levelPool, store.index, store.index.buckets, store.bidTree
      modifies store.askTree
      modifies store.orderRows, store.levelRows, `reported
      ensures Midway(r, best, m0, own, bound, left) && Advanced(old(store.db), store.db, r, best, left > 0)
      ensures left > 0 ==> next == RowAt(old(store.db.queues[best]), 1)
      ensures old(store.Exact()) ==> store.Exact()
    {
      hide store.Valid, Going, EngineDb.Exact, Kept, Sound, SideOf, Levels, Match, Crosses;
      next := o;
      if r.stp == STP_CANCEL_NEW {
        GoingStopped(store.db, store.cap, r, m0, own, bound, rem, reported, best);
        left := 0;
      } else if r.stp == STP_CANCEL_OLD || r.stp == STP_CANCEL_BOTH {
        next := CancelHead(r, best, o, rem, m0, own, bound);
        left := if r.stp == STP_CANCEL_BOTH then 0 else rem;
      } else {
        var decr := Min(rem, store.Get(o).remaining);
        next := FillHead(r, best, o, rem, decr, false, m0, own, bound);
        left := rem - decr;
      }
    }

    // The inner loop.
    method Drain(r: Request, best: LevelRow, rem0: u64, ghost m0: Matched, ghost own: seq<Order>, ghost bound: nat)
      returns (rem: u64)
      requires Midway(r, best, m0, own, bound, rem0) && rem0 > 0 && r.stp <= STP_DECREMENT
      modifies store`db, store.orderPool, store.levelPool, store.index, store.index.buckets, store.bidTree
      modifies store.askTree
      modifies store.orderRows, store.levelRows, `reported
      ensures Midway(r, best, m0, own, bound, rem)
      ensures store.db.bids == old(store.db.bids) && store.db.asks == old(store.db.asks)
      ensures store.db.prices == old(store.db.prices)
      ensures rem > 0 ==> store.db.queues[best] == []
      ensures old(store.Exact()) ==> store.Exact()
    {
      hide store.Valid, Going, EngineDb.Exact, Kept, Sound, SideOf, Levels, Match, Crosses;
      rem := rem0;
      var passive := store.QueueFirst(best);
      while passive != null && rem > 0
        invariant Midway(r, best, m0, own, bound, rem)
        invariant store.db.bids == old(store.db.bids) && store.db.asks == old(store.db.asks)
        invariant store.db.prices == old(store.db.prices)
        invariant rem > 0 ==> passive == RowAt(store.db.queues[best], 0)
        invariant old(store.Exact()) ==> store.Exact()
        decreases if rem > 0 then 1 + |store.db.queues[best]| else 0
      {
        GoingHead(store.db, store.cap, r, m0, own, bound, rem, reported, best);
        if r.account != 0 && r.account == store.Get(passive).account && r.stp != STP_NONE {
          rem, passive := MeetOwn(r, best, passive, rem, m0, own, bound);
          continue;
        }
        var fill := Min(rem, store.Get(passive).remaining);
        passive := FillHead(r, best, passive, rem, fill, true, m0, own, bound);
        rem := rem - fill;
      }
    }

    ghost predicate Between(r: Request, m0: Matched, own: seq<Order>, bound: nat, rem: u64)
      reads store`db, store.orderPool, store.levelPool, store.index, store.index.buckets, store.bidTree, store.askTree
      reads store.orderRows, store.levelRows, `reported
    {
      store.Valid() && Going(store.db, store.cap, r, m0, own, bound, rem, reported, null)
    }

    method Level(r: Request, best: LevelRow, rem0: u64, ghost m0: Matched, ghost own: seq<Order>, ghost bound: nat)
      returns (rem: u64)
      requires Between(r, m0, own, bound, rem0) && rem0 > 0 && AtHead(store.db, r, best) && r.stp <= STP_DECREMENT
      modifies store`db, store.orderPool, store.levelPool, store.index, store.index.buckets, store.bidTree
      modifies store.askTree
      modifies store.orderRows, store.levelRows, `reported
      ensures Between(r, m0, own, bound, rem)
      ensures rem > 0 ==> |Levels(store.db, Contra(r.side))| < |old(Levels(store.db, Contra(r.side)))|
      ensures old(store.Exact()) ==> store.Exact()
    {
      hide store.Valid, Going, Levels, Dropped, Kept, Sound, EngineDb.Exact, EngineDb.Modular;
      GoingIn(store.db, store.cap, r, m0, own, bound, rem0, reported, best);
      rem := Drain(r, best, rem0, m0, own, bound);
      ghost var d := store.db;
      ValidSound(store);
      LevelsSame(d, old(store.db), Contra(r.side));
      GoingSide(d, store.cap, r, m0, own, bound, rem, reported, best);
      if store.LevelCount(best) == 0 {
        ghost var k := DropLevel(store, Contra(r.side), best);
        ValidSound(store);
        GoingDropped(d, store.cap, r, m0, own, bound, rem, reported, k);
      } else {
        GoingOut(d, store.cap, r, m0, own, bound, rem, reported, best);
      }
    }

    // The outer loop.
    method Sweep(r: Request, ghost m0: Matched, ghost own: seq<Order>, ghost bound: nat) returns (rem: u64)
      requires Between(r, m0, own, bound, r.qty) && r.stp <= STP_DECREMENT
      modifies store`db, store.orderPool, store.levelPool, store.index, store.index.buckets, store.bidTree
      modifies store.askTree
      modifies store.orderRows, store.levelRows, `reported
      ensures Between(r, m0, own, bound, rem)
      ensures m0 == Matched(rem, SideOf(store.db, Contra(r.side)), reported)
      ensures old(store.Exact()) ==> store.Exact()
    {
      hide store.Valid, Going, Levels, SideOf, EngineDb.Exact;
      rem := r.qty;
      while rem > 0
        invariant Between(r, m0, own, bound, rem)
        invariant old(store.Exact()) ==> store.Exact()
        decreases if rem > 0 then 1 + |Levels(store.db, Contra(r.side))| else 0
      {
        GoingSides(store.db, store.cap, r, m0, own, bound, rem, reported);
        BestIs(store.db, Contra(r.side));
        var best := store.TreeBest(Contra(r.side));
        if best == null { break; }
        if r.otype != MARKET && (if r.side == BUY then store.LevelPrice(best) > r.price
            else store.LevelPrice(best) < r.price) {
          break;
        }
        rem := Level(r, best, rem, m0, own, bound);
      }
      GoingOver(store.db, store.cap, r, m0, own, bound, rem, reported);
    }

    ghost predicate Steady()
      reads store`db, store.orderPool, store.levelPool, store.index, store.index.buckets, store.bidTree, store.askTree
      reads store.orderRows, store.levelRows
    {
      store.Valid() && Kept(store.db, store.cap, null)
    }

    ghost predicate Ready()
      reads store`db, store.orderPool, store.levelPool, store.index, store.index.buckets, store.bidTree, store.askTree
      reads store.orderRows, store.levelRows
    {
      Steady() && Fits(store.cap, BookOf(store.db))
    }

    // The checks made before anything changes: no limit on quantity or on the number of orders.
    method Check(r: Request) returns (ok: bool)
      requires Steady()
      ensures ok <==> Admits(BookOf(store.db), r)
      ensures ok ==> forall o {:trigger store.db.orders[o]} :: o in store.db.orders ==> store.db.orders[o].id != r.id
    {
      hide store.Valid, Kept, Sound, SideOf, HasId, Levels;
      if r.qty == 0 { return false; }
      if r.side > SELL || r.otype > POST_ONLY || r.stp > STP_DECREMENT { return false; }
      if r.otype != MARKET && r.price == 0 { return false; }
      var dup := Known(store, r.id);
      if dup { return false; }
      if r.otype == POST_ONLY {
        var crosses := Crossing(store, r);
        if crosses { return false; }
      }
      return true;
    }

    // Matching, and resting if a row is left for what rests.
    method Run(r: Request) returns (ok: bool)
      requires Ready() && reported == [] && Admits(BookOf(store.db), r)
      requires forall o {:trigger store.db.orders[o]} :: o in store.db.orders ==> store.db.orders[o].id != r.id
      modifies store`db, store.orderPool, store.levelPool, store.index, store.index.buckets, store.bidTree
      modifies store.askTree
      modifies store.orderRows, store.levelRows, `reported
      ensures Steady()
      ensures Verdict(ok, reported, BookOf(store.db)) ==
          Handwritten(store.cap, store.levelCap, old(BookOf(store.db)), r)
      ensures old(store.Exact()) ==> store.Modular() && (store.Exact() <==> !ok || PriceRoom(old(BookOf(store.db)), r))
    {
      hide store.Valid, Kept, Sound, SideOf, Going, Insert, Match, HasId, Fits, AtPrice, EngineDb.Exact,
          EngineDb.Modular;
      ghost var d, t := store.db, Contra(r.side);
      SidesCount(d, store.cap);
      ghost var m0 := Match(r, r.qty, SideOf(d, t));
      LevelRoom(store);
      HandwrittenIs(store.cap, store.levelCap, BookOf(d), r);
      GoingStart(d, store.cap, r);
      var rem := Sweep(r, m0, SideOf(d, r.side), |SideOf(d, t)|);
      GoingEnd(store.db, store.cap, r, m0, SideOf(d, r.side), |SideOf(d, t)|, rem, reported);
      MatchLeaves(r, r.qty, SideOf(d, t));
      SidesCount(store.db, store.cap);
      if store.Exact() { store.ExactModular(); }
      ok := true;
      if rem > 0 && r.otype != IOC && r.otype != MARKET {
        ok := Post(store, r, rem);
      }
    }

    // Any request, whatever its quantity and however full the store is: true exactly when the checks pass
    // and a row is left for what rests, then with the trades and the book of price-time matching; false
    // with nothing traded and the book as it was.  The stored totals stay exact exactly if the true total
    // at the price of what rests fits in 64 bits, and they are right modulo 2^64 in any case.
    method ProcessOrder(r: Request) returns (ok: bool)
      requires Ready()
      modifies store`db, store.orderPool, store.levelPool, store.index, store.index.buckets, store.bidTree
      modifies store.askTree
      modifies store.orderRows, store.levelRows, `reported
      ensures Ready()
      ensures Verdict(ok, reported, BookOf(store.db)) ==
          Handwritten(store.cap, store.levelCap, old(BookOf(store.db)), r)
      ensures ok ==> Executed(r, old(BookOf(store.db)), reported, BookOf(store.db))
      ensures old(store.Exact()) ==> store.Modular() && (store.Exact() <==> !ok || PriceRoom(old(BookOf(store.db)), r))
    {
      hide store.Valid, Kept, Sound, SideOf, Fits, Execute, Executed, HasId, PriceRoom, EngineDb.Exact,
          EngineDb.Modular;
      LevelRoom(store);
      HandwrittenKeeps(store.cap, store.levelCap, BookOf(store.db), r);
      reported := [];
      if store.Exact() { store.ExactModular(); }
      ok := Check(r);
      if !ok { return false; }
      ExecuteIs(store.cap, BookOf(store.db), r);
      ok := Run(r);
    }

    // Cancels by id.  The level the order leaves loses its quantity from its total, or gets total 0 if that
    // is less, which it cannot be while totals are exact.
    method CancelOrder(id: u64) returns (ok: bool, ghost o: OrderRow?, ghost l: LevelRow?)
      requires Ready()
      modifies store`db, store.orderPool, store.levelPool, store.index, store.index.buckets, store.bidTree
      modifies store.askTree
      modifies store.orderRows, store.levelRows
      ensures Ready() && (old(store.Exact()) ==> store.Exact())
      ensures var c := Cancel(old(BookOf(store.db)), id); (ok <==> c.code == CANCELLED) && BookOf(store.db) == c.book
      ensures ok ==>
        && o != null && l != null && o in old(store.db.orders) && l in old(store.db.queues)
            && o in old(store.db.queues)[l]
        && old(store.db.orders)[o].id == id && l.total == Clamped(old(l.total), old(store.db.orders)[o].remaining)
      ensures ok ==> unchanged((store.levelRows - {l})`total)
      ensures ok ==> store.db.prices == old(store.db.prices) || store.db.prices == old(store.db.prices) - {l}
    {
      hide store.Valid, Kept, Sound, SideOf, Levels, Drop, HasId, Fits, Cancel, Db.Queued, Clamped, EngineDb.Exact;
      CancelKeeps(store.cap, BookOf(store.db), id);
      CancelCases(BookOf(store.db), id);
      var found := store.HashFind(id);
      KeptSound(store.db, store.cap, null);
      IdsListed(store.db, store.cap, id, found);
      if found == null { return false, null, null; }
      o := found;
      l := StoreCalls.Revoke(store, found);
      ok := true;
    }
  }
}
