/** Level totals are 64-bit, and so is the checker's own sum: both wrap together when a true total does not
    fit, and a cancel can then leave a total that is wrong even modulo 2^64. */
module Totals {
  import opened Types
  import opened Rows
  import opened Store
  import opened PriceTime
  import opened StoreBook
  import opened StoreCount
  import opened BookRuns
  import opened EngineDb
  import StoreCalls
  import CheckedRuns
  import Hw = MatchingEngine

  const HALF: u64 := 0x8000_0000_0000_0000

  function Half(id: u64): Request {
    Request(id, 0, BUY, LIMIT, STP_NONE, 100, HALF)
  }

  function Halves(ids: seq<u64>): seq<Order> {
    if ids == [] then [] else [Resting(Half(ids[0]), HALF)] + Halves(ids[1..])
  }

  // Both orders are accepted and rest; the first fits the total of its price, the second does not.
  lemma BothRest(cap: nat, levels: nat)
    requires cap >= 2 && levels >= 1
    ensures Handwritten(cap, levels, Book([], []), Half(1)) == Verdict(true, [], Book([Resting(Half(1), HALF)], []))
    ensures PriceRoom(Book([], []), Half(1))
    ensures var b := Book([Resting(Half(1), HALF)], []);
      Handwritten(cap, levels, b, Half(2)) ==
          Verdict(true, [], Book([Resting(Half(1), HALF), Resting(Half(2), HALF)], []))
    ensures AtPrice([Resting(Half(1), HALF), Resting(Half(2), HALF)], 100) == TWO64
    ensures AtPrice([Resting(Half(2), HALF)], 100) == HALF
  {
    var o, p := Resting(Half(1), HALF), Resting(Half(2), HALF);
    assert !HasId([], 1) && !HasId([o], 2) && !HasId([], 2);
    assert Insert(BUY, p, [o]) == [o] + Insert(BUY, p, []);
    assert [o, p][1..] == [p] && [p][1..] == [];
    assert Prices([]) == {} && Prices([o]) == {100} by { assert [o][0].price == 100; }
  }

  lemma FirstLeaves()
    ensures var o, p := Resting(Half(1), HALF), Resting(Half(2), HALF);
      Cancel(Book([o, p], []), 1) == Outcome(CANCELLED, [], Book([p], []))
  {
    var o, p := Resting(Half(1), HALF), Resting(Half(2), HALF);
    assert HasId([o, p], 1) by { assert [o, p][0].id == 1; }
    assert [o, p][1..] == [p];
  }

  // When all orders are bids at one price there is one level, and it holds them all.
  lemma {:induction false} OnlyLevel(d: Db, cap: nat, l: LevelRow, price: u64)
    requires Kept(d, cap, null) && SideOf(d, SELL) == [] && l in d.prices
    requires forall i {:trigger SideOf(d, BUY)[i]} :: 0 <= i < |SideOf(d, BUY)| ==> SideOf(d, BUY)[i].price == price
    ensures l in Levels(d, BUY) && l in d.queues && d.prices[l] == price && d.Total(l) == AtPrice(SideOf(d, BUY), price)
  {
    var t := if l in Levels(d, BUY) then BUY else SELL;
    assert LevelKept(d, t, l, null) && Placed(d, t, l, 0);
    var m :| 0 <= m < |Levels(d, t)| && Levels(d, t)[m] == l;
    var o := d.queues[l][0];
    assert o in Queue(d.queues, Levels(d, t)[m]);
    FlatMember(d.queues, Levels(d, t), o);
    assert o in SideRows(d, t);
    var i :| 0 <= i < |SideRows(d, t)| && SideRows(d, t)[i] == o;
    Listed(d, cap, t, i);
    LevelTotal(d, cap, t, l, null);
  }

  lemma SameLevel(d: Db, cap: nat, l: LevelRow, m: LevelRow)
    requires Sound(d, cap) && l in Levels(d, BUY) && m in Levels(d, BUY) && l in d.prices && m in d.prices
    requires d.prices[l] == d.prices[m]
    ensures l == m
  {
    var ls := Levels(d, BUY);
    var i :| 0 <= i < |ls| && ls[i] == l;
    var j :| 0 <= j < |ls| && ls[j] == m;
    assert PricedApart(d, BUY, i, j) && PricedApart(d, BUY, j, i);
  }

  // The stored and the true total of the best bid, when all orders are bids at one price.
  method BestBid(store: EngineDb, ghost price: u64) returns (total: u64, ghost open: nat, ghost l: LevelRow)
    requires store.Valid() && Kept(store.db, store.cap, null) && SideOf(store.db, SELL) == []
    requires SideOf(store.db, BUY) != []
    requires forall i {:trigger SideOf(store.db, BUY)[i]} :: 0 <= i < |SideOf(store.db, BUY)| ==>
        SideOf(store.db, BUY)[i].price == price
    ensures l in store.db.prices && l in store.db.queues && total == l.total
    ensures open == store.db.Total(l) == AtPrice(SideOf(store.db, BUY), price)
    ensures l in store.levelRows && (store.Modular() ==> total == open % TWO64)
  {
    hide Kept, SideOf, AtPrice, Db.Total;
    BestHead(store.db, store.cap, BUY);
    store.Parts();
    hide store.Valid;
    var best := store.TreeBest(BUY);
    OnlyLevel(store.db, store.cap, best, price);
    total, open, l := best.total, store.db.Total(best), best;
    if store.Modular() { var was := store.TotalAt(false, l); }
  }

  // The order cancelled is the first one, and its level the only one.
  lemma FirstOrder(d: Db, cap: nat, o: OrderRow, m: LevelRow, n: LevelRow)
    requires Kept(d, cap, null) && BookOf(d) == Two()
    requires o in d.orders && d.orders[o].id == 1 && m in d.prices && n in d.prices
    ensures d.orders[o].remaining == HALF && m == n
  {
    OnBook(d, cap, o);
    assert d.orders[o] in [Resting(Half(1), HALF), Resting(Half(2), HALF)];
    hide SideOf, Kept;
    OnlyLevel(d, cap, m, 100);
    OnlyLevel(d, cap, n, 100);
    SoundOf(d, cap);
    SameLevel(d, cap, m, n);
  }

  lemma OnBook(d: Db, cap: nat, o: OrderRow)
    requires Kept(d, cap, null) && o in d.orders
    ensures d.orders[o] in BookOf(d).bids || d.orders[o] in BookOf(d).asks
  {
    var t, i := LiveListed(d, cap, o);
    assert SideOf(d, t)[i] in SideOf(d, t);
  }

  lemma SoundOf(d: Db, cap: nat)
    requires Kept(d, cap, null)
    ensures Sound(d, cap)
  {
  }

  // The book with both orders on it.
  function Two(): Book {
    Book([Resting(Half(1), HALF), Resting(Half(2), HALF)], [])
  }

  // Two bids of 2^63 at one price, into an empty engine: both are taken, and the totals stay right modulo 2^64.
  method SubmitBoth(hw: Hw.MatchingEngine) returns (accepted: bool)
    requires hw.Ready() && hw.store.Exact() && BookOf(hw.store.db) == Book([], []) && hw.store.cap >= 2
    requires hw.store.levelCap >= 1
    modifies hw.store`db, hw.store.orderPool, hw.store.levelPool, hw.store.index, hw.store.index.buckets
    modifies hw.store.bidTree, hw.store.askTree
    modifies hw.store.orderRows, hw.store.levelRows, hw`reported
    ensures accepted && hw.Ready() && hw.store.Modular() && BookOf(hw.store.db) == Two()
  {
    hide EngineDb.Valid, EngineDb.Exact, EngineDb.Modular, Kept, Fits, BookOf, Handwritten, AtPrice, PriceRoom;
    BothRest(hw.store.cap, hw.store.levelCap);
    accepted := hw.ProcessOrder(Half(1));
    var second := hw.ProcessOrder(Half(2));
    accepted := accepted && second;
  }

  // Two bids of 2^63 at one price: the handwritten engine takes both, the total it stores is 0 for a true total of
  // 2^64, and the checker passes.  It cancels the first: the stored total stays 0, the true one is 2^63, and the
  // checker fails.
  method WrappedTotal(hw: Hw.MatchingEngine)
    returns (accepted: bool, total: u64, ghost open: nat, passed: bool, cancelled: bool, after: u64, ghost left: nat,
        passes: bool)
    requires hw.Ready() && hw.store.Exact() && BookOf(hw.store.db) == Book([], []) && hw.store.cap >= 2
    requires hw.store.levelCap >= 1
    modifies hw.store`db, hw.store.orderPool, hw.store.levelPool, hw.store.index, hw.store.index.buckets
    modifies hw.store.bidTree, hw.store.askTree
    modifies hw.store.orderRows, hw.store.levelRows, hw`reported
    ensures accepted && total == 0 && open == TWO64 && passed
    ensures cancelled && after == 0 && left == HALF && !passes
  {
    hide EngineDb.Valid, EngineDb.Exact, EngineDb.Modular, Kept, Fits, SideOf, AtPrice, Cancel, Db.Total;
    ghost var l, o, m, n;
    BothRest(hw.store.cap, hw.store.levelCap);
    FirstLeaves();
    accepted := SubmitBoth(hw);
    total, open, l := BestBid(hw.store, 100);
    passed := CheckedRuns.CheckSteady(hw.store);
    ghost var d := hw.store.db;
    KeptQueues(d, hw.store.cap);
    cancelled, o, m := hw.CancelOrder(1);
    FirstOrder(d, hw.store.cap, o, m, l);
    after, left, n := BestBid(hw.store, 100);
    FirstOrder(d, hw.store.cap, o, m, n);
    passes := CheckedRuns.CheckSteady(hw.store);
  }

  lemma KeptQueues(d: Db, cap: nat)
    requires Kept(d, cap, null)
    ensures d.queues.Keys == d.prices.Keys
  {
  }
}
