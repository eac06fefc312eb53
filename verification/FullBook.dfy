/** What holds of the full-feature engine's book, stops and index, and how an order joins a side. */
module FullBook {
  import opened FullTypes
  import opened FullMatch
  import opened FullLaws
  import PreChecks

  // ---- the parts of the invariant, on values ----

  // Bids are the contra side of sellers, asks of buyers: best price first, nothing empty, nothing crossed.
  ghost predicate BookOk(bids: seq<Level>, asks: seq<Level>) {
    && LevelsOk(Sell, bids) && AllSettled(Buy, bids)
    && LevelsOk(Buy, asks) && AllSettled(Sell, asks)
    && (bids != [] && asks != [] ==> bids[0].price < asks[0].price)
  }

  // An order waiting for its trigger, as it was submitted.
  predicate StopOk(o: Order) {
    && (o.kind == StopLimit || o.kind == StopMarket) && o.stopPrice > 0
    && (if o.kind == StopLimit then o.price > 0 else o.price == 0)
    && o.remaining == o.quantity > 0 && o.minQty <= o.quantity && o.status == New && Plain(o)
  }

  // What validation settles about conditions, whatever the kind of order.
  predicate Plain(o: Order) {
    && o.display >= 0 && (o.display > 0 ==> o.kind == Limit) && o.minQty >= 0
    && (o.postOnly ==> o.kind == Limit && o.tif != Ioc && o.tif != Fok && o.minQty == 0)
    && (o.tif == Fok ==> o.minQty == 0) && (o.group != 0 ==> o.policy != NoPolicy)
    && (o.status == New || o.status == PartiallyFilled || o.status == Triggered)
  }

  // An order ready to be matched.
  predicate ActiveOk(o: Order) {
    && (o.kind == Limit || o.kind == Market || o.kind == MarketToLimit)
    && (if o.kind == Limit then o.price > 0 else o.price == 0)
    && (o.kind == MarketToLimit ==> o.tif != Ioc && o.tif != Fok)
    && o.remaining > 0 && o.minQty <= o.remaining && (o.tif == Fok ==> o.remaining == o.quantity) && Plain(o)
  }

  ghost predicate StopsOk(stops: seq<Order>) {
    forall i {:trigger stops[i]} :: 0 <= i < |stops| ==> StopOk(stops[i])
  }

  // The index holds exactly the orders on the book, the pending stops and those in flight, each once.
  ghost predicate IndexOk(idx: set<nat>, bids: seq<Level>, asks: seq<Level>, stops: seq<Order>, flying: multiset<nat>) {
    multiset(idx) == IdsIn(bids) + IdsIn(asks) + IdsOf(stops) + flying
  }

  // The i-th trade ever made carries number i + 1.
  ghost predicate Numbered(made: seq<Trade>, tid: nat) {
    tid == |made| + 1 && forall i {:trigger made[i]} :: 0 <= i < |made| ==> made[i].id == i + 1
  }

  // The last price is that of the last trade delivered.
  predicate LastOk(delivered: seq<Trade>, lastPx: int) {
    lastPx == if delivered == [] then 0 else delivered[|delivered| - 1].price
  }

  // ---- an order joins a side ----

  function Insert(side: Side, ls: seq<Level>, o: Order): seq<Level> {
    if ls == [] || Better(side, o.price, ls[0].price) then [Level(o.price, [o])] + ls
    else if ls[0].price == o.price then [ls[0].(queue := ls[0].queue + [o])] + ls[1..]
    else [ls[0]] + Insert(side, ls[1..], o)
  }

  lemma {:induction false} InsertIds(side: Side, ls: seq<Level>, o: Order)
    ensures IdsIn(Insert(side, ls, o)) == IdsIn(ls) + multiset{o.id}
  {
    if ls == [] || Better(side, o.price, ls[0].price) {
      assert ([Level(o.price, [o])] + ls)[1..] == ls;
      assert IdsOf([o]) == multiset{o.id};
    } else if ls[0].price == o.price {
      IdsAppend(ls[0].queue, [o]);
      assert IdsOf([o]) == multiset{o.id};
      assert Insert(side, ls, o)[1..] == ls[1..];
    } else {
      InsertIds(side, ls[1..], o);
      assert Insert(side, ls, o)[1..] == Insert(side, ls[1..], o);
    }
  }

  lemma PriceInTail(ls: seq<Level>, p: int)
    requires ls != [] && ls[0].price != p
    ensures HasPrice(ls, p) <==> HasPrice(ls[1..], p)
  {
    if HasPrice(ls, p) { var j :| 0 <= j < |ls| && ls[j].price == p; assert ls[1..][j - 1] == ls[j]; }
    if HasPrice(ls[1..], p) { var j :| 0 <= j < |ls[1..]| && ls[1..][j].price == p; assert ls[j + 1] == ls[1..][j]; }
  }

  // The prices of the side and the new order's, still strictly worse and worse.
  lemma {:induction false} InsertOk(side: Side, ls: seq<Level>, o: Order)
    requires LevelsOk(side, ls) && IcebergOk(o)
    ensures LevelsOk(side, Insert(side, ls, o)) && Insert(side, ls, o) != []
    ensures forall i {:trigger Insert(side, ls, o)[i]} :: 0 <= i < |Insert(side, ls, o)| ==>
      Insert(side, ls, o)[i].price == o.price || exists j {:trigger ls[j]} ::
          0 <= j < |ls| && Insert(side, ls, o)[i].price == ls[j].price
    ensures |Insert(side, ls, o)| == |ls| + if HasPrice(ls, o.price) then 0 else 1
  {
    var r := Insert(side, ls, o);
    if ls == [] || Better(side, o.price, ls[0].price) {
      forall i | 0 <= i < |r| ensures r[i] == if i == 0 then Level(o.price, [o]) else ls[i - 1] {}
      assert LevelOk(r[0]);
      forall j | 0 <= j < |ls| ensures ls[j].price != o.price {
        assert j > 0 ==> Better(side, ls[0].price, ls[j].price);
      }
    } else if ls[0].price == o.price {
      forall i | 0 <= i < |r| ensures r[i] == if i == 0 then ls[0].(queue := ls[0].queue + [o]) else ls[i] {}
      assert LevelOk(ls[0]);
      forall k | 0 <= k < |r[0].queue| ensures RestingOk(r[0].price, r[0].queue[k]) {
        if k < |ls[0].queue| { assert RestingOk(ls[0].price, ls[0].queue[k]); }
      }
      assert LevelOk(r[0]);
    } else {
      PreChecks.TailLevels(side, ls);
      InsertOk(side, ls[1..], o);
      var t := Insert(side, ls[1..], o);
      forall i | 0 <= i < |r| ensures r[i] == if i == 0 then ls[0] else t[i - 1] {}
      forall i | 0 < i < |r|
          ensures Better(side, r[0].price, r[i].price)
          && (r[i].price == o.price || exists j {:trigger ls[j]} :: 0 <= j < |ls| && r[i].price == ls[j].price) {
        if t[i - 1].price != o.price {
          var j :| 0 <= j < |ls[1..]| && t[i - 1].price == ls[1..][j].price;
          assert ls[1..][j] == ls[j + 1];
        }
      }
      PriceInTail(ls, o.price);
    }
  }

  predicate HasPrice(ls: seq<Level>, price: int) {
    exists j {:trigger ls[j]} :: 0 <= j < |ls| && ls[j].price == price
  }

  lemma {:induction false} InsertSettled(side: Side, own: Side, ls: seq<Level>, o: Order)
    requires AllSettled(own, ls) && Settled(own, o)
    ensures AllSettled(own, Insert(side, ls, o))
  {
    var r := Insert(side, ls, o);
    if ls == [] || Better(side, o.price, ls[0].price) {
      forall i, j | 0 <= i < |r| && 0 <= j < |r[i].queue| ensures Settled(own, r[i].queue[j]) {
        if i > 0 { assert r[i] == ls[i - 1] && Settled(own, ls[i - 1].queue[j]); }
      }
    } else if ls[0].price == o.price {
      forall i, j | 0 <= i < |r| && 0 <= j < |r[i].queue| ensures Settled(own, r[i].queue[j]) {
        if i > 0 {
          assert r[i] == ls[i] && Settled(own, ls[i].queue[j]);
        } else if j < |ls[0].queue| {
          assert Settled(own, ls[0].queue[j]);
        }
      }
    } else {
      forall i, j | 0 <= i < |ls[1..]| && 0 <= j < |ls[1..][i].queue| ensures Settled(own, ls[1..][i].queue[j]) {
        assert Settled(own, ls[i + 1].queue[j]);
      }
      InsertSettled(side, own, ls[1..], o);
      forall i, j | 0 <= i < |r| && 0 <= j < |r[i].queue| ensures Settled(own, r[i].queue[j]) {
        if i > 0 { assert r[i] == Insert(side, ls[1..], o)[i - 1]; } else { assert Settled(own, ls[0].queue[j]); }
      }
    }
  }

  // The order would not match the other side's best price.
  predicate NoCross(o: Order, contra: seq<Level>) {
    contra == [] || !CanMatch(o, contra[0].price)
  }

  lemma {:induction false} BookInsert(bids: seq<Level>, asks: seq<Level>, o: Order)
    requires BookOk(bids, asks) && Settled(o.side, o) && IcebergOk(o)
    requires NoCross(o, if o.side == Buy then asks else bids)
    ensures o.side == Buy ==> BookOk(Insert(Sell, bids, o), asks)
    ensures o.side == Sell ==> BookOk(bids, Insert(Buy, asks, o))
  {
    var ls := if o.side == Buy then bids else asks;
    InsertOk(Other(o.side), ls, o);
    InsertSettled(Other(o.side), o.side, ls, o);
    var r := Insert(Other(o.side), ls, o);
    if r[0].price != o.price {
      var j :| 0 <= j < |ls| && r[0].price == ls[j].price;
      assert j > 0 ==> Better(Other(o.side), ls[0].price, ls[j].price);
    }
  }

  lemma {:induction false} BookInserted(bids: seq<Level>, asks: seq<Level>, o: Order)
    requires BookOk(bids, asks) && Settled(o.side, o) && IcebergOk(o)
    requires NoCross(o, if o.side == Buy then asks else bids)
    ensures var ls := if o.side == Buy then bids else asks; var r := Insert(Other(o.side), ls, o);
      && (if o.side == Buy then BookOk(r, asks) else BookOk(bids, r))
      && IdsIn(r) == IdsIn(ls) + multiset{o.id} && |r| == |ls| + if HasPrice(ls, o.price) then 0 else 1
  {
    var ls := if o.side == Buy then bids else asks;
    BookInsert(bids, asks, o);
    InsertOk(Other(o.side), ls, o);
    InsertIds(Other(o.side), ls, o);
  }

  // Matching leaves the book in order.
  lemma {:induction false} BookMatched(bids: seq<Level>, asks: seq<Level>, s: State, base: nat)
    requires BookOk(bids, asks) && TakerOk(s.inc) && s.levels == if s.inc.side == Buy then asks else bids
    ensures Ok(s)
    ensures var t := Matched(s, base); if s.inc.side == Buy then BookOk(bids, t.levels) else BookOk(t.levels, asks)
  {
    MatchedFollows(s, base, Other(s.inc.side));
  }

  // ---- stops ----

  // A stop fires at this trade price.
  predicate Fires(o: Order, px: int) {
    if o.side == Buy then px >= o.stopPrice else px <= o.stopPrice
  }

  // The order a stop turns into.
  function Released(o: Order): Order {
    o.(status := Triggered, kind := if o.kind == StopLimit then Limit else Market, stopPrice := 0)
  }

  // The i-th order goes, and the last one takes its place.
  function SwapOut(q: seq<Order>, i: nat): seq<Order>
    requires i < |q|
  {
    q[i := q[|q| - 1]][..|q| - 1]
  }

  lemma {:induction false} IdsSplit(q: seq<Order>, i: nat)
    requires i < |q|
    ensures IdsOf(q) == IdsOf(q[..i]) + multiset{q[i].id} + IdsOf(q[i + 1..])
  {
    assert q == q[..i] + q[i..] && q[i..][1..] == q[i + 1..];
    IdsAppend(q[..i], q[i..]);
    FirstId(q[i..]);
    hide IdsOf;
  }

  lemma SwapOutAt(q: seq<Order>, i: nat)
    requires i < |q|
    ensures |SwapOut(q, i)| == |q| - 1
    ensures forall j {:trigger SwapOut(q, i)[j]} :: 0 <= j < |q| - 1 ==> SwapOut(q, i)[j] == if j == i then q[|q| - 1]
        else q[j]
  {
  }

  lemma SwapOutAll(q: seq<Order>, i: nat)
    requires i < |q|
    ensures multiset(q) == multiset(SwapOut(q, i)) + multiset{q[i]}
  {
    var n, r := |q| - 1, SwapOut(q, i);
    assert q == q[..n] + [q[n]];
    if i < n {
      assert q[..n] == q[..i] + [q[i]] + q[i + 1..n];
      assert r == q[..i] + [q[n]] + q[i + 1..n];
    } else {
      assert r == q[..n];
    }
  }

  lemma {:induction false} SwapOutIds(q: seq<Order>, i: nat)
    requires i < |q|
    ensures IdsOf(q) == IdsOf(SwapOut(q, i)) + multiset{q[i].id}
  {
    var n, r := |q| - 1, SwapOut(q, i);
    IdsSplit(q, n);
    assert q[n + 1..] == [];
    if i < n {
      IdsSplit(q[..n], i);
      IdsSplit(r, i);
      assert r[..i] == q[..n][..i] && r[i + 1..] == q[..n][i + 1..];
      hide IdsOf, SwapOut;
    } else {
      assert r == q[..n];
    }
  }

  // Earliest first.
  function Later(o: Order, q: seq<Order>): seq<Order> {
    if q == [] || o.timestamp <= q[0].timestamp then [o] + q else [q[0]] + Later(o, q[1..])
  }

  function ByTime(q: seq<Order>): seq<Order> {
    if q == [] then [] else Later(q[0], ByTime(q[1..]))
  }

  ghost predicate TimeSorted(q: seq<Order>) {
    forall i, j {:trigger q[i], q[j]} :: 0 <= i < j < |q| ==> q[i].timestamp <= q[j].timestamp
  }

  lemma {:induction false} LaterIs(o: Order, q: seq<Order>)
    ensures multiset(Later(o, q)) == multiset(q) + multiset{o} && IdsOf(Later(o, q)) == IdsOf(q) + multiset{o.id}
  {
    if q == [] || o.timestamp <= q[0].timestamp {
      assert ([o] + q)[1..] == q;
    } else {
      LaterIs(o, q[1..]);
      assert ([q[0]] + Later(o, q[1..]))[1..] == Later(o, q[1..]) && q == [q[0]] + q[1..];
    }
  }

  lemma {:induction false} LaterSorted(o: Order, q: seq<Order>)
    requires TimeSorted(q)
    ensures TimeSorted(Later(o, q))
    ensures forall i {:trigger Later(o, q)[i]} :: 0 <= i < |Later(o, q)| ==> Later(o, q)[i] == o || Later(o, q)[i] in q
  {
    var r := Later(o, q);
    if q == [] || o.timestamp <= q[0].timestamp {
      forall i | 0 <= i < |r| ensures r[i] == if i == 0 then o else q[i - 1] {}
    } else {
      LaterSorted(o, q[1..]);
      var t := Later(o, q[1..]);
      forall i | 0 <= i < |r| ensures r[i] == if i == 0 then q[0] else t[i - 1] {}
      forall i | 0 <= i < |t| ensures q[0].timestamp <= t[i].timestamp && (t[i] == o || t[i] in q) {
        if t[i] != o {
          var k :| 0 <= k < |q| - 1 && q[1..][k] == t[i];
          assert q[k + 1] == t[i];
        }
      }
    }
  }

  // Sorted, and the same orders.
  lemma {:induction false} ByTimeIs(q: seq<Order>)
    ensures multiset(ByTime(q)) == multiset(q) && IdsOf(ByTime(q)) == IdsOf(q) && TimeSorted(ByTime(q))
  {
    if q != [] {
      var o, r := q[0], ByTime(q[1..]);
      ByTimeIs(q[1..]);
      LaterIs(o, r);
      LaterSorted(o, r);
      FirstId(q);
      assert ByTime(q) == Later(o, r);
      hide Later, TimeSorted, ByTime, IdsOf;
      FirstOf(q);
    }
  }

  lemma FirstOf(q: seq<Order>)
    requires q != []
    ensures multiset(q) == multiset(q[1..]) + multiset{q[0]}
  {
    assert q == [q[0]] + q[1..];
  }

  // ---- one order by its id ----

  predicate Among(q: seq<Order>, id: nat) {
    q != [] && (q[0].id == id || Among(q[1..], id))
  }

  predicate OnSide(ls: seq<Level>, id: nat) {
    ls != [] && (Among(ls[0].queue, id) || OnSide(ls[1..], id))
  }

  function Pick(q: seq<Order>, id: nat): Order
    requires Among(q, id)
  {
    if q[0].id == id then q[0] else Pick(q[1..], id)
  }

  function Get(ls: seq<Level>, id: nat): Order
    requires OnSide(ls, id)
  {
    if Among(ls[0].queue, id) then Pick(ls[0].queue, id) else Get(ls[1..], id)
  }

  function Drop(q: seq<Order>, id: nat): seq<Order> {
    if q == [] then [] else if q[0].id == id then q[1..] else [q[0]] + Drop(q[1..], id)
  }

  // The side without this order, and without its level if the order was the last of it.
  function Remove(ls: seq<Level>, id: nat): seq<Level> {
    if ls == [] then []
    else if Among(ls[0].queue, id) then WithQueue(ls, Drop(ls[0].queue, id))
    else [ls[0]] + Remove(ls[1..], id)
  }

  lemma {:induction false} AmongIds(q: seq<Order>, id: nat)
    ensures Among(q, id) <==> id in IdsOf(q)
    ensures Among(q, id) ==> Pick(q, id) in q && Pick(q, id).id == id && IdsOf(q) == IdsOf(Drop(q, id)) + multiset{id}
    ensures forall o {:trigger o in Drop(q, id)} :: o in Drop(q, id) ==> o in q
  {
    if q != [] {
      AmongIds(q[1..], id);
      if q[0].id != id { assert ([q[0]] + Drop(q[1..], id))[1..] == Drop(q[1..], id); }
    }
  }

  lemma {:induction false} OnSideIds(ls: seq<Level>, id: nat)
    ensures OnSide(ls, id) <==> id in IdsIn(ls)
  {
    if ls != [] {
      AmongIds(ls[0].queue, id);
      OnSideIds(ls[1..], id);
    }
  }

  lemma {:induction false} RemoveIds(ls: seq<Level>, id: nat)
    requires OnSide(ls, id)
    ensures IdsIn(ls) == IdsIn(Remove(ls, id)) + multiset{id} && Get(ls, id).id == id
  {
    AmongIds(ls[0].queue, id);
    if Among(ls[0].queue, id) {
      WithQueueIds(ls, Drop(ls[0].queue, id));
    } else {
      RemoveIds(ls[1..], id);
      assert ([ls[0]] + Remove(ls[1..], id))[1..] == Remove(ls[1..], id);
    }
  }

  lemma QueueMembers(l: Level, q: seq<Order>)
    requires LevelOk(l) && q != [] && forall o {:trigger o in q} :: o in q ==> o in l.queue
    ensures LevelOk(l.(queue := q))
  {
    forall i | 0 <= i < |q| ensures RestingOk(l.price, q[i]) {
      assert q[i] in q;
      var j :| 0 <= j < |l.queue| && l.queue[j] == q[i];
    }
  }

  // Removing an order keeps the levels in order and makes no price better.
  lemma {:induction false} RemoveOk(side: Side, own: Side, ls: seq<Level>, id: nat)
    requires LevelsOk(side, ls) && AllSettled(own, ls) && OnSide(ls, id)
    ensures LevelsOk(side, Remove(ls, id)) && AllSettled(own, Remove(ls, id)) && NoBetter(side, ls, Remove(ls, id))
    ensures |ls| - 1 <= |Remove(ls, id)| <= |ls| && Settled(own, Get(ls, id)) && IcebergOk(Get(ls, id))
    decreases |ls|
  {
    var l := ls[0];
    AmongIds(l.queue, id);
    if Among(l.queue, id) {
      RemoveHere(side, own, ls, id);
    } else {
      PreChecks.TailLevels(side, ls);
      forall i, j | 0 <= i < |ls[1..]| && 0 <= j < |ls[1..][i].queue| ensures Settled(own, ls[1..][i].queue[j]) {
        assert Settled(own, ls[i + 1].queue[j]);
      }
      RemoveOk(side, own, ls[1..], id);
      RemoveLater(side, own, ls, Remove(ls[1..], id));
    }
  }

  lemma {:induction false} RemoveHere(side: Side, own: Side, ls: seq<Level>, id: nat)
    requires LevelsOk(side, ls) && AllSettled(own, ls) && ls != [] && Among(ls[0].queue, id)
    ensures var r := WithQueue(ls, Drop(ls[0].queue, id));
        LevelsOk(side, r) && AllSettled(own, r) && NoBetter(side, ls, r)
    ensures Settled(own, Pick(ls[0].queue, id)) && IcebergOk(Pick(ls[0].queue, id))
  {
    var l := ls[0];
    var q := Drop(l.queue, id);
    AmongIds(l.queue, id);
    assert LevelOk(l);
    forall i | 0 <= i < |q| ensures Settled(own, q[i]) {
      assert q[i] in q;
      var j :| 0 <= j < |l.queue| && l.queue[j] == q[i];
      assert Settled(own, ls[0].queue[j]);
    }
    if q != [] { QueueMembers(l, q); }
    WithQueueOk(side, ls, q);
    WithQueueSettled(own, ls, q);
    WithQueueNoBetter(side, ls, q);
    var k :| 0 <= k < |l.queue| && l.queue[k] == Pick(l.queue, id);
    assert Settled(own, ls[0].queue[k]) && RestingOk(l.price, l.queue[k]);
  }

  lemma NoBetterAt(side: Side, a: seq<Level>, b: seq<Level>, i: nat)
    requires NoBetter(side, a, b) && i < |b|
    ensures a != [] && !Better(side, b[i].price, a[0].price)
  {
  }

  lemma RemoveLater(side: Side, own: Side, ls: seq<Level>, rest: seq<Level>)
    requires LevelsOk(side, ls) && AllSettled(own, ls) && ls != [] && LevelsOk(side, rest) && AllSettled(own, rest)
    requires NoBetter(side, ls[1..], rest)
    ensures var r := [ls[0]] + rest; LevelsOk(side, r) && AllSettled(own, r) && NoBetter(side, ls, r)
  {
    var r := [ls[0]] + rest;
    forall i | 0 <= i < |r| ensures r[i] == if i == 0 then ls[0] else rest[i - 1] {}
    forall i | 0 <= i < |rest| ensures Better(side, ls[0].price, rest[i].price) {
      NoBetterAt(side, ls[1..], rest, i);
      assert ls[1..][0] == ls[1];
    }
    forall i, j | 0 <= i < |r| && 0 <= j < |r[i].queue| ensures Settled(own, r[i].queue[j]) {
      if i > 0 {
        assert r[i] == rest[i - 1] && Settled(own, rest[i - 1].queue[j]);
      } else {
        assert Settled(own, ls[0].queue[j]);
      }
    }
    assert LevelOk(ls[0]);
  }

  // Taking an order off either side leaves the book in order.
  lemma BookRemove(bids: seq<Level>, asks: seq<Level>, side: Side, id: nat)
    requires BookOk(bids, asks) && OnSide(if side == Buy then bids else asks, id)
    ensures side == Buy ==> BookOk(Remove(bids, id), asks) && IdsIn(bids) == IdsIn(Remove(bids, id)) + multiset{id}
    ensures side == Sell ==> BookOk(bids, Remove(asks, id)) && IdsIn(asks) == IdsIn(Remove(asks, id)) + multiset{id}
    ensures var ls := if side == Buy then bids else asks;
        |Remove(ls, id)| <= |ls| && Settled(side, Get(ls, id)) && IcebergOk(Get(ls, id)) && Get(ls, id).id == id
  {
    var ls := if side == Buy then bids else asks;
    RemoveIds(ls, id);
    RemoveOk(Other(side), side, ls, id);
  }

  // ---- an order rewritten in place ----

  function Rewrite(q: seq<Order>, o: Order): seq<Order> {
    if q == [] then [] else if q[0].id == o.id then [o] + q[1..] else [q[0]] + Rewrite(q[1..], o)
  }

  function RewriteIn(ls: seq<Level>, o: Order): seq<Level> {
    if ls == [] then []
    else if Among(ls[0].queue, o.id) then [ls[0].(queue := Rewrite(ls[0].queue, o))] + ls[1..]
    else [ls[0]] + RewriteIn(ls[1..], o)
  }

  lemma {:induction false} RewriteIs(q: seq<Order>, o: Order)
    requires Among(q, o.id)
    ensures IdsOf(Rewrite(q, o)) == IdsOf(q) && |Rewrite(q, o)| == |q|
    ensures forall i {:trigger Rewrite(q, o)[i]} :: 0 <= i < |q| ==>
        Rewrite(q, o)[i] == q[i] || (Rewrite(q, o)[i] == o && q[i].id == o.id)
  {
    if q[0].id == o.id {
      assert ([o] + q[1..])[1..] == q[1..];
    } else {
      RewriteIs(q[1..], o);
      assert ([q[0]] + Rewrite(q[1..], o))[1..] == Rewrite(q[1..], o);
    }
  }

  lemma {:induction false} RewriteLevelOk(own: Side, l: Level, o: Order)
    requires LevelOk(l) && Among(l.queue, o.id) && Settled(own, o) && IcebergOk(o)
    requires o.price == Pick(l.queue, o.id).price
    requires forall j {:trigger l.queue[j]} :: 0 <= j < |l.queue| ==> Settled(own, l.queue[j])
    ensures var q := Rewrite(l.queue, o);
      LevelOk(l.(queue := q)) && forall j {:trigger q[j]} :: 0 <= j < |q| ==> Settled(own, q[j])
  {
    RewriteIs(l.queue, o);
    AmongIds(l.queue, o.id);
    var q := Rewrite(l.queue, o);
    var k :| 0 <= k < |l.queue| && l.queue[k] == Pick(l.queue, o.id);
    assert RestingOk(l.price, l.queue[k]);
    forall j | 0 <= j < |q| ensures RestingOk(l.price, q[j]) && Settled(own, q[j]) {
      assert RestingOk(l.price, l.queue[j]) && Settled(own, l.queue[j]);
    }
  }

  // Lowering what remains of a resting order keeps its side in order.
  lemma {:induction false} RewriteOk(side: Side, own: Side, ls: seq<Level>, o: Order)
    requires LevelsOk(side, ls) && AllSettled(own, ls) && OnSide(ls, o.id)
    requires Settled(own, o) && IcebergOk(o) && o.price == Get(ls, o.id).price
    ensures LevelsOk(side, RewriteIn(ls, o)) && AllSettled(own, RewriteIn(ls, o))
    ensures IdsIn(RewriteIn(ls, o)) == IdsIn(ls)
    ensures |RewriteIn(ls, o)| == |ls|
    ensures forall i {:trigger RewriteIn(ls, o)[i]} :: 0 <= i < |ls| ==> RewriteIn(ls, o)[i].price == ls[i].price
    decreases |ls|
  {
    var l, r := ls[0], RewriteIn(ls, o);
    assert LevelOk(l);
    if Among(l.queue, o.id) {
      RewriteIs(l.queue, o);
      RewriteLevelOk(own, l, o);
      assert r[1..] == ls[1..];
      forall i | 0 < i < |r| ensures r[i] == ls[i] {}
      forall i, j | 0 <= i < |r| && 0 <= j < |r[i].queue| ensures Settled(own, r[i].queue[j]) {
        if i > 0 { assert Settled(own, ls[i].queue[j]); }
      }
    } else {
      PreChecks.TailLevels(side, ls);
      forall i, j | 0 <= i < |ls[1..]| && 0 <= j < |ls[1..][i].queue| ensures Settled(own, ls[1..][i].queue[j]) {
        assert Settled(own, ls[i + 1].queue[j]);
      }
      RewriteOk(side, own, ls[1..], o);
      var t := RewriteIn(ls[1..], o);
      assert r[1..] == t;
      forall i | 0 <= i < |r| ensures r[i] == if i == 0 then ls[0] else t[i - 1] {}
      forall i | 0 <= i < |r| ensures r[i].price == ls[i].price { if i > 0 { assert ls[1..][i - 1] == ls[i]; } }
      forall i, j | 0 <= i < |r| && 0 <= j < |r[i].queue| ensures Settled(own, r[i].queue[j]) {
        if i > 0 {
          assert r[i] == t[i - 1] && Settled(own, t[i - 1].queue[j]);
        } else {
          assert Settled(own, ls[0].queue[j]);
        }
      }
    }
  }

  lemma BookRewrite(bids: seq<Level>, asks: seq<Level>, o: Order)
    requires BookOk(bids, asks) && OnSide(if o.side == Buy then bids else asks, o.id)
    requires Settled(o.side, o) && IcebergOk(o) && o.price == Get(if o.side == Buy then bids else asks, o.id).price
    ensures var ls := if o.side == Buy then bids else asks; var r := RewriteIn(ls, o);
      (if o.side == Buy then BookOk(r, asks) else BookOk(bids, r)) && IdsIn(r) == IdsIn(ls) && |r| == |ls|
  {
    var ls := if o.side == Buy then bids else asks;
    RewriteOk(Other(o.side), o.side, ls, o);
    if ls != [] { assert RewriteIn(ls, o)[0].price == ls[0].price; }
  }

  // ---- expiry ----

  predicate Expires(o: Order, t: nat) {
    o.tif == Day || (o.tif == Gtd && o.expire > 0 && t >= o.expire)
  }

  function ExpiredOf(q: seq<Order>, t: nat): seq<nat> {
    if q == [] then [] else (if Expires(q[0], t) then [q[0].id] else []) + ExpiredOf(q[1..], t)
  }

  function ExpiredIn(ls: seq<Level>, t: nat): seq<nat> {
    if ls == [] then [] else ExpiredOf(ls[0].queue, t) + ExpiredIn(ls[1..], t)
  }

  lemma {:induction false} ExpiredBelow(q: seq<Order>, t: nat)
    ensures multiset(ExpiredOf(q, t)) <= IdsOf(q)
  {
    if q != [] {
      ExpiredBelow(q[1..], t);
      if Expires(q[0], t) {
        assert multiset([q[0].id] + ExpiredOf(q[1..], t)) == multiset{q[0].id} + multiset(ExpiredOf(q[1..], t));
      } else {
        assert [] + ExpiredOf(q[1..], t) == ExpiredOf(q[1..], t);
      }
    }
  }

  lemma {:induction false} ExpiredBelowIn(ls: seq<Level>, t: nat)
    ensures multiset(ExpiredIn(ls, t)) <= IdsIn(ls)
  {
    if ls != [] {
      ExpiredBelow(ls[0].queue, t);
      ExpiredBelowIn(ls[1..], t);
      assert multiset(ExpiredOf(ls[0].queue, t) + ExpiredIn(ls[1..], t)) ==
          multiset(ExpiredOf(ls[0].queue, t)) + multiset(ExpiredIn(ls[1..], t));
    }
  }

  // An expired order that leaves takes just its own id off the list of the expired.
  lemma {:induction false} DropExpired(q: seq<Order>, t: nat, id: nat)
    requires id in multiset(ExpiredOf(q, t)) && IdsOf(q)[id] == 1
    ensures Among(q, id) && multiset(ExpiredOf(q, t)) == multiset(ExpiredOf(Drop(q, id), t)) + multiset{id}
  {
    assert q != [];
    ExpiredHead(q, t);
    FirstId(q);
    ExpiredBelow(q[1..], t);
    hide ExpiredOf, IdsOf;
    if q[0].id != id {
      DropExpired(q[1..], t, id);
      var r := [q[0]] + Drop(q[1..], id);
      assert r[1..] == Drop(q[1..], id);
      ExpiredHead(r, t);
    } else {
      assert multiset(ExpiredOf(q[1..], t))[id] <= IdsOf(q[1..])[id] == 0;
    }
  }

  lemma {:induction false} ExpiredHead(q: seq<Order>, t: nat)
    requires q != []
    ensures multiset(ExpiredOf(q, t)) ==
        (if Expires(q[0], t) then multiset{q[0].id} else multiset{}) + multiset(ExpiredOf(q[1..], t))
  {
  }

  lemma {:induction false} RemoveExpired(ls: seq<Level>, t: nat, id: nat)
    requires id in multiset(ExpiredIn(ls, t)) && IdsIn(ls)[id] == 1
    ensures OnSide(ls, id) && multiset(ExpiredIn(ls, t)) == multiset(ExpiredIn(Remove(ls, id), t)) + multiset{id}
  {
    hide IdsIn, IdsOf, ExpiredIn, ExpiredOf;
    ExpiredApart(ls, t, id);
    var q := ls[0].queue;
    if Among(q, id) {
      DropExpired(q, t, id);
      ExpiredWith(ls, Drop(q, id), t);
    } else {
      RemoveExpired(ls[1..], t, id);
      var r := [ls[0]] + Remove(ls[1..], id);
      assert r[1..] == Remove(ls[1..], id);
      ExpiredFirst(r, t);
    }
  }

  // An id that rests once is among the expired of the first level, or of the others.
  lemma {:induction false} ExpiredApart(ls: seq<Level>, t: nat, id: nat)
    requires id in multiset(ExpiredIn(ls, t)) && IdsIn(ls)[id] == 1
    ensures ls != []
    ensures multiset(ExpiredIn(ls, t)) == multiset(ExpiredOf(ls[0].queue, t)) + multiset(ExpiredIn(ls[1..], t))
    ensures if Among(ls[0].queue, id) then IdsOf(ls[0].queue)[id] == 1 && id !in multiset(ExpiredIn(ls[1..], t))
            else IdsIn(ls[1..])[id] == 1 && id !in multiset(ExpiredOf(ls[0].queue, t))
  {
    var q := ls[0].queue;
    ExpiredFirst(ls, t);
    HeadIds(ls);
    ExpiredBelow(q, t);
    ExpiredBelowIn(ls[1..], t);
    AmongIds(q, id);
  }

  lemma {:induction false} ExpiredFirst(ls: seq<Level>, t: nat)
    requires ls != []
    ensures multiset(ExpiredIn(ls, t)) == multiset(ExpiredOf(ls[0].queue, t)) + multiset(ExpiredIn(ls[1..], t))
  {
  }

  lemma {:induction false} ExpiredWith(ls: seq<Level>, q: seq<Order>, t: nat)
    requires ls != []
    ensures multiset(ExpiredIn(WithQueue(ls, q), t)) == multiset(ExpiredOf(q, t)) + multiset(ExpiredIn(ls[1..], t))
  {
    if q != [] { assert WithQueue(ls, q)[1..] == ls[1..]; }
  }

  lemma {:induction false} ExpiredAppend(a: seq<Order>, b: seq<Order>, t: nat)
    ensures ExpiredOf(a + b, t) == ExpiredOf(a, t) + ExpiredOf(b, t)
  {
    if a == [] {
      assert a + b == b;
    } else {
      assert (a + b)[1..] == a[1..] + b && (a + b)[0] == a[0];
      ExpiredAppend(a[1..], b, t);
      var one := if Expires(a[0], t) then [a[0].id] else [];
      assert ExpiredOf(a + b, t) == one + ExpiredOf(a[1..] + b, t);
      assert one + (ExpiredOf(a[1..], t) + ExpiredOf(b, t)) == one + ExpiredOf(a[1..], t) + ExpiredOf(b, t);
    }
  }

  lemma {:induction false} ExpiredSplit(q: seq<Order>, i: nat, t: nat)
    requires i < |q|
    ensures multiset(ExpiredOf(q, t)) ==
        multiset(ExpiredOf(q[..i], t)) + (if Expires(q[i], t) then multiset{q[i].id} else multiset{})
        + multiset(ExpiredOf(q[i + 1..], t))
  {
    assert q == q[..i] + q[i..] && q[i..][1..] == q[i + 1..];
    ExpiredAppend(q[..i], q[i..], t);
  }

  lemma {:induction false} ExpiredSwap(q: seq<Order>, i: nat, t: nat)
    requires i < |q| && Expires(q[i], t)
    ensures multiset(ExpiredOf(q, t)) == multiset(ExpiredOf(SwapOut(q, i), t)) + multiset{q[i].id}
  {
    var n, r := |q| - 1, SwapOut(q, i);
    ExpiredSplit(q, n, t);
    assert q[n + 1..] == [];
    if i < n {
      ExpiredSplit(q[..n], i, t);
      ExpiredSplit(r, i, t);
      assert r[..i] == q[..n][..i] && r[i + 1..] == q[..n][i + 1..];
      hide ExpiredOf, SwapOut;
    } else {
      assert r == q[..n];
    }
  }

  lemma {:induction false} NoneExpired(q: seq<Order>, t: nat)
    requires forall i {:trigger q[i]} :: 0 <= i < |q| ==> !Expires(q[i], t)
    ensures ExpiredOf(q, t) == []
  {
    if q != [] { NoneExpired(q[1..], t); }
  }

  // ---- what is left after expiry ----

  // The orders whose time has not come: no day orders, and of those good till a date the ones whose date is later.
  function LiveOf(q: seq<Order>, t: nat): seq<Order> {
    if q == [] then []
    else if q[0].tif == Day || (q[0].tif == Gtd && 0 < q[0].expire <= t) then LiveOf(q[1..], t)
    else [q[0]] + LiveOf(q[1..], t)
  }

  // The side without its expired orders, and without levels that held no others.
  function LiveIn(ls: seq<Level>, t: nat): seq<Level> {
    if ls == [] then [] else LiveFirst(ls[0], LiveOf(ls[0].queue, t), LiveIn(ls[1..], t))
  }

  function LiveFirst(l: Level, q: seq<Order>, rest: seq<Level>): seq<Level> {
    if q == [] then rest else [l.(queue := q)] + rest
  }

  lemma {:induction false} DropLive(q: seq<Order>, t: nat, id: nat)
    requires id in multiset(ExpiredOf(q, t)) && IdsOf(q)[id] == 1
    ensures LiveOf(Drop(q, id), t) == LiveOf(q, t)
  {
    assert q != [];
    ExpiredHead(q, t);
    LiveHead(q, t);
    FirstId(q);
    ExpiredBelow(q[1..], t);
    if q[0].id != id {
      hide ExpiredOf, IdsOf, LiveOf;
      DropLive(q[1..], t, id);
      var r := [q[0]] + Drop(q[1..], id);
      assert r[1..] == Drop(q[1..], id);
      LiveHead(r, t);
    } else {
      hide ExpiredOf, IdsOf, LiveOf;
      assert multiset(ExpiredOf(q[1..], t))[id] <= IdsOf(q[1..])[id] == 0;
      assert Expires(q[0], t);
    }
  }

  lemma {:induction false} LiveHead(q: seq<Order>, t: nat)
    requires q != []
    ensures LiveOf(q, t) == if Expires(q[0], t) then LiveOf(q[1..], t) else [q[0]] + LiveOf(q[1..], t)
  {
  }

  // An expired order that leaves makes no difference to the others.
  lemma {:induction false} RemoveLive(ls: seq<Level>, t: nat, id: nat)
    requires id in multiset(ExpiredIn(ls, t)) && IdsIn(ls)[id] == 1
    ensures LiveIn(Remove(ls, id), t) == LiveIn(ls, t)
  {
    var q := ls[0].queue;
    ExpiredFirst(ls, t);
    HeadIds(ls);
    ExpiredBelow(q, t);
    ExpiredBelowIn(ls[1..], t);
    AmongIds(q, id);
    assert IdsIn(ls)[id] == IdsOf(q)[id] + IdsIn(ls[1..])[id];
    if Among(q, id) {
      hide IdsIn, IdsOf, ExpiredIn;
      assert IdsIn(ls[1..])[id] == 0 && multiset(ExpiredIn(ls[1..], t))[id] == 0;
      DropLive(q, t, id);
      LiveWith(ls, Drop(q, id), t);
    } else {
      hide IdsIn, IdsOf, ExpiredIn;
      assert IdsOf(q)[id] == 0 && multiset(ExpiredOf(q, t))[id] == 0;
      RemoveLive(ls[1..], t, id);
      var r := [ls[0]] + Remove(ls[1..], id);
      assert r[1..] == Remove(ls[1..], id);
    }
  }

  lemma {:induction false} LiveWith(ls: seq<Level>, q: seq<Order>, t: nat)
    requires ls != []
    ensures LiveIn(WithQueue(ls, q), t) == LiveFirst(ls[0], LiveOf(q, t), LiveIn(ls[1..], t))
  {
    if q != [] { assert WithQueue(ls, q)[1..] == ls[1..]; }
  }

  lemma {:induction false} AllLiveOf(q: seq<Order>, t: nat)
    requires ExpiredOf(q, t) == []
    ensures LiveOf(q, t) == q
  {
    if q != [] { AllLiveOf(q[1..], t); }
  }

  lemma {:induction false} AllLive(side: Side, ls: seq<Level>, t: nat)
    requires LevelsOk(side, ls) && ExpiredIn(ls, t) == []
    ensures LiveIn(ls, t) == ls
  {
    if ls != [] {
      assert LevelOk(ls[0]) && ls[0].queue != [];
      AllLiveOf(ls[0].queue, t);
      PreChecks.TailLevels(side, ls);
      AllLive(side, ls[1..], t);
    }
  }

  lemma {:induction false} LiveAppend(a: seq<Order>, b: seq<Order>, t: nat)
    ensures LiveOf(a + b, t) == LiveOf(a, t) + LiveOf(b, t)
  {
    if a == [] {
      assert a + b == b;
    } else {
      assert (a + b)[1..] == a[1..] + b && (a + b)[0] == a[0];
      LiveAppend(a[1..], b, t);
      var one := if Expires(a[0], t) then [] else [a[0]];
      assert LiveOf(a + b, t) == one + LiveOf(a[1..] + b, t);
      assert one + (LiveOf(a[1..], t) + LiveOf(b, t)) == one + LiveOf(a[1..], t) + LiveOf(b, t);
    }
  }

  lemma {:induction false} LiveSplit(q: seq<Order>, i: nat, t: nat)
    requires i < |q|
    ensures multiset(LiveOf(q, t)) ==
        multiset(LiveOf(q[..i], t)) + (if Expires(q[i], t) then multiset{} else multiset{q[i]})
        + multiset(LiveOf(q[i + 1..], t))
  {
    assert q == q[..i] + q[i..] && q[i..][1..] == q[i + 1..];
    LiveAppend(q[..i], q[i..], t);
  }

  // A stop that expires makes no difference to the others.
  lemma {:induction false} SwapLive(q: seq<Order>, i: nat, t: nat)
    requires i < |q| && Expires(q[i], t)
    ensures multiset(LiveOf(SwapOut(q, i), t)) == multiset(LiveOf(q, t))
  {
    var n, r := |q| - 1, SwapOut(q, i);
    LiveSplit(q, n, t);
    assert q[n + 1..] == [];
    if i < n {
      LiveSplit(q[..n], i, t);
      LiveSplit(r, i, t);
      assert r[..i] == q[..n][..i] && r[i + 1..] == q[..n][i + 1..];
      hide LiveOf, SwapOut;
    } else {
      assert r == q[..n];
    }
  }

  // ---- submission ----

  datatype Input = Input(id: nat, side: Side, kind: OrderType, tif: TimeInForce, price: int, stopPrice: int,
                         quantity: int, minQty: int, display: int, postOnly: bool, expire: nat, group: nat,
                         policy: Policy)

  function NewOrder(x: Input, now: nat): Order {
    Order(x.id, x.side, x.kind, x.tif, x.price, x.stopPrice, x.quantity, x.quantity, x.minQty, x.display,
      Shown(x.display, x.quantity), x.postOnly, New, now, x.expire, x.group, x.policy)
  }

  // The first rule the order breaks, or nothing.
  function Refusal(o: Order, now: nat): string {
    if o.quantity <= 0 then "WF1"
    else if o.kind == Limit && o.price <= 0 then "WF2"
    else if o.kind == StopLimit && o.price <= 0 then "WF2A"
    else if o.kind == MarketToLimit && o.price != 0 then "WF2B"
    else if (o.kind == Market || o.kind == StopMarket) && o.price != 0 then "WF3"
    else if (o.kind == StopLimit || o.kind == StopMarket) && o.stopPrice <= 0 then "WF4"
    else if (o.kind == Limit || o.kind == Market || o.kind == MarketToLimit) && o.stopPrice != 0 then "WF5"
    else if o.tif == Gtd && (o.expire == 0 || o.expire <= now) then "WF6"
    else if o.tif != Gtd && o.expire != 0 then "WF7"
    else if o.kind == Market && o.tif != Ioc && o.tif != Fok then "WF8"
    else if o.kind == MarketToLimit && o.tif != Gtc && o.tif != Gtd && o.tif != Day then "WF8A"
    else if o.display != 0 && (o.display <= 0 || o.display > o.quantity) then "WF9"
    else if o.display != 0 && o.kind != Limit then "WF10"
    else if o.postOnly && o.kind != Limit then "WF13"
    else if o.postOnly && (o.tif == Ioc || o.tif == Fok) then "WF14"
    else if o.postOnly && (o.kind == Market || o.kind == MarketToLimit) then "WF15"
    else if (o.group == 0) != (o.policy == NoPolicy) then "WF16"
    else if o.minQty != 0 && (o.minQty <= 0 || o.minQty > o.quantity) then "WF18"
    else if o.minQty != 0 && o.postOnly then "WF19"
    else if o.tif == Fok && o.minQty != 0 then "WF20"
    else ""
  }

  // What passes the rules is ready to be matched, or to wait for its trigger.
  lemma AdmittedOk(x: Input, now: nat)
    requires Refusal(NewOrder(x, now), now) == ""
    ensures var o := NewOrder(x, now); if o.kind == StopLimit || o.kind == StopMarket then StopOk(o) else ActiveOk(o)
  {
  }
}
