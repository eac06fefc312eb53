/** Counting live orders, levels and listed orders, and finding orders by id. */
module StoreCount {
  import opened Lists
  import opened Types
  import opened Rows
  import opened Store
  import opened PriceTime
  import opened StoreBook
  import opened StoreSteps
  import opened StoreRest

  // Both sides of the book as one list of rows.
  function AllRows(d: Db): seq<OrderRow> {
    SideRows(d, BUY) + SideRows(d, SELL)
  }

  // A listed order is live, hashed and on its own side.
  lemma Listed(d: Db, cap: nat, t: u64, i: nat)
    requires Kept(d, cap, null) && IsSide(t) && i < |SideRows(d, t)|
    ensures SideRows(d, t)[i] in d.orders && SideRows(d, t)[i] in d.hash
    ensures SideOf(d, t)[i] == d.orders[SideRows(d, t)[i]]
  {
    var ls := Levels(d, t);
    assert ls[0..|ls|] == ls;
    var j := FlatPrice(d, cap, t, 0, |ls|, SideRows(d, t)[i], null);
  }

  // Every live order is listed.
  lemma LiveListed(d: Db, cap: nat, o: OrderRow) returns (t: u64, i: nat)
    requires Kept(d, cap, null) && o in d.orders
    ensures IsSide(t) && i < |SideRows(d, t)| && SideRows(d, t)[i] == o && SideOf(d, t)[i] == d.orders[o]
  {
    assert d.Queued(o);
    var l :| l in d.queues && o in d.queues[l];
    assert l in d.prices;
    t := if l in Levels(d, BUY) then BUY else SELL;
    var m :| 0 <= m < |Levels(d, t)| && Levels(d, t)[m] == l;
    FlatMember(d.queues, Levels(d, t), o);
    assert o in Queue(d.queues, Levels(d, t)[m]);
    i :| 0 <= i < |SideRows(d, t)| && SideRows(d, t)[i] == o;
  }

  lemma OneHome(d: Db, cap: nat, l: LevelRow, m: LevelRow, o: OrderRow)
    requires Sound(d, cap) && o in Queue(d.queues, l) && o in Queue(d.queues, m)
    ensures l == m
  {
    var i :| 0 <= i < |d.queues[l]| && d.queues[l][i] == o;
    var j :| 0 <= j < |d.queues[m]| && d.queues[m][j] == o;
    assert OwnedOnce(d, l, m, i, j);
  }

  lemma AllDistinct(d: Db, cap: nat)
    requires Kept(d, cap, null)
    ensures Distinct(AllRows(d))
  {
    LevelsDistinct(d, cap, BUY);
    LevelsDistinct(d, cap, SELL);
    var b, a := SideRows(d, BUY), SideRows(d, SELL);
    forall i, j | 0 <= i < |b| && 0 <= j < |a| ensures b[i] != a[j] {
      FlatMember(d.queues, Levels(d, BUY), b[i]);
      FlatMember(d.queues, Levels(d, SELL), a[j]);
      if b[i] == a[j] {
        var m :| 0 <= m < |Levels(d, BUY)| && b[i] in Queue(d.queues, Levels(d, BUY)[m]);
        var n :| 0 <= n < |Levels(d, SELL)| && b[i] in Queue(d.queues, Levels(d, SELL)[n]);
        var x, y := Levels(d, BUY)[m], Levels(d, SELL)[n];
        OneHome(d, cap, x, y, b[i]);
      }
    }
  }

  // The two sides together list every live order exactly once.
  lemma SidesCount(d: Db, cap: nat)
    requires Kept(d, cap, null)
    ensures |SideOf(d, BUY)| + |SideOf(d, SELL)| == |d.orders| <= cap
  {
    var rows, live := AllRows(d), d.orders.Keys;
    AllDistinct(d, cap);
    forall i | 0 <= i < |rows| ensures rows[i] in live {
      if i < |SideRows(d, BUY)| { Listed(d, cap, BUY, i); } else { Listed(d, cap, SELL, i - |SideRows(d, BUY)|); }
    }
    DistinctBelow(rows, live);
    hide Kept;
    forall o | o in live ensures o in rows { LiveIn(d, cap, o); }
    CoveredBelow(rows, live);
    assert |live| == |d.orders|;
  }

  lemma LiveIn(d: Db, cap: nat, o: OrderRow)
    requires Kept(d, cap, null) && o in d.orders
    ensures o in AllRows(d)
  {
    hide Kept, SideRows, SideOf;
    var t, i := LiveListed(d, cap, o);
    assert AllRows(d)[if t == BUY then i else i + |SideRows(d, BUY)|] == o;
  }

  lemma LevelsSize(d: Db, cap: nat, t: u64)
    requires Sound(d, cap)
    ensures |Levels(d, t)| <= |d.prices|
  {
    LevelsDistinct(d, cap, t);
    DistinctBelow(Levels(d, t), d.prices.Keys);
    assert |d.prices.Keys| == |d.prices|;
  }

  // The first order of each level tells the levels apart, so there are no more levels than orders.
  lemma LevelsBelowOrders(d: Db, cap: nat)
    requires Kept(d, cap, null)
    ensures |d.prices| <= |d.orders|
  {
    forall l | l in d.prices ensures l in d.queues && d.queues[l] != [] && d.queues[l][0] in d.orders {
      var t := if l in Levels(d, BUY) then BUY else SELL;
      assert LevelKept(d, t, l, null) && QueueSound(d, l);
    }
    HeadsBelow(d, cap, d.prices.Keys, d.orders.Keys);
    assert |d.prices.Keys| == |d.prices| && |d.orders.Keys| == |d.orders|;
  }

  lemma {:induction false} HeadsBelow(d: Db, cap: nat, ls: set<LevelRow>, os: set<OrderRow>)
    requires Sound(d, cap)
    requires forall l {:trigger l in ls} :: l in ls ==> l in d.queues && d.queues[l] != [] && d.queues[l][0] in os
    ensures |ls| <= |os|
  {
    if ls != {} {
      var l :| l in ls;
      forall m | m in ls - {l} ensures m in d.queues && d.queues[m] != [] && d.queues[m][0] in os - {d.queues[l][0]} {
        assert m in ls && l in ls;
        assert OwnedOnce(d, l, m, 0, 0);
      }
      HeadsBelow(d, cap, ls - {l}, os - {d.queues[l][0]});
    }
  }

  // A level is on a side exactly for each price its orders rest at.
  lemma LevelPrices(d: Db, cap: nat, t: u64)
    requires Kept(d, cap, null) && IsSide(t)
    ensures |Levels(d, t)| == |Prices(SideOf(d, t))|
    ensures forall p {:trigger p in Prices(SideOf(d, t))} :: p in Prices(SideOf(d, t)) ==>
        exists l :: l in Levels(d, t) && l in d.prices && d.prices[l] == p
    ensures forall l {:trigger l in Levels(d, t)} :: l in Levels(d, t) ==>
        l in d.prices && d.prices[l] in Prices(SideOf(d, t))
  {
    var ls, all := Levels(d, t), Prices(SideOf(d, t));
    forall i | 0 <= i < |ls| ensures ls[i] in d.prices && d.prices[ls[i]] in all { LevelPriced(d, cap, t, i); }
    var ps := seq(|ls|, i requires 0 <= i < |ls| => d.prices[ls[i]]);
    forall i, j | 0 <= i < j < |ps| ensures ps[i] != ps[j] { assert PricedApart(d, t, i, j); }
    DistinctBelow(ps, all);
    forall p | p in all ensures p in ps && exists l :: l in ls && l in d.prices && d.prices[l] == p {
      var j := PriceLeveled(d, cap, t, p);
      assert ps[j] == p && ls[j] in ls;
    }
    CoveredBelow(ps, all);
  }

  lemma LevelPriced(d: Db, cap: nat, t: u64, i: nat)
    requires Kept(d, cap, null) && IsSide(t) && i < |Levels(d, t)|
    ensures Levels(d, t)[i] in d.prices && d.prices[Levels(d, t)[i]] in Prices(SideOf(d, t))
  {
    var l := Levels(d, t)[i];
    assert l in Levels(d, t) && LevelKept(d, t, l, null) && Placed(d, t, l, 0);
    var o := d.queues[l][0];
    FlatMember(d.queues, Levels(d, t), o);
    assert o in Queue(d.queues, Levels(d, t)[i]);
    var j :| 0 <= j < |SideRows(d, t)| && SideRows(d, t)[j] == o;
    assert SideOf(d, t)[j].price == d.prices[l];
  }

  lemma PriceLeveled(d: Db, cap: nat, t: u64, p: u64) returns (j: nat)
    requires Kept(d, cap, null) && IsSide(t) && p in Prices(SideOf(d, t))
    ensures j < |Levels(d, t)| && Levels(d, t)[j] in d.prices && d.prices[Levels(d, t)[j]] == p
  {
    var i :| 0 <= i < |SideOf(d, t)| && SideOf(d, t)[i].price == p;
    var ls := Levels(d, t);
    assert ls[0..|ls|] == ls;
    j := FlatPrice(d, cap, t, 0, |ls|, SideRows(d, t)[i], null);
  }

  // The live levels are those of the two sides, one for each price.
  lemma LevelsCount(d: Db, cap: nat)
    requires Kept(d, cap, null)
    ensures |d.prices| == |Prices(SideOf(d, BUY))| + |Prices(SideOf(d, SELL))|
  {
    var b, a := Levels(d, BUY), Levels(d, SELL);
    LevelPrices(d, cap, BUY);
    LevelPrices(d, cap, SELL);
    LevelsDistinct(d, cap, BUY);
    LevelsDistinct(d, cap, SELL);
    hide Prices, Levels, SideOf;
    forall i | 0 <= i < |b + a| ensures (b + a)[i] in d.prices {}
    forall i, j | 0 <= i < |b| && 0 <= j < |a| ensures b[i] != a[j] {}
    DistinctBelow(b + a, d.prices.Keys);
    forall l | l in d.prices.Keys ensures l in b + a {}
    CoveredBelow(b + a, d.prices.Keys);
    assert |d.prices.Keys| == |d.prices|;
  }

  // An id is on the book exactly when a hashed order carries it.
  lemma IdsListed(d: Db, cap: nat, id: u64, o: OrderRow?)
    requires Kept(d, cap, null)
    requires o == null ==> forall r {:trigger r in d.hash} :: r in d.hash ==> r in d.orders && d.orders[r].id != id
    requires o != null ==> o in d.orders && d.orders[o].id == id
    ensures o != null <==> HasId(BookOf(d).bids, id) || HasId(BookOf(d).asks, id)
    ensures o == null ==> forall r {:trigger d.orders[r]} :: r in d.orders ==> d.orders[r].id != id
  {
    if o != null {
      var t, i := LiveListed(d, cap, o);
      assert SideOf(d, t)[i].id == id;
    } else {
      forall t, i | IsSide(t) && 0 <= i < |SideOf(d, t)| ensures SideOf(d, t)[i].id != id { Listed(d, cap, t, i); }
      forall r | r in d.orders ensures d.orders[r].id != id {
        var t, i := LiveListed(d, cap, r);
        assert SideOf(d, t)[i].id != id;
      }
    }
  }

  // A live order rests on its own side, in the one level that owns it.
  lemma KeptOwner(d: Db, cap: nat, o: OrderRow, l: LevelRow) returns (m: nat, k: nat)
    requires Kept(d, cap, null) && o in d.orders && l in d.queues && o in d.queues[l]
    ensures IsSide(d.orders[o].side) && m < |Levels(d, d.orders[o].side)| && Levels(d, d.orders[o].side)[m] == l
    ensures k < |d.queues[l]| && d.queues[l][k] == o && l in d.prices && o in d.hash
  {
    assert l in d.prices;
    var t := if l in Levels(d, BUY) then BUY else SELL;
    m :| 0 <= m < |Levels(d, t)| && Levels(d, t)[m] == l;
    k :| 0 <= k < |d.queues[l]| && d.queues[l][k] == o;
    assert LevelKept(d, t, l, null) && Placed(d, t, l, k);
  }

  lemma KeptQueued(d: Db, cap: nat, o: OrderRow)
    requires Kept(d, cap, null) && o in d.orders
    ensures d.Queued(o)
  {
  }

  lemma RemovedLevel(d: Db, t: u64, m: nat, k: nat)
    requires IsSide(t) && m < |Levels(d, t)| && Levels(d, t)[m] in d.queues && k < |d.queues[Levels(d, t)[m]]|
    ensures Levels(d, t)[m] in Removed(d, Levels(d, t)[m], k).Tree(t)
    ensures Levels(d, t)[m] in Removed(d, Levels(d, t)[m], k).queues
    ensures Removed(d, Levels(d, t)[m], k).prices == d.prices
  {
    var n := |d.bids|;
    if t == BUY { assert Rev(d.bids)[m] == d.bids[n - 1 - m]; }
  }

  // The best price of a tree is the price of the first order listed on its side.
  lemma BestHead(d: Db, cap: nat, t: u64)
    requires Kept(d, cap, null) && IsSide(t)
    ensures d.Tree(t) == [] <==> SideOf(d, t) == []
    ensures d.Tree(t) != [] ==> d.Best(t) in d.prices && d.prices[d.Best(t)] == SideOf(d, t)[0].price
  {
    var ls := Levels(d, t);
    if ls != [] {
      var l := ls[0];
      assert LevelKept(d, t, l, null) && Placed(d, t, l, 0);
      assert SideRows(d, t)[0] == d.queues[l][0];
    }
  }

  // No two listed orders share an id, on either side.
  lemma SameId(d: Db, cap: nat, t: u64, i: nat, u: u64, j: nat)
    requires Kept(d, cap, null) && IsSide(t) && IsSide(u) && i < |SideOf(d, t)| && j < |SideOf(d, u)|
    requires SideOf(d, t)[i].id == SideOf(d, u)[j].id
    ensures t == u && i == j
  {
    Listed(d, cap, t, i);
    Listed(d, cap, u, j);
    assert OneId(d, SideRows(d, t)[i], SideRows(d, u)[j]);
    hide Kept;
    AllDistinct(d, cap);
    SamePlace(SideRows(d, BUY), SideRows(d, SELL), t, i, u, j);
  }

  // One element has one place in two lists that repeat nothing.
  lemma SamePlace<R>(b: seq<R>, a: seq<R>, t: u64, i: nat, u: u64, j: nat)
    requires Distinct(b + a) && IsSide(t) && IsSide(u)
    requires i < |if t == BUY then b else a| && j < |if u == BUY then b else a|
    requires (if t == BUY then b else a)[i] == (if u == BUY then b else a)[j]
    ensures t == u && i == j
  {
    var x, y := if t == BUY then i else |b| + i, if u == BUY then j else |b| + j;
    assert (b + a)[x] == (b + a)[y];
    assert x == y;
  }

  lemma {:induction false} DropIs(s: seq<Order>, id: u64, j: nat)
    requires j < |s| && s[j].id == id && forall i {:trigger s[i]} :: 0 <= i < j ==> s[i].id != id
    ensures Drop(s, id) == Without(s, j)
  {
    if j > 0 {
      DropIs(s[1..], id, j - 1);
      assert [s[0]] + Without(s[1..], j - 1) == Without(s, j);
    }
  }

  lemma {:induction false} DropNone(s: seq<Order>, id: u64)
    requires !HasId(s, id)
    ensures Drop(s, id) == s
  {
    if s != [] {
      assert s[0].id != id;
      forall i | 0 <= i < |s[1..]| ensures s[1..][i].id != id { assert s[1..][i] == s[i + 1]; }
      DropNone(s[1..], id);
    }
  }

  // Removing one order drops its id from the book.
  lemma RemovedBook(d: Db, cap: nat, t: u64, m: nat, k: nat)
    requires Kept(d, cap, null) && IsSide(t) && m < |Levels(d, t)| && Levels(d, t)[m] in d.queues
    requires k < |d.queues[Levels(d, t)[m]]|
    requires d.queues[Levels(d, t)[m]][k] in d.orders && Sound(Removed(d, Levels(d, t)[m], k), cap)
    ensures var e, id := Removed(d, Levels(d, t)[m], k), d.orders[d.queues[Levels(d, t)[m]][k]].id;
      Kept(e, cap, Levels(d, t)[m]) && SideOf(e, t) == Drop(SideOf(d, t), id)
          && SideOf(e, Contra(t)) == Drop(SideOf(d, Contra(t)), id)
  {
    var l, j, u := Levels(d, t)[m], Place(d, t, m, k), Contra(t);
    var o := d.queues[l][k];
    PlaceIs(d, t, m, k);
    RemovedSide(d, cap, t, m, k);
    SidesApart(d, cap, l);
    RemovedOther(d, cap, u, l, k);
    RemovedKept(d, cap, l, k, null);
    var s, c, id := SideOf(d, t), SideOf(d, u), d.orders[o].id;
    Listed(d, cap, t, j);
    assert s[j].id == id;
    forall i | 0 <= i < j ensures s[i].id != id { if s[i].id == id { SameId(d, cap, t, i, t, j); } }
    forall i | 0 <= i < |c| ensures c[i].id != id { if c[i].id == id { SameId(d, cap, u, i, t, j); } }
    DropIs(s, id, j);
    DropNone(c, id);
  }

  // ---- level totals ----

  lemma {:induction false} AtPriceAppend(a: seq<Order>, b: seq<Order>, price: u64)
    ensures AtPrice(a + b, price) == AtPrice(a, price) + AtPrice(b, price)
  {
    if a == [] {
      assert a + b == b;
    } else {
      assert (a + b)[1..] == a[1..] + b;
      AtPriceAppend(a[1..], b, price);
    }
  }

  // All of a queue is open at its own price, and none of it at another.
  lemma {:induction false} AtPriceQueue(m: map<OrderRow, Order>, q: seq<OrderRow>, own: u64, price: u64)
    requires forall i {:trigger q[i]} :: 0 <= i < |q| ==> q[i] in m && m[q[i]].price == own
    ensures AtPrice(Vals(m, q), price) == if own == price then Sum(m, q) else 0
  {
    if q != [] {
      AtPriceQueue(m, q[1..], own, price);
      assert Vals(m, q)[1..] == Vals(m, q[1..]);
    }
  }

  // The orders of level x of ls are the only ones at its price.
  lemma {:induction false} AtPriceFlat(d: Db, t: u64, ls: seq<LevelRow>, hole: LevelRow?, price: u64)
    requires forall i {:trigger ls[i]} :: 0 <= i < |ls| ==>
        ls[i] in d.queues && ls[i] in d.prices && LevelKept(d, t, ls[i], hole)
    requires forall i, j {:trigger ls[i], ls[j]} :: 0 <= i < j < |ls| ==> d.prices[ls[i]] != d.prices[ls[j]]
    ensures forall i {:trigger ls[i]} :: 0 <= i < |ls| && d.prices[ls[i]] == price ==>
        AtPrice(Vals(d.orders, Flat(d.queues, ls)), price) == d.Total(ls[i])
    ensures (forall i {:trigger ls[i]} :: 0 <= i < |ls| ==> d.prices[ls[i]] != price) ==>
        AtPrice(Vals(d.orders, Flat(d.queues, ls)), price) == 0
  {
    if ls != [] {
      var l, rest := ls[0], ls[1..];
      var q := d.queues[l];
      forall i | 0 <= i < |rest| ensures rest[i] == ls[i + 1] {}
      forall i | 0 <= i < |q| ensures q[i] in d.orders && d.orders[q[i]].price == d.prices[l] {
        assert LevelKept(d, t, l, hole) && Placed(d, t, l, i);
      }
      AtPriceFlat(d, t, rest, hole, price);
      AtPriceQueue(d.orders, q, d.prices[l], price);
      assert Vals(d.orders, Flat(d.queues, ls)) == Vals(d.orders, q) + Vals(d.orders, Flat(d.queues, rest));
      hide LevelKept, Flat, AtPrice, Sum;
      AtPriceAppend(Vals(d.orders, q), Vals(d.orders, Flat(d.queues, rest)), price);
    }
  }

  // The true total of a level is what its side has open at its price.
  lemma LevelTotal(d: Db, cap: nat, t: u64, l: LevelRow, hole: LevelRow?)
    requires Kept(d, cap, hole) && IsSide(t) && l in Levels(d, t) && l in d.queues && l in d.prices
    ensures d.Total(l) == AtPrice(SideOf(d, t), d.prices[l])
  {
    var ls := Levels(d, t);
    forall i | 0 <= i < |ls| ensures ls[i] in d.queues && ls[i] in d.prices && LevelKept(d, t, ls[i], hole) {
      assert ls[i] in ls;
    }
    forall i, j | 0 <= i < j < |ls| ensures d.prices[ls[i]] != d.prices[ls[j]] { assert PricedApart(d, t, i, j); }
    var i :| 0 <= i < |ls| && ls[i] == l;
    hide Kept, AtPrice, Sum, LevelKept;
    AtPriceFlat(d, t, ls, hole, d.prices[l]);
  }
}
