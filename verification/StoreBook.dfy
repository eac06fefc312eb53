/** The book a store holds, and the invariant its client keeps on it. */
module StoreBook {
  import opened Lists
  import opened Types
  import opened Rows
  import opened Store
  import opened PriceTime

  function Rev<T>(s: seq<T>): (r: seq<T>)
    ensures |r| == |s|
    ensures forall i {:trigger r[i]} :: 0 <= i < |s| ==> r[i] == s[|s| - 1 - i]
  {
    seq(|s|, i requires 0 <= i < |s| => s[|s| - 1 - i])
  }

  // The levels of side t, best price first.
  function Levels(d: Db, t: u64): seq<LevelRow> {
    if t == BUY then Rev(d.bids) else d.asks
  }

  function Queue(queues: map<LevelRow, seq<OrderRow>>, l: LevelRow): seq<OrderRow> {
    if l in queues then queues[l] else []
  }

  // The orders of a list of levels, level by level.
  function Flat(queues: map<LevelRow, seq<OrderRow>>, ls: seq<LevelRow>): seq<OrderRow> {
    if ls == [] then [] else Queue(queues, ls[0]) + Flat(queues, ls[1..])
  }

  function Val(orders: map<OrderRow, Order>, o: OrderRow): Order {
    if o in orders then orders[o] else Order(0, 0, 0, 0, 0, 0, 0)
  }

  function Vals(orders: map<OrderRow, Order>, os: seq<OrderRow>): (vs: seq<Order>)
    ensures |vs| == |os|
    ensures forall i {:trigger vs[i]} :: 0 <= i < |os| ==> vs[i] == Val(orders, os[i])
  {
    seq(|os|, i requires 0 <= i < |os| => Val(orders, os[i]))
  }

  function SideRows(d: Db, t: u64): seq<OrderRow> {
    Flat(d.queues, Levels(d, t))
  }

  function SideOf(d: Db, t: u64): seq<Order> {
    Vals(d.orders, SideRows(d, t))
  }

  function BookOf(d: Db): Book {
    Book(SideOf(d, BUY), SideOf(d, SELL))
  }

  // ---- what the data layer guarantees of any contents ----

  ghost predicate PricedApart(d: Db, t: u64, i: int, j: int) {
    var ls := Levels(d, t);
    0 <= i < j < |ls| ==> ls[i] in d.prices && ls[j] in d.prices && Better(t, d.prices[ls[i]], d.prices[ls[j]])
  }

  ghost predicate QueueSound(d: Db, l: LevelRow)
    requires l in d.queues
  {
    && Distinct(d.queues[l])
    && (forall i {:trigger d.queues[l][i]} :: 0 <= i < |d.queues[l]| ==> d.queues[l][i] in d.orders)
  }

  ghost predicate OwnedOnce(d: Db, l: LevelRow, m: LevelRow, i: int, j: int)
    requires l in d.queues && m in d.queues
  {
    0 <= i < |d.queues[l]| && 0 <= j < |d.queues[m]| && d.queues[l][i] == d.queues[m][j] ==> l == m
  }

  ghost predicate OneId(d: Db, r: OrderRow, s: OrderRow)
    requires r in d.orders && s in d.orders
  {
    d.orders[r].id == d.orders[s].id ==> r == s
  }

  ghost predicate Sound(d: Db, cap: nat) {
    && d.queues.Keys == d.prices.Keys
    && (forall t, i, j {:trigger PricedApart(d, t, i, j)} :: PricedApart(d, t, i, j))
    && (forall t, i {:trigger Levels(d, t)[i]} :: 0 <= i < |Levels(d, t)| ==> Levels(d, t)[i] in d.prices)
    && (forall i, j {:trigger Levels(d, BUY)[i], Levels(d, SELL)[j]} ::
        0 <= i < |Levels(d, BUY)| && 0 <= j < |Levels(d, SELL)| ==> Levels(d, BUY)[i] != Levels(d, SELL)[j])
    && (forall l {:trigger QueueSound(d, l)} :: l in d.queues ==> QueueSound(d, l))
    && (forall l, m, i, j {:trigger OwnedOnce(d, l, m, i, j)} :: l in d.queues && m in d.queues ==>
        OwnedOnce(d, l, m, i, j))
    && d.hash <= d.orders.Keys
    && (forall r, s {:trigger OneId(d, r, s)} :: r in d.hash && s in d.hash ==> OneId(d, r, s))
    && |d.orders| <= cap
  }

  // ---- what the client keeps ----

  predicate IsSide(t: u64) {
    t == BUY || t == SELL
  }

  // The i-th order of level l is hashed and belongs on side t at that level's price.
  ghost predicate Placed(d: Db, t: u64, l: LevelRow, i: int)
    requires l in d.queues && 0 <= i < |d.queues[l]|
  {
    var o := d.queues[l][i];
    && o in d.orders && o in d.hash && l in d.prices
    && d.orders[o].price == d.prices[l] && d.orders[o].side == t
    && 0 < d.orders[o].remaining <= d.orders[o].qty
  }

  // Level l is not empty, unless it is the one being emptied, and its orders belong there.
  ghost predicate LevelKept(d: Db, t: u64, l: LevelRow, hole: LevelRow?) {
    && l in d.queues
    && (l != hole ==> d.queues[l] != [])
    && (forall i {:trigger d.queues[l][i]} :: 0 <= i < |d.queues[l]| ==> Placed(d, t, l, i))
  }

  ghost predicate Kept(d: Db, cap: nat, hole: LevelRow?) {
    && Sound(d, cap)
    && (forall t, l {:trigger LevelKept(d, t, l, hole)} :: IsSide(t) && l in Levels(d, t) ==> LevelKept(d, t, l, hole))
    && (forall l {:trigger l in d.prices} :: l in d.prices ==> l in Levels(d, BUY) || l in Levels(d, SELL))
    && (forall o {:trigger o in d.orders} :: o in d.orders ==> d.Queued(o))
  }

  // ---- flattening ----

  lemma {:induction false} FlatAppend(queues: map<LevelRow, seq<OrderRow>>, a: seq<LevelRow>, b: seq<LevelRow>)
    ensures Flat(queues, a + b) == Flat(queues, a) + Flat(queues, b)
  {
    if a == [] {
      assert a + b == b;
    } else {
      assert (a + b)[1..] == a[1..] + b;
      FlatAppend(queues, a[1..], b);
    }
  }

  lemma {:induction false} FlatSame(p: map<LevelRow, seq<OrderRow>>, q: map<LevelRow, seq<OrderRow>>, ls: seq<LevelRow>)
    requires forall i {:trigger ls[i]} :: 0 <= i < |ls| ==> Queue(p, ls[i]) == Queue(q, ls[i])
    ensures Flat(p, ls) == Flat(q, ls)
  {
    if ls != [] { FlatSame(p, q, ls[1..]); }
  }

  // The flat list around the m-th level.
  lemma {:induction false} FlatAt(queues: map<LevelRow, seq<OrderRow>>, ls: seq<LevelRow>, m: nat)
    requires m < |ls|
    ensures Flat(queues, ls) == Flat(queues, ls[..m]) + Queue(queues, ls[m]) + Flat(queues, ls[m + 1..])
  {
    assert ls == ls[..m] + ls[m..] && ls[m..][1..] == ls[m + 1..];
    FlatAppend(queues, ls[..m], ls[m..]);
  }

  lemma {:induction false} FlatMember(queues: map<LevelRow, seq<OrderRow>>, ls: seq<LevelRow>, o: OrderRow)
    ensures o in Flat(queues, ls) <==> exists i :: 0 <= i < |ls| && o in Queue(queues, ls[i])
  {
    if ls != [] {
      FlatMember(queues, ls[1..], o);
      assert forall i :: 1 <= i < |ls| ==> ls[i] == ls[1..][i - 1];
    }
  }

  // No order is listed twice on one side.
  lemma {:induction false} FlatDistinct(d: Db, cap: nat, ls: seq<LevelRow>)
    requires Sound(d, cap)
    requires forall i {:trigger ls[i]} :: 0 <= i < |ls| ==> ls[i] in d.queues
    requires forall i, j {:trigger ls[i], ls[j]} :: 0 <= i < j < |ls| ==> ls[i] != ls[j]
    ensures Distinct(Flat(d.queues, ls))
  {
    if ls != [] {
      var l, rest := ls[0], Flat(d.queues, ls[1..]);
      FlatDistinct(d, cap, ls[1..]);
      assert QueueSound(d, l);
      forall i, j | 0 <= i < |d.queues[l]| && 0 <= j < |rest| ensures d.queues[l][i] != rest[j] {
        FlatMember(d.queues, ls[1..], rest[j]);
        var n :| 0 <= n < |ls| - 1 && rest[j] in Queue(d.queues, ls[1..][n]);
        var m := ls[1..][n];
        assert m == ls[n + 1];
        var k :| 0 <= k < |d.queues[m]| && d.queues[m][k] == rest[j];
        assert OwnedOnce(d, l, m, i, k);
      }
    }
  }

  lemma LevelsDistinct(d: Db, cap: nat, t: u64)
    requires Sound(d, cap)
    ensures forall i, j {:trigger Levels(d, t)[i], Levels(d, t)[j]} :: 0 <= i < j < |Levels(d, t)| ==>
        Levels(d, t)[i] != Levels(d, t)[j]
    ensures Distinct(SideRows(d, t))
  {
    var ls := Levels(d, t);
    forall i, j | 0 <= i < j < |ls| ensures ls[i] != ls[j] { assert PricedApart(d, t, i, j); }
    FlatDistinct(d, cap, ls);
  }
}
