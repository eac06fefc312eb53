/** Levels and orders that come and go as a whole: a level is emptied or opened,
    an order joins its level, and what that does to the book. */
module StoreRest {
  import opened Lists
  import opened Types
  import opened Rows
  import opened Store
  import opened PriceTime
  import opened StoreBook
  import opened StoreSteps

  // Tree t loses its k-th level, and the pool gets it back.
  function Dropped(d: Db, t: u64, k: nat): Db
    requires k < |d.Tree(t)|
  {
    var l := d.Tree(t)[k];
    d.WithTree(t, Without(d.Tree(t), k)).(prices := d.prices - {l}, queues := d.queues - {l})
  }

  // The k-th level in ascending order is this one counted from the best.
  function Rank(d: Db, t: u64, k: nat): nat
    requires k < |d.Tree(t)|
  {
    if t == BUY then |d.bids| - 1 - k else k
  }

  lemma DroppedLevels(d: Db, t: u64, k: nat)
    requires IsSide(t) && k < |d.Tree(t)|
    ensures Rank(d, t, k) < |Levels(d, t)| && Levels(d, t)[Rank(d, t, k)] == d.Tree(t)[k]
    ensures Levels(Dropped(d, t, k), t) == Without(Levels(d, t), Rank(d, t, k))
    ensures Levels(Dropped(d, t, k), Contra(t)) == Levels(d, Contra(t))
  {
    if t == BUY { assert Rev(Without(d.bids, k)) == Without(Rev(d.bids), |d.bids| - 1 - k); }
  }

  lemma TreeDistinct(d: Db, cap: nat, t: u64)
    requires IsSide(t) && Sound(d, cap)
    ensures Distinct(d.Tree(t))
    ensures forall i {:trigger d.Tree(t)[i]} :: 0 <= i < |d.Tree(t)| ==>
        d.Tree(t)[i] in d.prices && d.Tree(t)[i] in Levels(d, t)
  {
    LevelsDistinct(d, cap, t);
    forall i | 0 <= i < |d.Tree(t)| ensures d.Tree(t)[i] in d.prices && d.Tree(t)[i] in Levels(d, t) {
      assert Levels(d, t)[Rank(d, t, i)] == d.Tree(t)[i];
    }
    forall i, j | 0 <= i < j < |d.Tree(t)| ensures d.Tree(t)[i] != d.Tree(t)[j] {
      assert Levels(d, t)[Rank(d, t, i)] == d.Tree(t)[i] && Levels(d, t)[Rank(d, t, j)] == d.Tree(t)[j];
    }
  }

  lemma SidesApart(d: Db, cap: nat, l: LevelRow)
    requires Sound(d, cap)
    ensures !(l in Levels(d, BUY) && l in Levels(d, SELL))
  {
  }

  // A level that has left its tree is in neither tree.
  lemma DroppedLeft(d: Db, cap: nat, t: u64, k: nat)
    requires IsSide(t) && Sound(d, cap) && k < |d.Tree(t)|
    ensures d.Tree(t)[k] in d.prices && d.Tree(t)[k] !in Without(d.Tree(t), k) && d.Tree(t)[k] !in d.Tree(Contra(t))
  {
    hide Sound, Levels;
    TreeDistinct(d, cap, t);
    TreeDistinct(d, cap, Contra(t));
    SidesApart(d, cap, d.Tree(t)[k]);
    WithoutLeaves(d.Tree(t), k);
  }

  // Dropping an empty level changes no side of the book.
  lemma DroppedBook(d: Db, cap: nat, t: u64, k: nat)
    requires IsSide(t) && k < |d.Tree(t)| && d.Tree(t)[k] in d.queues && d.queues[d.Tree(t)[k]] == []
    requires Kept(d, cap, d.Tree(t)[k]) && Sound(Dropped(d, t, k), cap)
    ensures Kept(Dropped(d, t, k), cap, null)
    ensures SideOf(Dropped(d, t, k), t) == SideOf(d, t) && SideOf(Dropped(d, t, k), Contra(t)) == SideOf(d, Contra(t))
  {
    var l, m, e := d.Tree(t)[k], Rank(d, t, k), Dropped(d, t, k);
    DroppedLevels(d, t, k);
    LevelsDistinct(d, cap, t);
    assert l !in Levels(d, Contra(t));
    hide Sound, Kept;
    DroppedSide(d, e, t, m);
    DroppedOther(d, e, Contra(t), l);
    DroppedKept(d, e, cap, t, m);
  }

  // A level with orders in it is no hole.
  lemma NoHole(d: Db, cap: nat, l: LevelRow)
    requires Kept(d, cap, l) && Queue(d.queues, l) != []
    ensures Kept(d, cap, null)
  {
    forall t, x | IsSide(t) && x in Levels(d, t) ensures LevelKept(d, t, x, null) {
      assert LevelKept(d, t, x, l);
      forall i | 0 <= i < |d.queues[x]| ensures Placed(d, t, x, i) {}
    }
  }

  lemma AnyHole(d: Db, cap: nat, l: LevelRow)
    requires Kept(d, cap, null)
    ensures Kept(d, cap, l)
  {
    forall t, x | IsSide(t) && x in Levels(d, t) ensures LevelKept(d, t, x, l) {
      assert LevelKept(d, t, x, null);
      forall i | 0 <= i < |d.queues[x]| ensures Placed(d, t, x, i) {}
    }
  }

  // Level l opens at price p, in the i-th place of tree t, with no orders yet.
  function Opened(d: Db, t: u64, i: nat, l: LevelRow, p: u64): Db
    requires i <= |d.Tree(t)|
  {
    d.WithTree(t, d.Tree(t)[..i] + [l] + d.Tree(t)[i..]).(prices := d.prices[l := p], queues := d.queues[l := []])
  }

  lemma OpenedDropped(d: Db, t: u64, i: nat, l: LevelRow, p: u64)
    requires i <= |d.Tree(t)| && l !in d.prices && l !in d.queues
    ensures Opened(d, t, i, l, p).Tree(t)[i] == l && Dropped(Opened(d, t, i, l, p), t, i) == d
  {
    var e := Opened(d, t, i, l, p);
    assert Without(e.Tree(t), i) == d.Tree(t);
    assert e.prices - {l} == d.prices && e.queues - {l} == d.queues;
  }

  lemma OpenedBook(d: Db, cap: nat, t: u64, i: nat, l: LevelRow, p: u64)
    requires IsSide(t) && i <= |d.Tree(t)| && l !in d.prices && Kept(d, cap, null) && Sound(Opened(d, t, i, l, p), cap)
    ensures Kept(Opened(d, t, i, l, p), cap, l) && l in Levels(Opened(d, t, i, l, p), t)
    ensures SideOf(Opened(d, t, i, l, p), t) == SideOf(d, t)
    ensures SideOf(Opened(d, t, i, l, p), Contra(t)) == SideOf(d, Contra(t))
  {
    hide Kept, Sound, SideOf, Levels, Opened, Dropped;
    var e := Opened(d, t, i, l, p);
    KeptSound(d, cap, null);
    OpenedRank(d, cap, t, i, l, p);
    LevelsDistinct(e, cap, t);
    DroppedSide(e, d, t, Rank(e, t, i));
    DroppedOther(e, d, Contra(t), l);
    OpenedKept(d, e, cap, t, Rank(e, t, i));
  }

  // What opening changes, and where the level comes among those of its side.
  lemma OpenedRank(d: Db, cap: nat, t: u64, i: nat, l: LevelRow, p: u64)
    requires IsSide(t) && i <= |d.Tree(t)| && l !in d.prices && l !in d.queues && Sound(Opened(d, t, i, l, p), cap)
    ensures var e := Opened(d, t, i, l, p);
      && e.orders == d.orders && e.hash == d.hash && l in e.prices && e.prices == d.prices[l := e.prices[l]]
      && e.queues == d.queues[l := []] && d.queues == e.queues - {l} && |e.Tree(t)| == |d.Tree(t)| + 1
      && Rank(e, t, i) < |Levels(e, t)| && Levels(e, t)[Rank(e, t, i)] == l && l !in Levels(e, Contra(t))
      && Levels(d, t) == Without(Levels(e, t), Rank(e, t, i)) && Levels(d, Contra(t)) == Levels(e, Contra(t))
  {
    var e := Opened(d, t, i, l, p);
    OpenedDropped(d, t, i, l, p);
    DroppedLevels(e, t, i);
    hide Opened, Dropped;
    SidesApart(e, cap, l);
  }

  // e is d with the level at rank m opened in it.
  ghost predicate OpenedAt(d: Db, e: Db, t: u64, m: nat)
    requires m < |Levels(e, t)|
  {
    var l := Levels(e, t)[m];
    && Levels(d, t) == Without(Levels(e, t), m) && Levels(d, Contra(t)) == Levels(e, Contra(t))
    && l !in d.prices && l in e.prices && e.prices == d.prices[l := e.prices[l]] && e.queues == d.queues[l := []]
    && e.orders == d.orders && e.hash == d.hash
  }

  lemma OpenedSame(d: Db, e: Db, cap: nat, t: u64, m: nat, s: u64, x: LevelRow)
    requires IsSide(t) && IsSide(s) && m < |Levels(e, t)| && OpenedAt(d, e, t, m) && x != Levels(e, t)[m]
    ensures x in Levels(e, s) <==> x in Levels(d, s)
    ensures LevelKept(d, s, x, null) ==> LevelKept(e, s, x, Levels(e, t)[m])
  {
    var ls := Levels(e, t);
    if s == t {
      if x in ls { InWithout(ls, m, x); }
      if x in Levels(d, t) {
        var i :| 0 <= i < |ls| - 1 && Without(ls, m)[i] == x;
        assert x == ls[if i < m then i else i + 1];
      }
    } else {
      assert s == Contra(t);
    }
    if LevelKept(d, s, x, null) {
      forall i | 0 <= i < |e.queues[x]| ensures Placed(e, s, x, i) { assert Placed(d, s, x, i); }
    }
  }

  lemma OpenedEmpty(e: Db, cap: nat, s: u64, l: LevelRow)
    requires l in e.queues && e.queues[l] == []
    ensures LevelKept(e, s, l, l)
  {
  }

  lemma OpenedKept(d: Db, e: Db, cap: nat, t: u64, m: nat)
    requires IsSide(t) && Kept(d, cap, null) && Sound(e, cap) && m < |Levels(e, t)| && OpenedAt(d, e, t, m)
    ensures Kept(e, cap, Levels(e, t)[m])
  {
    var l := Levels(e, t)[m];
    hide Sound, Levels, LevelKept;
    forall s, x | IsSide(s) && x in Levels(e, s) ensures LevelKept(e, s, x, l) {
      if x != l {
        OpenedSame(d, e, cap, t, m, s, x);
        assert LevelKept(d, s, x, null);
      } else {
        OpenedEmpty(e, cap, s, l);
      }
    }
    forall x | x in e.prices ensures x in Levels(e, BUY) || x in Levels(e, SELL) {
      if x == l {
        assert l in Levels(e, t);
      } else {
        OpenedSame(d, e, cap, t, m, BUY, x);
        OpenedSame(d, e, cap, t, m, SELL, x);
      }
    }
    forall r | r in e.orders ensures e.Queued(r) {
      assert d.Queued(r);
      var x :| x in d.queues && r in d.queues[x];
      assert r in e.queues[x];
    }
  }

  // ---- an order joins a level ----

  // Order o, with payload v, goes to the tail of level l and into the index.
  function Appended(d: Db, l: LevelRow, o: OrderRow, v: Order): Db
    requires l in d.queues
  {
    d.(orders := d.orders[o := v], queues := d.queues[l := d.queues[l] + [o]], hash := d.hash + {o})
  }

  lemma {:induction false} InsertSplit(t: u64, o: Order, a: seq<Order>, b: seq<Order>)
    requires forall i {:trigger a[i]} :: 0 <= i < |a| ==> !Better(t, o.price, a[i].price)
    requires b == [] || Better(t, o.price, b[0].price)
    ensures Insert(t, o, a + b) == a + [o] + b
  {
    if a == [] {
      assert a + b == b && a + [o] + b == [o] + b;
    } else {
      assert (a + b)[1..] == a[1..] + b;
      InsertSplit(t, o, a[1..], b);
      assert [a[0]] + (a[1..] + [o] + b) == a + [o] + b;
    }
  }

  // Every order in a stretch of levels is live, and carries the price of one of them.
  lemma FlatPrice(d: Db, cap: nat, t: u64, lo: nat, hi: nat, o: OrderRow, hole: LevelRow?) returns (j: nat)
    requires Kept(d, cap, hole) && IsSide(t) && lo <= hi <= |Levels(d, t)| && o in Flat(d.queues, Levels(d, t)[lo..hi])
    ensures lo <= j < hi && Levels(d, t)[j] in d.prices && o in d.orders
    ensures d.orders[o].price == d.prices[Levels(d, t)[j]]
    ensures o in d.hash
  {
    hide Flat, Sound;
    var ls := Levels(d, t);
    FlatMember(d.queues, ls[lo..hi], o);
    var i :| 0 <= i < hi - lo && o in Queue(d.queues, ls[lo..hi][i]);
    j := lo + i;
    assert ls[lo..hi][i] == ls[j] && LevelKept(d, t, ls[j], hole);
    var c :| 0 <= c < |d.queues[ls[j]]| && d.queues[ls[j]][c] == o;
    assert Placed(d, t, ls[j], c);
  }

  // Up to the m-th level no price is worse than that level's, and behind it every price is.
  lemma PricesAround(d: Db, cap: nat, t: u64, m: nat, o: OrderRow, hole: LevelRow?)
    requires Kept(d, cap, hole) && IsSide(t) && m < |Levels(d, t)| && Levels(d, t)[m] in d.prices
    ensures o in Flat(d.queues, Levels(d, t)[..m + 1]) ==>
        o in d.orders && !Better(t, d.prices[Levels(d, t)[m]], d.orders[o].price)
    ensures o in Flat(d.queues, Levels(d, t)[m + 1..]) ==>
        o in d.orders && Better(t, d.prices[Levels(d, t)[m]], d.orders[o].price)
  {
    hide Flat;
    var ls := Levels(d, t);
    assert ls[..m + 1] == ls[0..m + 1] && ls[m + 1..] == ls[m + 1..|ls|];
    if o in Flat(d.queues, ls[..m + 1]) {
      var j := FlatPrice(d, cap, t, 0, m + 1, o, hole);
      assert PricedApart(d, t, j, m);
    }
    if o in Flat(d.queues, ls[m + 1..]) {
      var j := FlatPrice(d, cap, t, m + 1, |ls|, o, hole);
      assert PricedApart(d, t, m, j);
    }
  }

  // Behind the m-th level is where an order at its price belongs.
  lemma {:induction false} InsertBehind(d: Db, cap: nat, t: u64, m: nat, v: Order, hole: LevelRow?)
    requires Kept(d, cap, hole) && IsSide(t) && m < |Levels(d, t)| && Levels(d, t)[m] in d.prices
    requires v.price == d.prices[Levels(d, t)[m]]
    ensures Insert(t, v, SideOf(d, t)) ==
        Vals(d.orders, Flat(d.queues, Levels(d, t)[..m + 1])) + [v]
        + Vals(d.orders, Flat(d.queues, Levels(d, t)[m + 1..]))
  {
    hide Kept, Sound, Insert;
    var ls := Levels(d, t);
    var before, after := Flat(d.queues, ls[..m + 1]), Flat(d.queues, ls[m + 1..]);
    var a, b := Vals(d.orders, before), Vals(d.orders, after);
    assert SideOf(d, t) == a + b by {
      assert ls == ls[..m + 1] + ls[m + 1..];
      FlatAppend(d.queues, ls[..m + 1], ls[m + 1..]);
    }
    hide Flat, Levels, SideOf;
    forall i | 0 <= i < |a| ensures !Better(t, v.price, a[i].price) { PricesAround(d, cap, t, m, before[i], hole); }
    if b != [] { PricesAround(d, cap, t, m, after[0], hole); }
    InsertSplit(t, v, a, b);
  }

  // Rows that are live already keep their payload.
  lemma ValsKept(d: Db, cap: nat, t: u64, lo: nat, hi: nat, o: OrderRow, v: Order, hole: LevelRow?)
    requires Kept(d, cap, hole) && IsSide(t) && lo <= hi <= |Levels(d, t)| && o !in d.orders
    ensures Vals(d.orders[o := v], Flat(d.queues, Levels(d, t)[lo..hi])) ==
        Vals(d.orders, Flat(d.queues, Levels(d, t)[lo..hi]))
  {
    var rows := Flat(d.queues, Levels(d, t)[lo..hi]);
    forall i | 0 <= i < |rows| ensures rows[i] in d.orders {
      var j := FlatPrice(d, cap, t, lo, hi, rows[i], hole);
    }
  }

  lemma ValsMiddle(orders: map<OrderRow, Order>, a: seq<OrderRow>, o: OrderRow, b: seq<OrderRow>)
    requires o in orders
    ensures Vals(orders, a + [o] + b) == Vals(orders, a) + [orders[o]] + Vals(orders, b)
  {
  }

  // One queue among distinct levels gains an order at its tail.
  lemma {:induction false} FlatGains(p: map<LevelRow, seq<OrderRow>>, q: map<LevelRow, seq<OrderRow>>,
          ls: seq<LevelRow>, m: nat, o: OrderRow)
    requires m < |ls| && Distinct(ls) && Queue(q, ls[m]) == Queue(p, ls[m]) + [o]
    requires forall l {:trigger Queue(q, l)} :: l != ls[m] ==> Queue(q, l) == Queue(p, l)
    ensures Flat(q, ls) == Flat(p, ls[..m + 1]) + [o] + Flat(p, ls[m + 1..])
  {
    hide Queue, Flat;
    var before, after, upTo := ls[..m], ls[m + 1..], ls[..m + 1];
    FlatAt(q, ls, m);
    FlatAt(p, upTo, m);
    FlatNone(p);
    assert upTo[..m] == before && upTo[m + 1..] == [];
    forall i | 0 <= i < |before| ensures before[i] == ls[i] {}
    forall i | 0 <= i < |after| ensures after[i] == ls[m + 1 + i] {}
    FlatSame(p, q, before);
    FlatSame(p, q, after);
  }

  lemma {:induction false} FlatNone(p: map<LevelRow, seq<OrderRow>>)
    ensures Flat(p, []) == []
  {
  }

  lemma AppendedRows(d: Db, t: u64, m: nat, o: OrderRow, v: Order)
    requires m < |Levels(d, t)| && Levels(d, t)[m] in d.queues && Distinct(Levels(d, t))
    ensures SideRows(Appended(d, Levels(d, t)[m], o, v), t) ==
        Flat(d.queues, Levels(d, t)[..m + 1]) + [o] + Flat(d.queues, Levels(d, t)[m + 1..])
  {
    hide Flat;
    var e := Appended(d, Levels(d, t)[m], o, v);
    assert Levels(e, t) == Levels(d, t);
    FlatGains(d.queues, e.queues, Levels(d, t), m, o);
  }

  lemma {:induction false} AppendedSide(d: Db, cap: nat, t: u64, m: nat, o: OrderRow, v: Order, hole: LevelRow?)
    requires Kept(d, cap, hole) && IsSide(t) && m < |Levels(d, t)| && Levels(d, t)[m] in d.prices
    requires v.price == d.prices[Levels(d, t)[m]]
    requires Levels(d, t)[m] in d.queues && o !in d.orders
    ensures SideOf(Appended(d, Levels(d, t)[m], o, v), t) == Insert(t, v, SideOf(d, t))
  {
    hide Sound, Insert, Flat, Levels, Better;
    var ls, l := Levels(d, t), Levels(d, t)[m];
    var e := Appended(d, l, o, v);
    LevelsDistinct(d, cap, t);
    InsertBehind(d, cap, t, m, v, hole);
    AppendedRows(d, t, m, o, v);
    var before, after := Flat(d.queues, ls[..m + 1]), Flat(d.queues, ls[m + 1..]);
    assert Vals(e.orders, before) == Vals(d.orders, before) by {
      assert ls[0..m + 1] == ls[..m + 1];
      ValsKept(d, cap, t, 0, m + 1, o, v, hole);
    }
    assert Vals(e.orders, after) == Vals(d.orders, after) by {
      assert ls[m + 1..|ls|] == ls[m + 1..];
      ValsKept(d, cap, t, m + 1, |ls|, o, v, hole);
    }
    ValsMiddle(e.orders, before, o, after);
  }

  lemma AppendedOther(d: Db, cap: nat, t: u64, l: LevelRow, o: OrderRow, v: Order, hole: LevelRow?)
    requires Kept(d, cap, hole) && IsSide(t) && l in d.queues && l !in Levels(d, t) && o !in d.orders
    ensures SideOf(Appended(d, l, o, v), t) == SideOf(d, t)
  {
    var e, ls := Appended(d, l, o, v), Levels(d, t);
    assert Levels(e, t) == ls && ls[0..|ls|] == ls;
    FlatSame(d.queues, e.queues, ls);
    ValsKept(d, cap, t, 0, |ls|, o, v, hole);
  }

  lemma AppendedLevels(d: Db, s: u64, l: LevelRow, o: OrderRow, v: Order)
    requires l in d.queues
    ensures Levels(Appended(d, l, o, v), s) == Levels(d, s)
  {
  }

  // A level is on one side only.
  lemma OneSide(d: Db, cap: nat, hole: LevelRow?, t: u64, s: u64, l: LevelRow)
    requires Kept(d, cap, hole) && IsSide(t) && IsSide(s) && l in Levels(d, t) && l in Levels(d, s)
    ensures s == t
  {
    SidesApart(d, cap, l);
  }

  lemma AppendedLevel(d: Db, s: u64, x: LevelRow, l: LevelRow, o: OrderRow, v: Order, hole: LevelRow?)
    requires LevelKept(d, s, x, hole) && (hole == null || hole == l) && l in d.queues && l in d.prices && o !in d.orders
    requires x == l ==> v.price == d.prices[l] && v.side == s && 0 < v.remaining <= v.qty
    ensures LevelKept(Appended(d, l, o, v), s, x, null)
  {
    var e := Appended(d, l, o, v);
    forall i | 0 <= i < |e.queues[x]| ensures Placed(e, s, x, i) {
      if i < |d.queues[x]| { assert Placed(d, s, x, i); }
    }
  }

  lemma AppendedKept(d: Db, cap: nat, t: u64, l: LevelRow, o: OrderRow, v: Order, hole: LevelRow?)
    requires Kept(d, cap, hole) && (hole == null || hole == l) && IsSide(t) && l in Levels(d, t) && l in d.queues
    requires l in d.prices
    requires o !in d.orders && v.price == d.prices[l] && v.side == t && 0 < v.remaining <= v.qty
    requires Sound(Appended(d, l, o, v), cap)
    ensures Kept(Appended(d, l, o, v), cap, null)
  {
    var e := Appended(d, l, o, v);
    hide Sound, LevelKept, Levels;
    forall s, x | IsSide(s) && x in Levels(e, s) ensures LevelKept(e, s, x, null) {
      AppendedLevels(d, s, l, o, v);
      assert LevelKept(d, s, x, hole);
      if x == l { OneSide(d, cap, hole, t, s, l); }
      AppendedLevel(d, s, x, l, o, v, hole);
    }
    forall x | x in e.prices ensures x in Levels(e, BUY) || x in Levels(e, SELL) {
      AppendedLevels(d, BUY, l, o, v);
      AppendedLevels(d, SELL, l, o, v);
    }
    forall r | r in e.orders ensures e.Queued(r) {
      if r == o {
        assert o in e.queues[l];
      } else {
        assert d.Queued(r);
        var x :| x in d.queues && r in d.queues[x];
        assert r in e.queues[x];
      }
    }
  }

  lemma {:induction false} AppendedBook(d: Db, cap: nat, t: u64, l: LevelRow, o: OrderRow, v: Order, hole: LevelRow?)
    requires Kept(d, cap, hole) && (hole == null || hole == l) && IsSide(t) && l in Levels(d, t) && l in d.queues
    requires l in d.prices
    requires o !in d.orders && v.price == d.prices[l] && v.side == t && 0 < v.remaining <= v.qty
    requires Sound(Appended(d, l, o, v), cap)
    ensures Kept(Appended(d, l, o, v), cap, null)
    ensures SideOf(Appended(d, l, o, v), t) == Insert(t, v, SideOf(d, t))
    ensures SideOf(Appended(d, l, o, v), Contra(t)) == SideOf(d, Contra(t))
  {
    KeptSound(d, cap, hole);
    SidesApart(d, cap, l);
    var m :| 0 <= m < |Levels(d, t)| && Levels(d, t)[m] == l;
    hide Kept, Sound, Levels;
    AppendedKept(d, cap, t, l, o, v, hole);
    AppendedSide(d, cap, t, m, o, v, hole);
    AppendedOther(d, cap, Contra(t), l, o, v, hole);
  }

  lemma KeptSound(d: Db, cap: nat, hole: LevelRow?)
    requires Kept(d, cap, hole)
    ensures Sound(d, cap) && d.queues.Keys == d.prices.Keys && d.hash <= d.orders.Keys && |d.orders| <= cap
  {
  }

  // A level of a tree is one of its side's levels.
  lemma TreeListed(d: Db, t: u64, l: LevelRow)
    requires IsSide(t) && l in d.Tree(t)
    ensures l in Levels(d, t)
  {
    var k :| 0 <= k < |d.Tree(t)| && d.Tree(t)[k] == l;
    DroppedLevels(d, t, k);
  }

  lemma ListedTree(d: Db, t: u64, l: LevelRow)
    requires IsSide(t) && l in Levels(d, t)
    ensures l in d.Tree(t)
  {
    var k :| 0 <= k < |Levels(d, t)| && Levels(d, t)[k] == l;
    assert d.Tree(t)[if t == BUY then |d.bids| - 1 - k else k] == l;
  }

  // A row that is no live level is in no tree.
  lemma NewLeft(d: Db, cap: nat, l: LevelRow)
    requires Sound(d, cap) && l !in d.prices
    ensures l !in d.bids && l !in d.asks
  {
    TreeDistinct(d, cap, BUY);
    TreeDistinct(d, cap, SELL);
    assert d.bids == d.Tree(BUY) && d.asks == d.Tree(SELL);
  }

  // ---- a live order waits for its level ----

  function Waiting(d: Db, o: OrderRow, v: Order): Db {
    d.(orders := d.orders[o := v])
  }

  lemma WaitingLoose(d: Db, cap: nat, o: OrderRow, v: Order)
    requires Sound(d, cap) && o !in d.orders
    ensures o !in d.hash && !Waiting(d, o, v).Queued(o)
    ensures forall l {:trigger d.queues[l]} :: l in d.queues ==>
        o !in d.queues[l] && Waiting(d, o, v).Total(l) == d.Total(l)
  {
    forall l | l in d.queues ensures o !in d.queues[l] && Waiting(d, o, v).Total(l) == d.Total(l) {
      assert QueueSound(d, l);
      SumSame(d.orders, Waiting(d, o, v).orders, d.queues[l]);
    }
  }

  // Opening a level is sound whether or not an order is waiting for it.
  lemma WaitingOpened(d: Db, cap: nat, t: u64, i: nat, l: LevelRow, p: u64, o: OrderRow, v: Order)
    requires Sound(d, cap) && i <= |d.Tree(t)| && l !in d.prices && Sound(Waiting(Opened(d, t, i, l, p), o, v), cap)
    ensures Sound(Opened(d, t, i, l, p), cap)
  {
    var e := Opened(d, t, i, l, p);
    var w := Waiting(e, o, v);
    assert Levels(w, BUY) == Levels(e, BUY) && Levels(w, SELL) == Levels(e, SELL);
    forall s, j, k ensures PricedApart(e, s, j, k) { assert PricedApart(w, s, j, k) && Levels(w, s) == Levels(e, s); }
    forall s, j | 0 <= j < |Levels(e, s)| ensures Levels(e, s)[j] in e.prices { assert Levels(w, s)[j] in w.prices; }
    forall j, k | 0 <= j < |Levels(e, BUY)| && 0 <= k < |Levels(e, SELL)|
        ensures Levels(e, BUY)[j] != Levels(e, SELL)[k] {
      assert Levels(w, BUY)[j] != Levels(w, SELL)[k];
    }
    forall x | x in e.queues ensures QueueSound(e, x) {
      if x != l { assert QueueSound(d, x); }
    }
    forall x, y, j, k | x in e.queues && y in e.queues ensures OwnedOnce(e, x, y, j, k) {
      assert OwnedOnce(w, x, y, j, k);
    }
    forall x, y | x in e.hash && y in e.hash ensures OneId(e, x, y) { assert OneId(d, x, y); }
  }
}
