/** The level structure of a store is determined by its book. */
module StoreGroups {
  import opened Types
  import opened Rows
  import opened Store
  import opened PriceTime
  import opened StoreBook

  datatype Group = Group(price: u64, orders: seq<Order>)

  // Levels, each as its price and the orders waiting there.
  function GroupsOf(d: Db, ls: seq<LevelRow>): (gs: seq<Group>)
    ensures |gs| == |ls|
    ensures forall i {:trigger gs[i]} :: 0 <= i < |ls| ==>
        gs[i] == Group(if ls[i] in d.prices then d.prices[ls[i]] else 0, Vals(d.orders, Queue(d.queues, ls[i])))
  {
    seq(|ls|, i requires 0 <= i < |ls| => Group(if ls[i] in d.prices then d.prices[ls[i]]
        else 0, Vals(d.orders, Queue(d.queues, ls[i]))))
  }

  function Join(gs: seq<Group>): seq<Order> {
    if gs == [] then [] else gs[0].orders + Join(gs[1..])
  }

  // No level is empty, every order is at its level's price, and prices get strictly worse.
  ghost predicate Layered(t: u64, gs: seq<Group>) {
    && (forall i {:trigger gs[i]} :: 0 <= i < |gs| ==> gs[i].orders != [])
    && (forall i, j {:trigger gs[i].orders[j]} :: 0 <= i < |gs| && 0 <= j < |gs[i].orders| ==>
        gs[i].orders[j].price == gs[i].price)
    && (forall i, j {:trigger gs[i], gs[j]} :: 0 <= i < j < |gs| ==> Better(t, gs[i].price, gs[j].price))
  }

  // The first level ends where the price changes.
  lemma {:induction false} FirstEnds(t: u64, a: seq<Group>)
    requires a != [] && Layered(t, a) && |a[0].orders| < |Join(a)|
    ensures Join(a)[|a[0].orders|].price != a[0].price
  {
    assert Join(a)[|a[0].orders|] == Join(a[1..])[0] && a[1..] != [] && Better(t, a[0].price, a[1].price);
    assert Join(a[1..])[0] == a[1].orders[0];
  }

  // So it is no longer than the first level of any other layering of the same list.
  lemma {:induction false} FirstNoLonger(t: u64, a: seq<Group>, b: seq<Group>)
    requires a != [] && b != [] && Layered(t, a) && Layered(t, b) && Join(a) == Join(b)
    ensures a[0].price == b[0].price && |b[0].orders| <= |a[0].orders|
  {
    assert forall j {:trigger Join(b)[j]} :: 0 <= j < |b[0].orders| ==> Join(b)[j] == b[0].orders[j];
    assert Join(a)[0] == a[0].orders[0] && Join(b)[0] == b[0].orders[0];
    if |a[0].orders| < |Join(a)| { FirstEnds(t, a); }
  }

  // A flat list has one level structure at most.
  lemma {:induction false} OneLayering(t: u64, a: seq<Group>, b: seq<Group>)
    requires Layered(t, a) && Layered(t, b) && Join(a) == Join(b)
    ensures a == b
  {
    if a == [] || b == [] {
      assert a != [] ==> Join(a) != [];
      assert b != [] ==> Join(b) != [];
    } else {
      FirstNoLonger(t, a, b);
      FirstNoLonger(t, b, a);
      var n := |a[0].orders|;
      assert Join(a)[..n] == a[0].orders && Join(b)[..n] == b[0].orders;
      assert Join(a)[n..] == Join(a[1..]) && Join(b)[n..] == Join(b[1..]);
      OneLayering(t, a[1..], b[1..]);
      assert a == [a[0]] + a[1..] && b == [b[0]] + b[1..];
    }
  }

  lemma {:induction false} JoinFlat(d: Db, ls: seq<LevelRow>)
    ensures Join(GroupsOf(d, ls)) == Vals(d.orders, Flat(d.queues, ls))
  {
    if ls != [] {
      JoinFlat(d, ls[1..]);
      assert GroupsOf(d, ls)[1..] == GroupsOf(d, ls[1..]);
    }
  }

  lemma KeptLayered(d: Db, cap: nat, t: u64)
    requires Kept(d, cap, null) && IsSide(t)
    ensures Layered(t, GroupsOf(d, Levels(d, t))) && Join(GroupsOf(d, Levels(d, t))) == SideOf(d, t)
  {
    var ls := Levels(d, t);
    var gs := GroupsOf(d, ls);
    JoinFlat(d, ls);
    assert Join(gs) == SideOf(d, t);
    hide Join, SideOf, Sound, Flat, Levels;
    assert Sound(d, cap);
    forall i | 0 <= i < |gs| ensures gs[i].orders != [] && ls[i] in d.prices {
      assert ls[i] in ls && LevelKept(d, t, ls[i], null);
      PricedIn(d, cap, t, i);
    }
    forall i, j | 0 <= i < |gs| && 0 <= j < |gs[i].orders| ensures gs[i].orders[j].price == gs[i].price {
      assert ls[i] in ls && LevelKept(d, t, ls[i], null);
      var o := d.queues[ls[i]][j];
      assert Placed(d, t, ls[i], j);
    }
    forall i, j | 0 <= i < j < |gs| ensures Better(t, gs[i].price, gs[j].price) { PricedBetter(d, cap, t, i, j); }
  }

  lemma PricedIn(d: Db, cap: nat, t: u64, i: nat)
    requires Sound(d, cap) && i < |Levels(d, t)|
    ensures Levels(d, t)[i] in d.prices && Levels(d, t)[i] in d.queues
  {
  }

  lemma PricedBetter(d: Db, cap: nat, t: u64, i: nat, j: nat)
    requires Sound(d, cap) && i < j < |Levels(d, t)|
    ensures Levels(d, t)[i] in d.prices && Levels(d, t)[j] in d.prices
    ensures Better(t, d.prices[Levels(d, t)[i]], d.prices[Levels(d, t)[j]])
  {
    assert PricedApart(d, t, i, j);
  }

  // Two stores between calls with the same book have the same levels, at the same prices, with the same queues.
  lemma LevelsDetermined(d: Db, e: Db, cap: nat, t: u64)
    requires Kept(d, cap, null) && Kept(e, cap, null) && IsSide(t) && SideOf(d, t) == SideOf(e, t)
    ensures GroupsOf(d, Levels(d, t)) == GroupsOf(e, Levels(e, t))
  {
    hide Kept, GroupsOf, Levels, SideOf, Layered;
    KeptLayered(d, cap, t);
    KeptLayered(e, cap, t);
    OneLayering(t, GroupsOf(d, Levels(d, t)), GroupsOf(e, Levels(e, t)));
  }
}
