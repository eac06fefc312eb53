/** The turns of the matching loops as steps on contents and on lists. */
module MatchSteps {
  import opened Lists
  import opened Types
  import opened Rows
  import opened Store
  import opened PriceTime
  import opened StoreBook
  import opened StoreSteps
  import opened StoreRest

  // ---- one step of matching on the lists ----

  // What is still to come, after `out`, completes m0.
  ghost predicate Doing(r: Request, m0: Matched, rem: u64, s: seq<Order>, out: seq<Trade>) {
    var m := Match(r, rem, s);
    m.rem == m0.rem && m.rest == m0.rest && out + m.trades == m0.trades
  }

  lemma DoingCancelNew(r: Request, m0: Matched, rem: u64, s: seq<Order>, out: seq<Trade>)
    requires Doing(r, m0, rem, s, out) && rem > 0 && s != [] && Crosses(r, s[0].price) && SelfTrade(r, s[0])
    requires r.stp == STP_CANCEL_NEW
    ensures Doing(r, m0, 0, s, out)
  {
  }

  lemma DoingCancelOld(r: Request, m0: Matched, rem: u64, s: seq<Order>, out: seq<Trade>)
    requires Doing(r, m0, rem, s, out) && rem > 0 && s != [] && Crosses(r, s[0].price) && SelfTrade(r, s[0])
    requires r.stp == STP_CANCEL_OLD || r.stp == STP_CANCEL_BOTH
    ensures Doing(r, m0, if r.stp == STP_CANCEL_OLD then rem else 0, s[1..], out)
  {
  }

  lemma DoingFill(r: Request, m0: Matched, rem: u64, s: seq<Order>, out: seq<Trade>)
    requires Doing(r, m0, rem, s, out) && rem > 0 && s != [] && Crosses(r, s[0].price)
    requires SelfTrade(r, s[0]) ==> r.stp !in {STP_CANCEL_NEW, STP_CANCEL_OLD, STP_CANCEL_BOTH}
    ensures var fill := Min(rem, s[0].remaining);
      Doing(r, m0, rem - fill, Reduce(s, fill), if SelfTrade(r, s[0]) then out
          else out + [Trade(s[0].id, r.id, s[0].price, fill)])
  {
    var fill := Min(rem, s[0].remaining);
    var next := Match(r, rem - fill, Reduce(s, fill)).trades;
    assert out + ([Trade(s[0].id, r.id, s[0].price, fill)] + next) ==
        out + [Trade(s[0].id, r.id, s[0].price, fill)] + next;
  }

  lemma DoingOver(r: Request, m0: Matched, rem: u64, s: seq<Order>, out: seq<Trade>)
    requires Doing(r, m0, rem, s, out) && (rem == 0 || s == [] || !Crosses(r, s[0].price))
    ensures m0 == Matched(rem, s, out)
  {
    assert out + [] == out;
  }

  // ---- one step of matching on the store ----

  /** Halfway through a request: `out` has been traded and `rem` is left, m0 is what
      the whole match comes to, `own` the request's own side, and every trade to
      come has an order of the contra side to its name. */
  ghost predicate Going(d: Db, cap: nat, r: Request, m0: Matched, own: seq<Order>, bound: nat, rem: u64,
          out: seq<Trade>, hole: LevelRow?) {
    && Kept(d, cap, hole) && IsSide(r.side)
    && Doing(r, m0, rem, SideOf(d, Contra(r.side)), out)
    && SideOf(d, r.side) == own
    && |out| <= bound <= cap && (rem > 0 ==> |out| + |SideOf(d, Contra(r.side))| <= bound)
    && (forall o {:trigger d.orders[o]} :: o in d.orders ==> d.orders[o].id != r.id)
  }

  // The head of the best contra level is the head of the contra side.
  lemma HeadIs(d: Db, cap: nat, t: u64, hole: LevelRow?)
    requires Kept(d, cap, hole) && IsSide(t) && Levels(d, t) != [] && Queue(d.queues, Levels(d, t)[0]) != []
    ensures var l := Levels(d, t)[0];
        l in d.prices && l in d.queues && d.queues[l][0] in d.orders && d.queues[l][0] in d.hash
    ensures var l := Levels(d, t)[0];
        SideOf(d, t) != [] && SideOf(d, t)[0] == d.orders[d.queues[l][0]] && SideOf(d, t)[0].price == d.prices[l]
    ensures SideOf(d, t)[0].remaining > 0
    ensures Levels(d, t)[0] !in Levels(d, Contra(t))
  {
    var l := Levels(d, t)[0];
    assert LevelKept(d, t, l, hole) && Placed(d, t, l, 0);
    assert SideRows(d, t)[0] == d.queues[l][0];
  }

  lemma GoingRemoved(d: Db, cap: nat, r: Request, m0: Matched, own: seq<Order>, bound: nat, rem: u64, out: seq<Trade>,
          rem': u64, out': seq<Trade>)
    requires Levels(d, Contra(r.side)) != [] && Queue(d.queues, Levels(d, Contra(r.side))[0]) != []
    requires Going(d, cap, r, m0, own, bound, rem, out, Levels(d, Contra(r.side))[0]) && rem > 0
    requires SideOf(d, Contra(r.side)) != [] && Doing(r, m0, rem', SideOf(d, Contra(r.side))[1..], out')
    requires |out'| <= |out| + 1
    requires Sound(Removed(d, Levels(d, Contra(r.side))[0], 0), cap)
    ensures Going(Removed(d, Levels(d, Contra(r.side))[0], 0), cap, r, m0, own, bound, rem', out',
        Levels(d, Contra(r.side))[0])
  {
    var t := Contra(r.side);
    var l := Levels(d, t)[0];
    var e := Removed(d, l, 0);
    HeadIs(d, cap, t, l);
    PlaceIs(d, t, 0, 0);
    RemovedSide(d, cap, t, 0, 0);
    RemovedOther(d, cap, r.side, l, 0);
    RemovedKept(d, cap, l, 0, l);
    assert Without(SideOf(d, t), 0) == SideOf(d, t)[1..];
  }

  // Reducing the head of a side reduces the first order listed on it, and nothing else.
  lemma ReducedHead(d: Db, cap: nat, t: u64, l: LevelRow, v: u64)
    requires IsSide(t) && Levels(d, t) != [] && Levels(d, t)[0] == l && Queue(d.queues, l) != [] && Kept(d, cap, l)
    requires SideOf(d, t) != [] && 0 < v < SideOf(d, t)[0].remaining
    requires l in d.queues && d.queues[l][0] in d.orders && Sound(Reduced(d, l, 0, v), cap)
    ensures SideOf(Reduced(d, l, 0, v), t) == Reduce(SideOf(d, t), SideOf(d, t)[0].remaining - v)
    ensures SideOf(Reduced(d, l, 0, v), Contra(t)) == SideOf(d, Contra(t))
    ensures Kept(Reduced(d, l, 0, v), cap, l)
  {
    var s := SideOf(d, t);
    HeadIs(d, cap, t, l);
    PlaceIs(d, t, 0, 0);
    ReducedSide(d, cap, t, 0, 0, v);
    ReducedOther(d, cap, Contra(t), l, 0, v);
    ReducedKept(d, cap, l, 0, v, l);
    hide Kept, Sound, SideOf, Levels;
    assert Reduce(s, s[0].remaining - v) == s[0 := s[0].(remaining := v)];
  }

  // The ids of the live orders stay as they are.
  lemma ReducedIds(d: Db, l: LevelRow, v: u64)
    requires l in d.queues && d.queues[l] != [] && d.queues[l][0] in d.orders
    ensures Reduced(d, l, 0, v).orders.Keys == d.orders.Keys
    ensures forall o {:trigger Reduced(d, l, 0, v).orders[o]} :: o in d.orders ==>
        Reduced(d, l, 0, v).orders[o].id == d.orders[o].id
  {
    assert Reduced(d, l, 0, v).orders.Keys == d.orders.Keys;
  }

  lemma GoingReduced(d: Db, cap: nat, r: Request, m0: Matched, own: seq<Order>, bound: nat, rem: u64, out: seq<Trade>,
          v: u64, out': seq<Trade>)
    requires Levels(d, Contra(r.side)) != [] && Queue(d.queues, Levels(d, Contra(r.side))[0]) != []
    requires Going(d, cap, r, m0, own, bound, rem, out, Levels(d, Contra(r.side))[0]) && rem > 0
    requires SideOf(d, Contra(r.side)) != [] && 0 < v < SideOf(d, Contra(r.side))[0].remaining
    requires Doing(r, m0, 0, Reduce(SideOf(d, Contra(r.side)), SideOf(d, Contra(r.side))[0].remaining - v), out')
    requires |out'| <= |out| + 1
    requires d.queues[Levels(d, Contra(r.side))[0]][0] in d.orders
    requires Sound(Reduced(d, Levels(d, Contra(r.side))[0], 0, v), cap)
    ensures Going(Reduced(d, Levels(d, Contra(r.side))[0], 0, v), cap, r, m0, own, bound, 0, out',
        Levels(d, Contra(r.side))[0])
  {
    hide Kept, Sound, SideOf, Levels, Doing, Reduced, Reduce;
    var t := Contra(r.side);
    var l := Levels(d, t)[0];
    ReducedHead(d, cap, t, l, v);
    ReducedIds(d, l, v);
    assert Contra(t) == r.side;
  }

  // Level l heads the contra side of r, at a price r accepts.
  ghost predicate AtHead(d: Db, r: Request, l: LevelRow) {
    && Levels(d, Contra(r.side)) != [] && Levels(d, Contra(r.side))[0] == l
    && l in d.prices && l in d.queues && Crosses(r, d.prices[l])
  }

  // From d to e only the head of level l has changed, and it has left if `more`.
  ghost predicate Advanced(d: Db, e: Db, r: Request, l: LevelRow, more: bool) {
    && e.bids == d.bids && e.asks == d.asks && e.prices == d.prices && AtHead(e, r, l)
    && (more ==> l in d.queues && d.queues[l] != [] && e.queues[l] == d.queues[l][1..])
  }

  // The head of level l is filled by this much, and leaves once nothing remains.
  function Filled(d: Db, l: LevelRow, fill: u64): Db
    requires l in d.queues && d.queues[l] != [] && d.queues[l][0] in d.orders
    requires fill <= d.orders[d.queues[l][0]].remaining
  {
    var v := d.orders[d.queues[l][0]];
    if fill == v.remaining then Removed(d, l, 0) else Reduced(d, l, 0, v.remaining - fill)
  }

  lemma RemovedAfter(d: Db, l: LevelRow)
    requires l in d.queues && d.queues[l] != [] && d.queues[l][0] in d.orders
    ensures Removed(Reduced(d, l, 0, 0), l, 0) == Removed(d, l, 0)
  {
    var o := d.queues[l][0];
    assert d.orders[o := d.orders[o].(remaining := 0)] - {o} == d.orders - {o};
  }

  // What the head of the contra side has to offer.
  lemma GoingHead(d: Db, cap: nat, r: Request, m0: Matched, own: seq<Order>, bound: nat, rem: u64, out: seq<Trade>,
          l: LevelRow)
    requires Going(d, cap, r, m0, own, bound, rem, out, l) && AtHead(d, r, l) && d.queues[l] != [] && rem > 0
    ensures d.queues[l][0] in d.orders && d.queues[l][0] in d.hash && SideOf(d, Contra(r.side)) != []
    ensures SideOf(d, Contra(r.side))[0] == d.orders[d.queues[l][0]] && d.orders[d.queues[l][0]].price == d.prices[l]
    ensures d.orders[d.queues[l][0]].remaining > 0
    ensures Queue(d.queues, l) == d.queues[l] && |out| < bound <= cap
  {
    HeadIs(d, cap, Contra(r.side), l);
  }

  lemma GoingStopped(d: Db, cap: nat, r: Request, m0: Matched, own: seq<Order>, bound: nat, rem: u64, out: seq<Trade>,
          l: LevelRow)
    requires Going(d, cap, r, m0, own, bound, rem, out, l) && AtHead(d, r, l) && d.queues[l] != [] && rem > 0
    requires d.queues[l][0] in d.orders && SelfTrade(r, d.orders[d.queues[l][0]]) && r.stp == STP_CANCEL_NEW
    ensures Going(d, cap, r, m0, own, bound, 0, out, l)
  {
    GoingHead(d, cap, r, m0, own, bound, rem, out, l);
    DoingCancelNew(r, m0, rem, SideOf(d, Contra(r.side)), out);
  }

  lemma GoingCancelled(d: Db, cap: nat, r: Request, m0: Matched, own: seq<Order>, bound: nat, rem: u64,
          out: seq<Trade>, l: LevelRow)
    requires Going(d, cap, r, m0, own, bound, rem, out, l) && AtHead(d, r, l) && d.queues[l] != [] && rem > 0
    requires d.queues[l][0] in d.orders && SelfTrade(r, d.orders[d.queues[l][0]])
    requires (r.stp == STP_CANCEL_OLD || r.stp == STP_CANCEL_BOTH)
    requires Sound(Removed(d, l, 0), cap)
    ensures Going(Removed(d, l, 0), cap, r, m0, own, bound, if r.stp == STP_CANCEL_OLD then rem else 0, out, l)
    ensures Advanced(d, Removed(d, l, 0), r, l, r.stp == STP_CANCEL_OLD)
  {
    hide Kept, Sound, Match, SideOf;
    GoingHead(d, cap, r, m0, own, bound, rem, out, l);
    DoingCancelOld(r, m0, rem, SideOf(d, Contra(r.side)), out);
    GoingRemoved(d, cap, r, m0, own, bound, rem, out, if r.stp == STP_CANCEL_OLD then rem else 0, out);
  }

  // The head of level l, at price p, is order v.
  ghost predicate Offers(d: Db, l: LevelRow, p: u64, v: Order) {
    l in d.prices && d.prices[l] == p && l in d.queues && d.queues[l] != [] && d.queues[l][0] in d.orders
        && d.orders[d.queues[l][0]] == v
  }

  lemma GoingFilled(d: Db, cap: nat, r: Request, m0: Matched, own: seq<Order>, bound: nat, rem: u64, out: seq<Trade>,
          l: LevelRow, p: u64, v: Order, fill: u64)
    requires Offers(d, l, p, v) && 0 < rem && fill == Min(rem, v.remaining)
    requires SelfTrade(r, v) ==> r.stp !in {STP_CANCEL_NEW, STP_CANCEL_OLD, STP_CANCEL_BOTH}
    requires Going(d, cap, r, m0, own, bound, rem, out, l) && AtHead(d, r, l) && Sound(Filled(d, l, fill), cap)
    ensures Going(Filled(d, l, fill), cap, r, m0, own, bound, rem - fill, if SelfTrade(r, v) then out
        else out + [Trade(v.id, r.id, p, fill)], l)
    ensures Advanced(d, Filled(d, l, fill), r, l, rem > v.remaining)
  {
    hide Kept, Sound, Match, SideOf;
    GoingHead(d, cap, r, m0, own, bound, rem, out, l);
    var s := SideOf(d, Contra(r.side));
    var out' := if SelfTrade(r, v) then out else out + [Trade(v.id, r.id, p, fill)];
    DoingFill(r, m0, rem, s, out);
    if fill == v.remaining {
      GoingRemoved(d, cap, r, m0, own, bound, rem, out, rem - fill, out');
    } else {
      GoingReduced(d, cap, r, m0, own, bound, rem, out, v.remaining - fill, out');
    }
  }

  // ---- one turn of the outer loop ----

  lemma LevelsSame(d: Db, e: Db, t: u64)
    requires d.bids == e.bids && d.asks == e.asks
    ensures Levels(d, t) == Levels(e, t)
  {
  }

  lemma BestIs(d: Db, t: u64)
    requires IsSide(t)
    ensures d.Tree(t) == [] <==> Levels(d, t) == []
    ensures d.Tree(t) != [] ==> d.Best(t) == Levels(d, t)[0]
  {
  }

  lemma GoingSides(d: Db, cap: nat, r: Request, m0: Matched, own: seq<Order>, bound: nat, rem: u64, out: seq<Trade>)
    requires Going(d, cap, r, m0, own, bound, rem, out, null)
    ensures IsSide(r.side) && IsSide(Contra(r.side)) && d.queues.Keys == d.prices.Keys
  {
  }

  lemma GoingSide(d: Db, cap: nat, r: Request, m0: Matched, own: seq<Order>, bound: nat, rem: u64, out: seq<Trade>,
          l: LevelRow)
    requires Going(d, cap, r, m0, own, bound, rem, out, l) && AtHead(d, r, l)
    ensures IsSide(r.side) && IsSide(Contra(r.side)) && l in d.Tree(Contra(r.side)) && Queue(d.queues, l) == d.queues[l]
  {
    var n := |d.bids|;
    if r.side == SELL { assert Rev(d.bids)[0] == d.bids[n - 1]; }
  }

  lemma GoingIn(d: Db, cap: nat, r: Request, m0: Matched, own: seq<Order>, bound: nat, rem: u64, out: seq<Trade>,
          l: LevelRow)
    requires Going(d, cap, r, m0, own, bound, rem, out, null)
    ensures Going(d, cap, r, m0, own, bound, rem, out, l)
  {
    hide Doing, Sound, Levels;
    AnyHole(d, cap, l);
  }

  lemma GoingOut(d: Db, cap: nat, r: Request, m0: Matched, own: seq<Order>, bound: nat, rem: u64, out: seq<Trade>,
          l: LevelRow)
    requires Going(d, cap, r, m0, own, bound, rem, out, l) && Queue(d.queues, l) != []
    ensures Going(d, cap, r, m0, own, bound, rem, out, null)
  {
    hide Doing, Sound, Levels;
    NoHole(d, cap, l);
  }

  lemma GoingDropped(d: Db, cap: nat, r: Request, m0: Matched, own: seq<Order>, bound: nat, rem: u64, out: seq<Trade>,
          k: nat)
    requires IsSide(r.side) && k < |d.Tree(Contra(r.side))| && d.Tree(Contra(r.side))[k] in d.queues
    requires d.queues[d.Tree(Contra(r.side))[k]] == []
    requires Going(d, cap, r, m0, own, bound, rem, out, d.Tree(Contra(r.side))[k])
    requires Sound(Dropped(d, Contra(r.side), k), cap)
    ensures Going(Dropped(d, Contra(r.side), k), cap, r, m0, own, bound, rem, out, null)
    ensures |Levels(Dropped(d, Contra(r.side), k), Contra(r.side))| + 1 == |Levels(d, Contra(r.side))|
  {
    hide Doing, Sound, Kept;
    DroppedLevels(d, Contra(r.side), k);
    DroppedBook(d, cap, Contra(r.side), k);
    assert Contra(Contra(r.side)) == r.side;
  }

  // Nothing is left to match: the whole match is what has been done.
  lemma GoingOver(d: Db, cap: nat, r: Request, m0: Matched, own: seq<Order>, bound: nat, rem: u64, out: seq<Trade>)
    requires Going(d, cap, r, m0, own, bound, rem, out, null)
    requires rem > 0 ==> Done(d, r)
    ensures m0 == Matched(rem, SideOf(d, Contra(r.side)), out)
  {
    var t := Contra(r.side);
    if rem > 0 && Levels(d, t) != [] {
      assert LevelKept(d, t, Levels(d, t)[0], null);
      HeadIs(d, cap, t, null);
    }
    DoingOver(r, m0, rem, SideOf(d, t), out);
  }

  // The contra side is empty, or its best price does not suit the request.
  ghost predicate Done(d: Db, r: Request) {
    var ls := Levels(d, Contra(r.side));
    ls != [] ==> ls[0] in d.prices && !Crosses(r, d.prices[ls[0]])
  }

  // What the loops leave for the remainder to rest on.
  lemma GoingEnd(d: Db, cap: nat, r: Request, m0: Matched, own: seq<Order>, bound: nat, rem: u64, out: seq<Trade>)
    requires Going(d, cap, r, m0, own, bound, rem, out, null)
    ensures Kept(d, cap, null) && SideOf(d, r.side) == own
    ensures forall o {:trigger d.orders[o]} :: o in d.orders ==> d.orders[o].id != r.id
  {
  }

  // A request that has passed the checks starts out on its way.
  lemma {:induction false} GoingStart(d: Db, cap: nat, r: Request)
    requires Kept(d, cap, null) && IsSide(r.side)
    requires forall o {:trigger d.orders[o]} :: o in d.orders ==> d.orders[o].id != r.id
    requires |SideOf(d, Contra(r.side))| <= cap
    ensures Going(d, cap, r, Match(r, r.qty, SideOf(d, Contra(r.side))), SideOf(d, r.side), |SideOf(d, Contra(r.side))|,
        r.qty, [], null)
  {
    var m := Match(r, r.qty, SideOf(d, Contra(r.side)));
    assert [] + m.trades == m.trades;
  }
}
