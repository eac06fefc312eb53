/** What the conditions on an order guarantee about its arrival. */
module ArrivalLaws {
  import opened FullTypes
  import opened FullMatch
  import opened FullLaws
  import opened FullBook
  import opened FullArrival
  import PreChecks

  ghost predicate Ready(o: Order, p: Snapshot) {
    BookOk(p.bids, p.asks) && p.tid >= |p.trades| && ActiveOk(o)
  }

  // What matching does to a snapshot.
  lemma MetFacts(o: Order, p: Snapshot) returns (t: State)
    requires BookOk(p.bids, p.asks) && p.tid >= |p.trades| && TakerOk(o)
    ensures Ok(View(o, p)) && t == Matched(View(o, p), p.tid - |p.trades|) && p.trades <= t.trades
    ensures SameTaker(o, t.inc)
    ensures Met(o, p).0 == t.inc && Met(o, p).1.trades == t.trades
    ensures Met(o, p).1.Contra(Other(o.side)) == p.Contra(Other(o.side))
  {
    var s, base := View(o, p), p.tid - |p.trades|;
    MatchedFollows(s, base, Other(o.side));
    PreChecks.TradedBelow(s, base);
    t := Matched(s, base);
    MetIs(o, p, t);
  }

  // A fill-or-kill order is traded in full exactly if enough is shown and no own order stops it on the way.
  lemma {:induction false} FokArrival(o: Order, p: Snapshot)
    requires Ready(o, p) && o.tif == Fok && !o.postOnly
    ensures var q, contra := Arrive(o, p), p.Contra(o.side);
      && p.trades <= q.trades && q.Contra(Other(o.side)) == p.Contra(Other(o.side))
      && (PreChecks.Avail(o, contra) < o.quantity ==> q == p)
      && (PreChecks.Traded(q.trades[|p.trades|..]) == o.quantity <==>
           PreChecks.Avail(o, contra) >= o.quantity
           && (o.policy == CancelOldest || !PreChecks.HasOwn(o, contra)
               || o.quantity <= PreChecks.BeforeOwn(o, contra)))
  {
    assert p.trades[|p.trades|..] == [];
    if PreChecks.Avail(o, p.Contra(o.side)) >= o.quantity {
      var t := MetFacts(o, p);
      PreChecks.FillOrKill(View(o, p), p.tid - |p.trades|);
      PreChecks.EnoughShown(View(o, p), p.tid - |p.trades|);
      hide Met, Matched, BookOk, PreChecks.HasOwn, PreChecks.BeforeOwn, PreChecks.Avail, PreChecks.Traded, Rest;
    }
  }

  // Market and immediate-or-cancel orders never join their own side.
  lemma NeverRests(o: Order, p: Snapshot)
    requires Ready(o, p) && (o.kind == Market || o.tif == Ioc)
    ensures p.trades <= Arrive(o, p).trades && Arrive(o, p).Contra(Other(o.side)) == p.Contra(Other(o.side))
  {
    if !Killed(o, p) && !o.postOnly {
      var t := MetFacts(o, p);
      hide Met, Matched, BookOk, Killed, Rest;
    }
  }

  // A post-only order never trades and leaves the other side alone; it joins its own side exactly if it would
  // not cross.
  lemma PostOnlyArrival(o: Order, p: Snapshot)
    requires Ready(o, p) && o.postOnly
    ensures var q, side := Arrive(o, p), Other(o.side);
      && q.trades == p.trades && q.Contra(o.side) == p.Contra(o.side)
      && IdsIn(q.Contra(side)) == IdsIn(p.Contra(side)) + if NoCross(o, p.Contra(o.side)) then multiset{o.id}
          else multiset{}
  {
    var r := o.(status := New, visible := Shown(o.display, o.remaining));
    InsertIds(Other(o.side), p.Contra(Other(o.side)), r);
  }

  // An order with a minimum quantity is killed by its check, leaving all as it was, or trades at least that much;
  // it gets less only if it meets an order of its own group first, and then does if that cancels it, or if it is
  // decremented and does not bring what the minimum costs.
  lemma {:induction false} MinQtyArrival(o: Order, p: Snapshot)
    requires Ready(o, p) && 0 < o.minQty <= o.remaining
    ensures p.trades <= Arrive(o, p).trades
    ensures |Arrive(o, p).trades| > |p.trades| || Arrive(o, p).Contra(Other(o.side)) == p.Contra(Other(o.side))
    ensures var q, contra := Arrive(o, p), p.Contra(o.side); var traded := PreChecks.Traded(q.trades[|p.trades|..]);
      && (PreChecks.Avail(o, contra) < o.minQty ==> q == p)
      && (PreChecks.Avail(o, contra) >= o.minQty ==>
           && ((o.policy == CancelOldest || !PreChecks.HasOwn(o, contra) || o.minQty <= PreChecks.BeforeOwn(o, contra))
                ==> traded >= o.minQty)
           && (o.policy == CancelNewest || o.policy == CancelBoth ==>
                (traded >= o.minQty <==> !PreChecks.HasOwn(o, contra) || o.minQty <= PreChecks.BeforeOwn(o, contra)))
           && (o.policy == Decrement ==>
                (traded >= o.minQty <==> 0 <= PreChecks.Cost(o, contra, p.now, o.minQty) <= o.remaining)))
  {
    hide Killed, Arrive, Matched, LevelsOk, PreChecks.HasOwn, PreChecks.BeforeOwn, PreChecks.Avail, PreChecks.Cost;
    hide PreChecks.Traded;
    MinQtyKills(o, p);
    if !Killed(o, p) {
      var t := MinQtyLives(o, p);
      var s, base := View(o, p), p.tid - |p.trades|;
      PreChecks.MinQtyFilled(s, base, o.minQty);
    }
  }

  // Its check decides; if it fails, nothing happens at all.
  lemma {:induction false} MinQtyKills(o: Order, p: Snapshot)
    requires Ready(o, p) && 0 < o.minQty
    ensures Killed(o, p) <==> PreChecks.Avail(o, p.Contra(o.side)) < o.minQty
    ensures Killed(o, p) ==> Arrive(o, p) == p
    ensures p.trades[|p.trades|..] == [] && PreChecks.Traded([]) == 0
  {
  }

  // Past the check: what matching trades is what is traded.
  lemma MinQtyLives(o: Order, p: Snapshot) returns (t: State)
    requires Ready(o, p) && 0 < o.minQty <= o.remaining && !Killed(o, p)
    ensures Ok(View(o, p)) && o.status != Cancelled && t == Matched(View(o, p), p.tid - |p.trades|)
    ensures p.trades <= t.trades == Arrive(o, p).trades
    ensures |t.trades| > |p.trades| || Arrive(o, p).Contra(Other(o.side)) == p.Contra(Other(o.side))
  {
    t := MetFacts(o, p);
    MinQtyKills(o, p);
    PreChecks.MinQtyMet(View(o, p), p.tid - |p.trades|);
    hide Met, Matched, BookOk, PreChecks.Avail, Rest;
    if o.kind == MarketToLimit && |t.trades| > |p.trades| { ToLimitTrades(o, p, t); }
  }

  // Going on at the first trade's price adds no trade: what the market part left, it left on an empty side.
  lemma ToLimitTrades(o: Order, p: Snapshot, t: State)
    requires Ready(o, p) && Ok(View(o, p)) && t == Matched(View(o, p), p.tid - |p.trades|) && p.trades <= t.trades
    requires o.kind == MarketToLimit && |t.trades| > |p.trades|
    ensures Carried(o, p).trades == t.trades
  {
    var m := Met(o, p);
    BookMatched(p.bids, p.asks, View(o, p), p.tid - |p.trades|);
    MetIs(o, p, t);
    var s := MetFacts(o, p);
    var l := m.0.(price := m.1.trades[|p.trades|].price, kind := Limit, minQty := 0);
    if l.remaining > 0 && l.status != Cancelled {
      assert !Going(t) && t.levels == [];
      hide Met, Matched, BookOk, Rest;
      var u := MetFacts(l, m.1);
      MatchedNone(View(l, m.1), m.1.tid - |m.1.trades|);
    }
  }
}
