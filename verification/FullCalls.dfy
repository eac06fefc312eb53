/** What one call of the full-feature engine does, told from what the caller passes in. */
module FullCalls {
  import opened FullTypes
  import opened FullMatch
  import opened FullLaws
  import opened FullBook
  import opened FullQueues
  import opened FullArrival
  import opened FullCascade
  import opened FullTerms
  import opened FullStops
  import opened ArrivalLaws
  import PreChecks

  // ---- what is admitted ----

  // A well-formed order, kind by kind and condition by condition.
  predicate WellFormed(x: Input, now: nat) {
    && x.quantity > 0
    && (match x.kind
        case Limit => x.price > 0 && x.stopPrice == 0
        case Market => x.price == 0 && x.stopPrice == 0 && (x.tif == Ioc || x.tif == Fok)
        case MarketToLimit => x.price == 0 && x.stopPrice == 0 && x.tif != Ioc && x.tif != Fok
        case StopLimit => x.price > 0 && x.stopPrice > 0
        case StopMarket => x.price == 0 && x.stopPrice > 0)
    && (if x.tif == Gtd then x.expire > now else x.expire == 0)
    && (x.display != 0 ==> x.kind == Limit && 0 < x.display <= x.quantity)
    && (x.minQty != 0 ==> 0 < x.minQty <= x.quantity && x.tif != Fok)
    && (x.postOnly ==> x.kind == Limit && x.tif != Ioc && x.tif != Fok && x.minQty == 0)
    && (x.group == 0 <==> x.policy == NoPolicy)
  }

  // The rules in the order they are checked.
  const RULES: seq<string> := ["WF1", "WF2", "WF2A", "WF2B", "WF3", "WF4", "WF5", "WF6", "WF7", "WF8", "WF8A", "WF9",
    "WF10", "WF13", "WF14", "WF15", "WF16", "WF18", "WF19", "WF20"]

  // The order breaks the k-th of them.
  predicate Breaks(k: nat, x: Input, now: nat) {
    var stop, market := x.kind == StopLimit || x.kind == StopMarket, x.kind == Market || x.kind == StopMarket;
    || (k == 0 && x.quantity < 1)
    || (k == 1 && x.kind == Limit && x.price < 1)
    || (k == 2 && x.kind == StopLimit && x.price < 1)
    || (k == 3 && x.kind == MarketToLimit && x.price != 0)
    || (k == 4 && market && x.price != 0)
    || (k == 5 && stop && x.stopPrice < 1)
    || (k == 6 && !stop && x.stopPrice != 0)
    || (k == 7 && x.tif == Gtd && x.expire <= now)
    || (k == 8 && x.tif != Gtd && x.expire != 0)
    || (k == 9 && x.kind == Market && x.tif in {Gtc, Gtd, Day})
    || (k == 10 && x.kind == MarketToLimit && x.tif in {Ioc, Fok})
    || (k == 11 && x.display != 0 && !(0 < x.display <= x.quantity))
    || (k == 12 && x.display != 0 && x.kind != Limit)
    || (k == 13 && x.postOnly && x.kind != Limit)
    || (k == 14 && x.postOnly && x.tif in {Ioc, Fok})
    || (k == 15 && x.postOnly && x.kind in {Market, MarketToLimit})
    || (k == 16 && (x.group != 0) == (x.policy == NoPolicy))
    || (k == 17 && x.minQty != 0 && !(0 < x.minQty <= x.quantity))
    || (k == 18 && x.minQty != 0 && x.postOnly)
    || (k == 19 && x.minQty != 0 && x.tif == Fok)
  }

  ghost predicate BreaksFirst(k: nat, x: Input, now: nat) {
    Breaks(k, x, now) && forall j {:trigger Breaks(j, x, now)} :: 0 <= j < k ==> !Breaks(j, x, now)
  }

  // How the rules, the well-formed orders and the refusal fit together.
  lemma Admitted(x: Input, now: nat)
    ensures Refusal(NewOrder(x, now), now) == "" <==> WellFormed(x, now)
  {
  }

  lemma BreaksOne(x: Input, now: nat)
    ensures forall k: nat {:trigger Breaks(k, x, now)} :: Breaks(k, x, now) ==> k < |RULES| && !WellFormed(x, now)
  {
  }

  lemma BreaksNone(x: Input, now: nat)
    requires forall k {:trigger Breaks(k, x, now)} :: 0 <= k < |RULES| ==> !Breaks(k, x, now)
    ensures WellFormed(x, now)
  {
    var each := [Breaks(0, x, now), Breaks(1, x, now), Breaks(2, x, now), Breaks(3, x, now), Breaks(4, x, now),
        Breaks(5, x, now), Breaks(6, x, now), Breaks(7, x, now), Breaks(8, x, now), Breaks(9, x, now),
        Breaks(10, x, now), Breaks(11, x, now), Breaks(12, x, now), Breaks(13, x, now), Breaks(14, x, now),
        Breaks(15, x, now), Breaks(16, x, now), Breaks(17, x, now), Breaks(18, x, now), Breaks(19, x, now)];
  }

  lemma RefusedEarly(x: Input, now: nat, k: nat)
    requires k < 10 && BreaksFirst(k, x, now)
    ensures Refusal(NewOrder(x, now), now) == RULES[k]
  {
    var each := [Breaks(0, x, now), Breaks(1, x, now), Breaks(2, x, now), Breaks(3, x, now), Breaks(4, x, now),
        Breaks(5, x, now), Breaks(6, x, now), Breaks(7, x, now), Breaks(8, x, now)];
  }

  lemma RefusedLate(x: Input, now: nat, k: nat)
    requires 10 <= k < |RULES| && BreaksFirst(k, x, now)
    ensures Refusal(NewOrder(x, now), now) == RULES[k]
  {
    var each := [Breaks(0, x, now), Breaks(1, x, now), Breaks(2, x, now), Breaks(3, x, now), Breaks(4, x, now),
        Breaks(5, x, now), Breaks(6, x, now), Breaks(7, x, now), Breaks(8, x, now), Breaks(9, x, now),
        Breaks(10, x, now), Breaks(11, x, now), Breaks(12, x, now), Breaks(13, x, now), Breaks(14, x, now),
        Breaks(15, x, now), Breaks(16, x, now), Breaks(17, x, now), Breaks(18, x, now)];
  }

  // Just the well-formed orders are admitted; any other is refused by the first rule it breaks.
  lemma RefusalFirst(x: Input, now: nat) returns (k: nat)
    ensures k <= |RULES| && forall j {:trigger Breaks(j, x, now)} :: 0 <= j < k ==> !Breaks(j, x, now)
    ensures k == |RULES| <==> WellFormed(x, now)
    ensures Refusal(NewOrder(x, now), now) == "" <==> WellFormed(x, now)
    ensures k < |RULES| ==> Breaks(k, x, now) && Refusal(NewOrder(x, now), now) == RULES[k]
  {
    k := 0;
    while k < |RULES| && !Breaks(k, x, now)
      invariant 0 <= k <= |RULES|
      invariant forall j {:trigger Breaks(j, x, now)} :: 0 <= j < k ==> !Breaks(j, x, now)
    {
      k := k + 1;
    }
    Admitted(x, now);
    BreaksOne(x, now);
    hide Breaks, WellFormed, Refusal, NewOrder;
    if k == |RULES| {
      BreaksNone(x, now);
    } else if k < 10 {
      RefusedEarly(x, now, k);
    } else {
      RefusedLate(x, now, k);
    }
  }

  // ---- a submission ----

  // A stop waits until its price has been reached; price 0 means that nothing has traded yet.
  predicate MustWait(x: Input, lastPx: int) {
    && (x.kind == StopLimit || x.kind == StopMarket)
    && (lastPx == 0 || if x.side == Buy then lastPx < x.stopPrice else lastPx > x.stopPrice)
  }

  // The stop that waits is what was submitted.
  predicate WaitsAs(x: Input, at: nat, s: Order) {
    && s.id == x.id && s.side == x.side && s.kind == x.kind && s.tif == x.tif && s.price == x.price
    && s.stopPrice == x.stopPrice && s.quantity == x.quantity && s.remaining == x.quantity && s.minQty == x.minQty
    && s.display == x.display && s.postOnly == x.postOnly && s.expire == x.expire && s.group == x.group
    && s.policy == x.policy && s.status == New && s.timestamp == at
  }

  // The order arrives on the terms it was submitted with; a stop whose price has been reached is a limit order at
  // its price or a market order from then on.
  ghost predicate ArrivesAs(x: Input, at: nat, p0: Snapshot, q: Snapshot) {
    Served(if x.kind == StopLimit then x.(kind := Limit) else if x.kind == StopMarket then x.(kind := Market) else x,
      at, p0, q)
  }

  /** A stop waits behind the others, or the order arrives from p0 to q and its trades `own` set stops loose; these
      arrive each on its own terms, and leave the book at p. */
  ghost predicate Submitted(x: Input, at: nat, lastPx: int, p0: Snapshot, stops0: seq<Order>, q: Snapshot,
          own: seq<Trade>, fired: seq<Order>, told: seq<Trade>, p: Snapshot, stops: seq<Order>) {
    if MustWait(x, lastPx) then
      && p == p0 && own == [] && fired == [] && told == []
      && |stops| == |stops0| + 1 && stops[..|stops0|] == stops0 && WaitsAs(x, at, stops[|stops0|])
    else
      && ArrivesAs(x, at, p0, q) && q.trades == p0.trades + own
      && AllServed(q, fired) && Followed(q, own, stops0, fired, told, p, stops)
  }

  lemma FiredOk(q: Snapshot, stops0: seq<Order>, fired: seq<Order>, p: Snapshot, stops: seq<Order>)
    requires Loosed(q, stops0, fired, p, stops) && StopsOk(stops0)
    ensures forall i {:trigger fired[i]} :: 0 <= i < |fired| ==> StopOk(fired[i]) && fired[i] in stops0
  {
    forall i | 0 <= i < |fired| ensures StopOk(fired[i]) && fired[i] in stops0 {
      assert fired[i] in multiset(fired);
      assert fired[i] in multiset(stops0);
      var k :| 0 <= k < |stops0| && stops0[k] == fired[i];
    }
  }

  // What an arrival sets loose is served.
  lemma {:induction false} LoosedServed(o: Order, p0: Snapshot, stops0: seq<Order>, fired: seq<Order>, p: Snapshot,
          stops: seq<Order>)
    requires Ready(o, p0) && StopsOk(stops0) && Loosed(Arrive(o, p0), stops0, fired, p, stops)
    ensures AllServed(Arrive(o, p0), fired)
  {
    hide Loosed, Arrive, StopsOk;
    ArriveKeeps(o, p0);
    FiredOk(Arrive(o, p0), stops0, fired, p, stops);
    FiredServed(Arrive(o, p0), fired);
  }

  lemma {:induction false} HandledServed(x: Input, at: nat, lastPx: int, p0: Snapshot, stops0: seq<Order>,
          own: seq<Trade>, fired: seq<Order>, told: seq<Trade>, p: Snapshot, stops: seq<Order>)
    requires BookOk(p0.bids, p0.asks) && p0.tid >= |p0.trades| && StopsOk(stops0)
    requires Refusal(NewOrder(x, at), at) == ""
    requires Handled(NewOrder(x, at), lastPx, p0, stops0, own, fired, told, p, stops)
    ensures Submitted(x, at, lastPx, p0, stops0, Arrive(Arriving(NewOrder(x, at)), p0), own, fired, told, p, stops)
  {
    hide BookOk, StopsOk, Arrive, AllServed, Served, Followed, Refusal;
    var o := NewOrder(x, at);
    AdmittedOk(x, at);
    if !MustWait(x, lastPx) {
      var y := if x.kind == StopLimit then x.(kind := Limit)
        else if x.kind == StopMarket then x.(kind := Market) else x;
      ArrivalServed(Arriving(o), y, at, p0);
      FollowedLoosed(Arrive(Arriving(o), p0), own, stops0, fired, told, p, stops);
      LoosedServed(Arriving(o), p0, stops0, fired, p, stops);
    }
  }

  lemma FollowedLoosed(q: Snapshot, own: seq<Trade>, stops0: seq<Order>, fired: seq<Order>, told: seq<Trade>,
          p: Snapshot, stops: seq<Order>)
    requires Followed(q, own, stops0, fired, told, p, stops)
    ensures Loosed(q, stops0, fired, p, stops)
  {
  }

  // ---- whose trades a call makes ----

  lemma LessOne(q: seq<Order>, k: nat)
    requires k < |q|
    ensures multiset(q) == multiset(q[..k] + q[k + 1..]) + multiset{q[k]}
  {
    assert q == q[..k] + ([q[k]] + q[k + 1..]);
  }

  lemma {:induction false} IdsLess(q: seq<Order>, k: nat)
    requires k < |q|
    ensures IdsOf(q) == multiset{q[k].id} + IdsOf(q[..k] + q[k + 1..])
  {
    hide IdsOf;
    IdsSplit(q, k);
    IdsAppend(q[..k], q[k + 1..]);
  }

  lemma {:induction false} RestAlike(x: Order, a: multiset<Order>, b: multiset<Order>, c: multiset<Order>)
    requires a == b + multiset{x} && a == c + multiset{x}
    ensures b == c
  {
    assert b == a - multiset{x} && c == a - multiset{x};
  }

  lemma {:induction false} IdsPerm(a: seq<Order>, b: seq<Order>)
    requires multiset(a) == multiset(b)
    ensures IdsOf(a) == IdsOf(b)
    decreases |a|
  {
    if a == [] {
      assert |multiset(b)| == 0;
    } else {
      hide IdsOf;
      FirstOf(a);
      assert a[0] in multiset(b);
      var k :| 0 <= k < |b| && b[k] == a[0];
      var c := b[..k] + b[k + 1..];
      LessOne(b, k);
      RestAlike(a[0], multiset(a), multiset(a[1..]), multiset(c));
      IdsPerm(a[1..], c);
      FirstId(a);
      IdsLess(b, k);
    }
  }

  lemma {:induction false} IdsApart(q: seq<Order>, i: nat, j: nat)
    requires i < j < |q| && forall id {:trigger IdsOf(q)[id]} :: IdsOf(q)[id] <= 1
    ensures q[i].id != q[j].id
  {
    IdsSplit(q, j);
    IdsSplit(q[..j], i);
    assert IdsOf(q)[q[i].id] <= 1;
    hide IdsOf;
  }

  // No two stops that fire share an id.
  lemma {:induction false} FiredApart(q: Snapshot, stops0: seq<Order>, fired: seq<Order>, p: Snapshot,
          stops: seq<Order>)
    requires Loosed(q, stops0, fired, p, stops) && forall id {:trigger IdsOf(stops0)[id]} :: IdsOf(stops0)[id] <= 1
    ensures forall i, j {:trigger fired[i], fired[j]} :: 0 <= i < j < |fired| ==> fired[i].id != fired[j].id
  {
    hide IdsOf;
    assert multiset(stops + fired) == multiset(stops0);
    IdsPerm(stops + fired, stops0);
    IdsAppend(stops, fired);
    forall id ensures IdsOf(fired)[id] <= 1 { assert IdsOf(stops0)[id] <= 1; }
    forall i, j | 0 <= i < j < |fired| ensures fired[i].id != fired[j].id { IdsApart(fired, i, j); }
  }

  // Beyond `own` every trade is one of a stop that was pending, on that stop's side and within its price, and no
  // stop has traded more than it was for.
  ghost predicate OthersOnly(stops0: seq<Order>, own: seq<Trade>, trades: seq<Trade>, id: nat) {
    && own <= trades
    && (forall i {:trigger trades[i]} :: 0 <= i < |own| ==> trades[i].aggressor == id)
    && (forall i {:trigger trades[i]} :: |own| <= i < |trades| ==>
        trades[i].aggressor != id && ByStop(stops0, trades[i]))
    && (forall k {:trigger stops0[k]} :: 0 <= k < |stops0| ==>
        TradedBy(stops0[k].id, trades) <= stops0[k].remaining)
  }

  lemma {:induction false} CallTrades(q: Snapshot, own: seq<Trade>, stops0: seq<Order>, fired: seq<Order>,
          p: Snapshot, stops: seq<Order>, id: nat)
    requires Loosed(q, stops0, fired, p, stops) && StopsOk(stops0) && AllServed(q, fired) && q.trades == own
    requires forall x {:trigger IdsOf(stops0)[x]} :: IdsOf(stops0)[x] <= 1
    requires forall i {:trigger stops0[i]} :: 0 <= i < |stops0| ==> stops0[i].id != id
    requires forall i {:trigger own[i]} :: 0 <= i < |own| ==> own[i].aggressor == id
    ensures OthersOnly(stops0, own, p.trades, id)
  {
    FiredOk(q, stops0, fired, p, stops);
    FiredApart(q, stops0, fired, p, stops);
    assert p == Fired(fired, q);
    hide AllServed, Loosed, Fired, IdsOf;
    AllTrades(q, fired, id, 0);
    forall i | |own| <= i < |p.trades| ensures p.trades[i].aggressor != id && ByStop(stops0, p.trades[i]) {
      assert ByStop(fired, p.trades[i]);
      var j :| 0 <= j < |fired| && TradeOfStop(fired[j], p.trades[i]);
      var k :| 0 <= k < |stops0| && stops0[k] == fired[j];
    }
    forall i | 0 <= i < |own| ensures p.trades[i].aggressor == id { assert p.trades[i] == own[i]; }
    forall k | 0 <= k < |stops0| ensures TradedBy(stops0[k].id, p.trades) <= stops0[k].remaining {
      StopTotal(q, own, stops0, fired, id, k);
    }
  }

  lemma {:induction false} StopTotal(q: Snapshot, own: seq<Trade>, stops0: seq<Order>, fired: seq<Order>, id: nat,
          k: nat)
    requires AllServed(q, fired) && StopsOk(stops0) && k < |stops0| && stops0[k].id != id && q.trades == own
    requires forall x {:trigger IdsOf(stops0)[x]} :: IdsOf(stops0)[x] <= 1
    requires forall i {:trigger own[i]} :: 0 <= i < |own| ==> own[i].aggressor == id
    requires forall i {:trigger fired[i]} :: 0 <= i < |fired| ==> StopOk(fired[i]) && fired[i] in stops0
    requires forall i, j {:trigger fired[i], fired[j]} :: 0 <= i < j < |fired| ==> fired[i].id != fired[j].id
    ensures TradedBy(stops0[k].id, Fired(fired, q).trades) <= stops0[k].remaining
  {
    var s := stops0[k];
    assert StopOk(s);
    forall i | 0 <= i < |fired| && fired[i].id == s.id ensures fired[i].remaining <= s.remaining {
      var j :| 0 <= j < |stops0| && stops0[j] == fired[i];
      if j < k { IdsApart(stops0, j, k); } else if k < j { IdsApart(stops0, k, j); }
    }
    hide AllServed, Fired, IdsOf;
    AllTrades(q, fired, s.id, s.remaining);
    TradedByOne(s.id, id, own);
  }

  // An index that holds every id once: no two stops share one, and none is new.
  lemma {:induction false} StopsApart(idx: set<nat>, bids: seq<Level>, asks: seq<Level>, stops: seq<Order>, id: nat)
    requires IndexOk(idx, bids, asks, stops, multiset{}) && id !in idx
    ensures forall x {:trigger IdsOf(stops)[x]} :: IdsOf(stops)[x] <= 1
    ensures forall i {:trigger stops[i]} :: 0 <= i < |stops| ==> stops[i].id != id
  {
    hide IdsIn, IdsOf;
    forall x ensures IdsOf(stops)[x] <= 1 {
      assert multiset(idx)[x] == (IdsIn(bids) + IdsIn(asks) + IdsOf(stops) + multiset{})[x];
    }
    forall i | 0 <= i < |stops| ensures stops[i].id != id {
      IdsSplit(stops, i);
      assert (IdsIn(bids) + IdsIn(asks) + IdsOf(stops) + multiset{})[stops[i].id] > 0;
    }
  }

  // The trades of a submission.
  lemma {:induction false} SubmittedTrades(idx: set<nat>, bids: seq<Level>, asks: seq<Level>, x: Input, at: nat,
          lastPx: int, p0: Snapshot, stops0: seq<Order>, q: Snapshot, own: seq<Trade>, fired: seq<Order>,
          told: seq<Trade>, p: Snapshot, stops: seq<Order>)
    requires IndexOk(idx, bids, asks, stops0, multiset{}) && x.id !in idx && StopsOk(stops0) && p0.trades == []
    requires Submitted(x, at, lastPx, p0, stops0, q, own, fired, told, p, stops)
    ensures OthersOnly(stops0, own, p.trades, x.id)
  {
    hide AllServed, IdsOf, IndexOk, Loosed;
    StopsApart(idx, bids, asks, stops0, x.id);
    if MustWait(x, lastPx) {
      forall k | 0 <= k < |stops0| ensures TradedBy(stops0[k].id, p.trades) <= stops0[k].remaining {
        assert StopOk(stops0[k]);
      }
    } else {
      FollowedLoosed(q, own, stops0, fired, told, p, stops);
      OwnTrades(x, at, p0, q);
      assert [] + own == own;
      CallTrades(q, own, stops0, fired, p, stops, x.id);
    }
  }

  lemma OwnTrades(x: Input, at: nat, p0: Snapshot, q: Snapshot)
    requires ArrivesAs(x, at, p0, q) && p0.trades == []
    ensures forall i {:trigger q.trades[i]} :: 0 <= i < |q.trades| ==> q.trades[i].aggressor == x.id
  {
    hide MatchedOn, ConditionsMet, PostedOnly, Passes, LevelsOk;
    var y := if x.kind == StopLimit then x.(kind := Limit)
      else if x.kind == StopMarket then x.(kind := Market) else x;
    forall i | 0 <= i < |q.trades| ensures q.trades[i].aggressor == x.id { assert TradeOn(y, p0, q, i); }
  }

  // ---- an amendment ----

  // Less quantity at the same price: the order keeps its place, with so much left and no more of it shown; every
  // other order stays as and where it is.
  ghost predicate CutTo(o: Order, quantity: int, a: seq<Level>, b: seq<Level>) {
    exists k: nat {:trigger StandsAt(a, o, k)} ::
      && StandsAt(a, o, k)
      && Becomes(a, b, o.price, k,
          o.(remaining := quantity, visible := if o.visible < quantity then o.visible else quantity))
  }

  // The order leaves its place, and the others keep theirs.
  ghost predicate TakenOut(o: Order, a: seq<Level>, b: seq<Level>) {
    exists k: nat {:trigger StandsAt(a, o, k)} :: StandsAt(a, o, k) && Leaves(a, b, o.price, k)
  }

  // One order taken out, or written in its place anew.
  lemma {:induction false} RemoveTakes(side: Side, ls: seq<Level>, id: nat)
    requires LevelsOk(side, ls) && OnSide(ls, id)
    ensures Get(ls, id).id == id && TakenOut(Get(ls, id), ls, Remove(ls, id))
  {
    hide Leaves, LevelsOk, StandsAt;
    var k := PlaceOf(side, ls, id, Get(ls, id).(id := id));
  }

  lemma {:induction false} RewriteCuts(side: Side, ls: seq<Level>, id: nat, o: Order, quantity: int)
    requires LevelsOk(side, ls) && OnSide(ls, id)
    requires o == Get(ls, id).(remaining := quantity, visible := Min(Get(ls, id).visible, quantity))
    ensures Get(ls, id).id == id && CutTo(Get(ls, id), quantity, ls, RewriteIn(ls, o))
  {
    RemoveTakes(side, ls, id);
    hide Becomes, Leaves, LevelsOk, StandsAt, TakenOut;
    var k := PlaceOf(side, ls, id, o);
  }

  // The order arrives anew, at the new price and for the new quantity if these are given, and on its old terms.
  ghost predicate ArrivesAnew(o: Order, newPx: int, newQty: int, at: nat, p: Snapshot, q: Snapshot) {
    Served(
      Input(o.id, o.side, Limit, o.tif, if newPx > 0 then newPx else o.price, 0,
        if newQty > 0 then newQty else o.remaining, 0, o.display, o.postOnly, o.expire, o.group, o.policy), at, p, q)
  }

  lemma {:induction false} RequeuedServed(o: Order, newPx: int, newQty: int, at: nat, p: Snapshot)
    requires BookOk(p.bids, p.asks) && p.tid >= |p.trades| && Settled(o.side, o) && IcebergOk(o)
    ensures ActiveOk(Requeued(o, newPx, newQty, at))
    ensures ArrivesAnew(o, newPx, newQty, at, p, Arrive(Requeued(o, newPx, newQty, at), p))
  {
    hide BookOk, Arrive, Served;
    ArrivalServed(Requeued(o, newPx, newQty, at),
      Input(o.id, o.side, Limit, o.tif, if newPx > 0 then newPx else o.price, 0,
        if newQty > 0 then newQty else o.remaining, 0, o.display, o.postOnly, o.expire, o.group, o.policy), at, p);
  }

  /** What an amendment of order o does: less quantity at the same price cuts the order where it stands; a new price
      or more quantity takes it out, leaving p, and it arrives anew, leaving q, and sets stops loose; anything else
      changes nothing. */
  ghost predicate Amended(o: Order, newPx: int, newQty: int, was: Snapshot, stops0: seq<Order>, p: Snapshot,
          q: Snapshot, fired: seq<Order>, told: seq<Trade>, now: Snapshot, stops: seq<Order>) {
    var own := Other(o.side);
    if 0 < newQty < o.remaining && (newPx <= 0 || newPx == o.price) then
      && CutTo(o, newQty, was.Contra(own), now.Contra(own)) && now == was.WithContra(own, now.Contra(own))
      && stops == stops0 && fired == [] && told == []
    else if (newPx > 0 && newPx != o.price) || newQty > o.remaining then
      && TakenOut(o, was.Contra(own), p.Contra(own)) && p.Contra(o.side) == was.Contra(o.side)
      && p.trades == [] && p.now == was.now + 1 && p.tid == was.tid
      && ArrivesAnew(o, newPx, newQty, p.now, p, q)
      && AllServed(q, fired) && Followed(q, q.trades, stops0, fired, told, now, stops)
    else now == was && stops == stops0 && fired == [] && told == []
  }
}
