/** What an arrival does, told from the terms of the order alone: its side, kind, price, quantity and
    conditions, and the book it meets. */
module FullTerms {
  import opened FullTypes
  import opened FullMatch
  import opened FullLaws
  import opened FullParties
  import opened FullBook
  import opened FullQueues
  import opened FullArrival
  import opened FullAccount
  import opened ArrivalLaws
  import PreChecks

  // What was traded from p to q.
  function Got(p: Snapshot, q: Snapshot): int
    requires p.trades <= q.trades
  {
    PreChecks.Traded(q.trades[|p.trades|..])
  }

  // The terms as an order, to ask of a book what it offers on them.
  function Asker(x: Input): Order {
    Order(x.id, x.side, x.kind, x.tif, x.price, 0, x.quantity, x.quantity, x.minQty, x.display, 0, x.postOnly, New, 0,
      x.expire, x.group, x.policy)
  }

  // The order carries these terms and nothing of it is gone.
  predicate Bears(o: Order, x: Input, at: nat) {
    && o.id == x.id && o.side == x.side && o.kind == x.kind && o.tif == x.tif && o.price == x.price
    && o.remaining == x.quantity && o.minQty == x.minQty && o.display == x.display && o.postOnly == x.postOnly
    && o.expire == x.expire && o.group == x.group && o.policy == x.policy && o.timestamp == at
    && (x.tif == Fok ==> o.quantity == x.quantity)
  }

  // ---- the terms ----

  // A trade of this order: numbered, on its side, now, at a price within its limit, and with an order that was
  // resting at that price and is not of its group.
  ghost predicate TradeOn(x: Input, p: Snapshot, q: Snapshot, i: int)
    requires 0 <= |p.trades| <= i < |q.trades|
  {
    var t := q.trades[i];
    && t.id == p.tid + i - |p.trades| && t.aggressor == x.id && t.side == x.side && t.qty > 0
    && p.now <= t.timestamp <= q.now
    && (x.kind == Limit && x.side == Buy ==> t.price <= x.price)
    && (x.kind == Limit && x.side == Sell ==> t.price >= x.price)
    && (exists group: nat {:trigger (t.passive, group, t.price)} ::
        (t.passive, group, t.price) in MarksIn(p.Contra(x.side)) && (x.group == 0 || group != x.group))
  }

  ghost predicate TradesOn(x: Input, p: Snapshot, q: Snapshot) {
    && p.trades <= q.trades && q.tid == p.tid + |q.trades| - |p.trades| && p.now <= q.now
    && forall i {:trigger TradeOn(x, p, q, i)} :: |p.trades| <= i < |q.trades| ==> TradeOn(x, p, q, i)
  }

  // Enough is shown for a fill-or-kill order, and for the minimum quantity.
  predicate Passes(x: Input, p: Snapshot) {
    && (x.tif == Fok ==> PreChecks.Avail(Asker(x), p.Contra(x.side)) >= x.quantity)
    && (x.minQty > 0 ==> PreChecks.Avail(Asker(x), p.Contra(x.side)) >= x.minQty)
  }

  // It meets an order of its own group before it is filled, and that cancels it.
  predicate Stopped(x: Input, p: Snapshot) {
    && (x.policy == CancelNewest || x.policy == CancelBoth)
    && PreChecks.HasOwn(Asker(x), p.Contra(x.side)) && PreChecks.BeforeOwn(Asker(x), p.Contra(x.side)) < x.quantity
  }

  // What is left of it: its quantity less its trades and, if it is decremented, less what its own orders lose.
  function LeftOver(x: Input, p: Snapshot, q: Snapshot): int
    requires p.trades <= q.trades
  {
    x.quantity - Got(p, q)
    - if x.policy == Decrement then OwnOpenIn(x.group, p.Contra(x.side)) - OwnOpenIn(x.group, q.Contra(x.side)) else 0
  }

  // Only a limit order rests, or a market-to-limit order that has traded, and not if it is immediate.
  predicate MayRest(x: Input, p: Snapshot, q: Snapshot) {
    && (x.kind == Limit || (x.kind == MarketToLimit && |q.trades| > |p.trades|)) && x.tif != Ioc && x.tif != Fok
  }

  // `quantity` of it rests behind the other orders of its price: at its own price, or at that of its first trade
  // if it came without one, showing no more than its display.
  ghost predicate RestsAs(x: Input, at: nat, quantity: int, p: Snapshot, q: Snapshot, r: Order) {
    && r.id == x.id && r.side == x.side && r.kind == Limit && r.tif == x.tif && r.display == x.display
    && r.postOnly == x.postOnly && r.expire == x.expire && r.group == x.group && r.policy == x.policy
    && r.timestamp == at && r.remaining == quantity > 0
    && (x.kind == Limit ==> r.price == x.price)
    && (x.kind == MarketToLimit ==> |p.trades| < |q.trades| && r.price == q.trades[|p.trades|].price)
    && r.visible == (if 0 < x.display < quantity then x.display else quantity)
    && r.status == (if |q.trades| > |p.trades| then PartiallyFilled else New)
    && JoinsBack(p.Contra(Other(x.side)), q.Contra(Other(x.side)), r)
  }

  ghost predicate Rests(x: Input, at: nat, quantity: int, p: Snapshot, q: Snapshot) {
    exists r {:trigger RestsAs(x, at, quantity, p, q, r)} :: RestsAs(x, at, quantity, p, q, r)
  }

  // The other side's best price is out of its reach.
  predicate OutOfReach(x: Input, contra: seq<Level>) {
    || contra == []
    || (x.kind == Limit && if x.side == Buy then contra[0].price > x.price else contra[0].price < x.price)
  }

  // A post-only order trades nothing and leaves the other side alone; it rests exactly if it does not cross.
  ghost predicate PostedOnly(x: Input, at: nat, p: Snapshot, q: Snapshot) {
    && q.trades == p.trades && q.now == p.now && q.tid == p.tid && q.Contra(x.side) == p.Contra(x.side)
    && if OutOfReach(x, p.Contra(x.side)) then Rests(x, at, x.quantity, p, q) else q == p
  }

  // What the other side loses: trades take it from strangers, best price first; nobody joins it.
  ghost predicate TakesFrom(x: Input, p: Snapshot, q: Snapshot)
    requires p.trades <= q.trades
  {
    var ls, after := p.Contra(x.side), q.Contra(x.side);
    && OthersOpenIn(x.group, ls) == Got(p, q) + OthersOpenIn(x.group, after)
    && (x.policy == CancelNewest ==> OwnOpenIn(x.group, after) == OwnOpenIn(x.group, ls))
    && MarksIn(after) <= MarksIn(ls) && NoneThrough(x.side, q.trades, |p.trades|, after)
  }

  // An order that is matched: what it gets, when it stops, and what becomes of the rest.
  ghost predicate MatchedOn(x: Input, at: nat, p: Snapshot, q: Snapshot)
    requires p.trades <= q.trades
  {
    var left := LeftOver(x, p, q);
    && TakesFrom(x, p, q) && left >= 0 && 0 <= Got(p, q) <= x.quantity - left
    && (Stopped(x, p) ==> Got(p, q) == PreChecks.BeforeOwn(Asker(x), p.Contra(x.side)))
    && (left > 0 && !Stopped(x, p) ==> OutOfReach(x, q.Contra(x.side)))
    && (if left > 0 && !Stopped(x, p) && MayRest(x, p, q) then Rests(x, at, left, p, q)
        else q.Contra(Other(x.side)) == p.Contra(Other(x.side)))
  }

  // A fill-or-kill order is filled exactly if no own order stops it on the way; a minimum quantity is met exactly
  // if none does before, or if a decremented order brings what the minimum costs.
  ghost predicate ConditionsMet(x: Input, p: Snapshot, q: Snapshot)
    requires p.trades <= q.trades && LevelsOk(x.side, p.Contra(x.side))
  {
    var (o, contra) := (Asker(x), p.Contra(x.side));
    var free := x.policy == CancelOldest || !PreChecks.HasOwn(o, contra);
    && (x.tif == Fok ==> (Got(p, q) == x.quantity <==> free || x.quantity <= PreChecks.BeforeOwn(o, contra)))
    && (x.minQty > 0 && (free || x.minQty <= PreChecks.BeforeOwn(o, contra)) ==> Got(p, q) >= x.minQty)
    && (x.minQty > 0 && (x.policy == CancelNewest || x.policy == CancelBoth) ==>
        (Got(p, q) >= x.minQty <==> free || x.minQty <= PreChecks.BeforeOwn(o, contra)))
    && (x.minQty > 0 && x.policy == Decrement ==>
        (Got(p, q) >= x.minQty <==> 0 <= PreChecks.Cost(o, contra, p.now, x.minQty) <= x.quantity))
  }

  /** From p to q an order with these terms has arrived. */
  ghost predicate Served(x: Input, at: nat, p: Snapshot, q: Snapshot) {
    && TradesOn(x, p, q) && LevelsOk(x.side, p.Contra(x.side))
    && if x.postOnly then PostedOnly(x, at, p, q)
       else if !Passes(x, p) then q == p
       else MatchedOn(x, at, p, q) && ConditionsMet(x, p, q)
  }

  // ---- every arrival keeps to the terms ----

  lemma {:induction false} AsAsked(o: Order, x: Input, at: nat, p: Snapshot, n: int)
    requires Bears(o, x, at) && LevelsOk(x.side, p.Contra(x.side))
    ensures var (a, contra) := (Asker(x), p.Contra(x.side));
      && PreChecks.Avail(o, contra) == PreChecks.Avail(a, contra)
      && PreChecks.HasOwn(o, contra) == PreChecks.HasOwn(a, contra)
      && PreChecks.BeforeOwn(o, contra) == PreChecks.BeforeOwn(a, contra)
      && PreChecks.Cost(o, contra, p.now, n) == PreChecks.Cost(a, contra, p.now, n)
  {
    PreChecks.AvailSame(o, Asker(x), p.Contra(x.side));
    PreChecks.BeforeSame(o, Asker(x), p.Contra(x.side));
    CostSame(o, Asker(x), p.Contra(x.side), p.now, n);
  }

  lemma {:induction false} CostSame(a: Order, b: Order, ls: seq<Level>, now: nat, n: int)
    requires a.group == b.group && a.price == b.price && a.side == b.side && LevelsOk(a.side, ls)
    ensures PreChecks.Cost(a, ls, now, n) == PreChecks.Cost(b, ls, now, n)
    decreases PreChecks.OpenIn(ls)
  {
    if n > 0 && ls != [] && CanMatch(a, ls[0].price) {
      PreChecks.PeeledOk(a.side, a, ls, now);
      PreChecks.OpenNat(a.side, a, ls);
      var o := ls[0].queue[0];
      var later := if Reloads(o, o.visible) then now + 1 else now;
      hide LevelsOk, PreChecks.OpenIn, PreChecks.Peeled;
      CostSame(a, b, PreChecks.Peeled(ls, now), later, if Conflict(a, o) then n else n - o.visible);
    }
  }

  lemma ViewOk(o: Order, p: Snapshot)
    requires Ready(o, p)
    ensures Ok(View(o, p)) && AllSettled(Other(o.side), p.Contra(o.side)) && LevelsOk(o.side, p.Contra(o.side))
    ensures LevelsOk(Other(o.side), p.Contra(Other(o.side)))
  {
  }

  lemma {:induction false} MatchedOver(s: State, base: nat)
    requires Ok(s)
    ensures Ok(Matched(s, base)) && !Going(Matched(s, base))
  {
  }

  // Matching as an arrival sees it.
  lemma MetServed(o: Order, x: Input, at: nat, p: Snapshot) returns (t: State)
    requires Ready(o, p) && Bears(o, x, at)
    ensures Ok(View(o, p)) && t == Matched(View(o, p), p.tid - |p.trades|) && Ok(t) && !Going(t)
    ensures SameTaker(o, t.inc) && Follows(View(o, p), t, p.tid - |p.trades|)
    ensures Accounted(View(o, p), t) && MarksIn(t.levels) <= MarksIn(p.Contra(o.side))
    ensures NoneThrough(o.side, t.trades, |p.trades|, t.levels)
    ensures forall i {:trigger t.trades[i]} :: |p.trades| <= i < |t.trades| ==> WithStranger(View(o, p), t.trades[i])
    ensures Met(o, p) == (t.inc,
        p.WithContra(o.side, t.levels).(trades := t.trades, now := t.now, tid := p.tid - |p.trades| + |t.trades|))
  {
    hide BookOk, AllSettled, Matched, Accounted, NoneThrough, MarksIn, Follows, WithStranger, Met, Going;
    var s, base := View(o, p), p.tid - |p.trades|;
    ViewOk(o, p);
    t := MetFacts(o, p);
    MatchedOver(s, base);
    MatchedFollows(s, base, Other(o.side));
    MatchedAccount(s, base);
    MatchedThrough(s, base, Other(o.side));
    MatchedMarks(s, base);
    NoSelfTrades(s, base);
    MetIs(o, p, t);
  }

  lemma {:induction false} MatchedMarks(s: State, base: nat)
    requires Ok(s)
    ensures MarksIn(Matched(s, base).levels) <= MarksIn(s.levels)
    decreases s.inc.remaining, Measure(s)
  {
    hide Step, Matched, MarksIn, Ok, Measure;
    if Going(s) {
      MatchedStep(s, base);
      StepMarks(s, base + |s.trades|);
      MatchedMarks(Step(s, base + |s.trades|), base);
    } else {
      MatchedNone(s, base);
    }
  }

  // When matching ends, and whether the taker has been cancelled by then.
  lemma {:induction false} MetEnds(o: Order, x: Input, at: nat, p: Snapshot, t: State)
    requires Ready(o, p) && Bears(o, x, at) && Ok(View(o, p)) && t == Matched(View(o, p), p.tid - |p.trades|)
    requires p.trades <= t.trades && Accounted(View(o, p), t) && SameTaker(o, t.inc) && !Going(t)
    ensures Stopped(x, p) ==>
        t.inc.status == Cancelled
        && PreChecks.Since(View(o, p), t) == PreChecks.BeforeOwn(Asker(x), p.Contra(x.side))
    ensures !Stopped(x, p) && t.inc.remaining > 0 ==> t.inc.status != Cancelled && OutOfReach(x, t.levels)
    ensures 0 <= PreChecks.Since(View(o, p), t) <= o.remaining - t.inc.remaining
  {
    hide BookOk, Matched, Accounted, PreChecks.HasOwn, PreChecks.BeforeOwn, PreChecks.Avail, PreChecks.Traded, Ok,
        PreChecks.Cost, LevelsOk;
    var s, base := View(o, p), p.tid - |p.trades|;
    ViewOk(o, p);
    AsAsked(o, x, at, p, 0);
    PreChecks.SinceNat(s, base);
    PreChecks.TradedBelow(s, base);
    Cancels(s, t);
    if Stopped(x, p) {
      PreChecks.OwnStops(s, base);
    } else if x.policy == CancelNewest || x.policy == CancelBoth {
      PreChecks.FirstOwn(s, base);
    }
  }

  lemma Cancels(s: State, t: State)
    requires Accounted(s, t) && s.inc.status != Cancelled
    ensures t.inc.status == Cancelled ==>
        s.inc.policy == CancelNewest || s.inc.policy == CancelBoth
        || (s.inc.policy == Decrement && t.inc.remaining == 0)
  {
  }

  // The snapshot after matching.
  function Next(o: Order, p: Snapshot, t: State): Snapshot
    requires p.tid >= |p.trades|
  {
    p.WithContra(o.side, t.levels).(trades := t.trades, now := t.now, tid := p.tid - |p.trades| + |t.trades|)
  }

  // A market-to-limit order that goes on finds nothing more: what is left of its market part has emptied the
  // other side.
  lemma {:induction false} CarriedIs(o: Order, p: Snapshot, t: State)
    requires Ready(o, p) && Ok(View(o, p)) && t == Matched(View(o, p), p.tid - |p.trades|)
    requires p.trades <= t.trades && SameTaker(o, t.inc) && !Going(t) && Met(o, p) == (t.inc, Next(o, p, t))
    ensures var traded := |t.trades| > |p.trades|;
      Carried(o, p) ==
      if o.kind == MarketToLimit then
        if !traded then Next(o, p, t)
        else Disposed(t.inc.(price := t.trades[|p.trades|].price, kind := Limit, minQty := 0), true, Next(o, p, t))
      else Disposed(if traded then t.inc.(minQty := 0) else t.inc, traded, Next(o, p, t))
  {
    hide BookOk, Matched, Disposed;
    var q := Next(o, p, t);
    if o.kind == MarketToLimit && |t.trades| > |p.trades| {
      var l := t.inc.(price := q.trades[|p.trades|].price, kind := Limit, minQty := 0);
      if l.remaining > 0 && l.status != Cancelled {
        assert t.levels == [];
        MatchedNone(View(l, q), q.tid - |q.trades|);
        MetIs(l, q, View(l, q));
        assert Met(l, q) == (l, q);
      }
    }
  }

  // What is disposed of rests as its terms say, or the book stays as it is.
  lemma {:induction false} DisposedServed(o: Order, x: Input, at: nat, p: Snapshot, t: State)
    requires Ready(o, p) && Bears(o, x, at) && p.trades <= t.trades && SameTaker(o, t.inc)
    ensures var traded := |t.trades| > |p.trades|; var n := Next(o, p, t);
      var r := if o.kind == MarketToLimit && traded then
        t.inc.(price := t.trades[|p.trades|].price, kind := Limit, minQty := 0)
        else if traded then t.inc.(minQty := 0) else t.inc;
      var q := Disposed(r, traded, n);
      && q.trades == t.trades && q.now == t.now && q.tid == p.tid - |p.trades| + |t.trades|
      && q.Contra(x.side) == t.levels
      && (if t.inc.remaining > 0 && t.inc.status != Cancelled && r.kind == Limit && x.tif != Ioc
          then Rests(x, at, t.inc.remaining, p, q) else q == n)
  {
    var traded := |t.trades| > |p.trades|;
    var n := Next(o, p, t);
    var r := if o.kind == MarketToLimit && traded then
        t.inc.(price := t.trades[|p.trades|].price, kind := Limit, minQty := 0)
      else if traded then t.inc.(minQty := 0) else t.inc;
    var side := Other(o.side);
    ViewOk(o, p);
    hide BookOk, LevelsOk, Insert;
    assert n.Contra(side) == p.Contra(side) && n.Contra(o.side) == t.levels;
    if t.inc.remaining > 0 && t.inc.status != Cancelled && r.kind == Limit && x.tif != Ioc {
      var q := Disposed(r, traded, n);
      var f := r.(status := if traded then PartiallyFilled else New, visible := Shown(r.display, r.remaining));
      InsertJoins(side, p.Contra(side), f);
      assert q.Contra(side) == Insert(side, p.Contra(side), f);
      hide JoinsBack;
      assert RestsAs(x, at, t.inc.remaining, p, q, f);
    }
  }

  // Past its checks.
  lemma {:induction false} CarriedServed(o: Order, x: Input, at: nat, p: Snapshot)
    requires Ready(o, p) && Bears(o, x, at) && !o.postOnly && Passes(x, p)
    ensures TradesOn(x, p, Carried(o, p)) && MatchedOn(x, at, p, Carried(o, p))
  {
    hide BookOk, Matched, Disposed, Carried, Going, Ok, Stopped, Rests, NoneThrough, MarksIn, PreChecks.Traded, Met,
        OwnOpenIn, OthersOpenIn, OutOfReach, PreChecks.BeforeOwn, PreChecks.Avail, WithStranger, TradeOn, Follows,
        Passes, Accounted;
    var t := MetServed(o, x, at, p);
    FollowsOn(View(o, p), t, p.tid - |p.trades|);
    CarriedIs(o, p, t);
    DisposedServed(o, x, at, p, t);
    MetEnds(o, x, at, p, t);
    FokUsed(o, x, at, p, t);
    var q := Carried(o, p);
    forall i | |p.trades| <= i < |q.trades| ensures TradeOn(x, p, q, i) {
      TradeServed(o, x, at, p, q, t, i);
    }
    TakenFrom(o, x, at, p, q, t);
  }

  lemma FollowsOn(s: State, t: State, base: nat)
    requires Follows(s, t, base)
    ensures s.trades <= t.trades && s.now <= t.now
  {
  }

  // The account of matching as the terms put it.
  lemma TakenFrom(o: Order, x: Input, at: nat, p: Snapshot, q: Snapshot, t: State)
    requires Bears(o, x, at) && p.trades <= t.trades == q.trades && q.Contra(x.side) == t.levels
    requires Accounted(View(o, p), t) && MarksIn(t.levels) <= MarksIn(p.Contra(o.side))
    requires NoneThrough(o.side, t.trades, |p.trades|, t.levels) && t.inc.remaining >= 0
    ensures TakesFrom(x, p, q) && LeftOver(x, p, q) == t.inc.remaining && Got(p, q) == PreChecks.Since(View(o, p), t)
  {
    hide NoneThrough, MarksIn, PreChecks.Traded, OwnOpenIn, OthersOpenIn;
  }

  lemma TradeServed(o: Order, x: Input, at: nat, p: Snapshot, q: Snapshot, t: State, i: nat)
    requires ActiveOk(o) && Bears(o, x, at) && p.tid >= |p.trades|
    requires q.trades == t.trades && q.now == t.now && |p.trades| <= i < |t.trades|
    requires Follows(View(o, p), t, p.tid - |p.trades|) && WithStranger(View(o, p), t.trades[i])
    ensures TradeOn(x, p, q, i)
  {
    var y := t.trades[i];
    var group: nat :| (y.passive, group, y.price) in MarksIn(p.Contra(o.side))
      && (o.group == 0 || group != o.group);
  }

  // A fill-or-kill order that has passed its check leaves nothing.
  lemma {:induction false} FokUsed(o: Order, x: Input, at: nat, p: Snapshot, t: State)
    requires Ready(o, p) && Bears(o, x, at) && Passes(x, p)
    requires Ok(View(o, p)) && t == Matched(View(o, p), p.tid - |p.trades|)
    ensures x.tif == Fok ==> t.inc.remaining == 0 || t.inc.status == Cancelled
  {
    hide BookOk, Matched, PreChecks.Avail, PreChecks.HasOwn, PreChecks.BeforeOwn, PreChecks.Cost, LevelsOk;
    ViewOk(o, p);
    AsAsked(o, x, at, p, 0);
    if x.tif == Fok { PreChecks.EnoughShown(View(o, p), p.tid - |p.trades|); }
  }

  lemma {:induction false} PostedServed(o: Order, x: Input, at: nat, p: Snapshot)
    requires Ready(o, p) && Bears(o, x, at) && o.postOnly
    ensures TradesOn(x, p, Arrive(o, p)) && PostedOnly(x, at, p, Arrive(o, p))
  {
    var side := Other(o.side);
    ViewOk(o, p);
    hide BookOk, LevelsOk, Insert, Carried;
    var q := Arrive(o, p);
    if !Crossing(o, p) {
      var r := o.(status := New, visible := Shown(o.display, o.remaining));
      InsertJoins(side, p.Contra(side), r);
      hide JoinsBack;
      assert RestsAs(x, at, x.quantity, p, q, r);
    }
  }

  // Its check decides; if it fails, nothing happens at all.
  lemma {:induction false} KilledIs(o: Order, x: Input, at: nat, p: Snapshot)
    requires Ready(o, p) && Bears(o, x, at)
    ensures Killed(o, p) <==> !Passes(x, p)
  {
    hide BookOk, LevelsOk, PreChecks.Avail, PreChecks.HasOwn, PreChecks.BeforeOwn, PreChecks.Cost;
    ViewOk(o, p);
    AsAsked(o, x, at, p, 0);
  }

  lemma {:induction false} ConditionsServed(o: Order, x: Input, at: nat, p: Snapshot)
    requires Ready(o, p) && Bears(o, x, at) && !o.postOnly && Passes(x, p) && p.trades <= Arrive(o, p).trades
    ensures LevelsOk(x.side, p.Contra(x.side)) && ConditionsMet(x, p, Arrive(o, p))
  {
    hide BookOk, LevelsOk, Carried, Arrive, PreChecks.Avail, PreChecks.HasOwn, PreChecks.BeforeOwn, PreChecks.Cost,
        PreChecks.Traded;
    ViewOk(o, p);
    AsAsked(o, x, at, p, x.minQty);
    if x.tif == Fok { FokArrival(o, p); }
    if x.minQty > 0 { MinQtyArrival(o, p); }
  }

  // Whatever is on the book and whatever its terms, an order that arrives is served by them.
  lemma {:induction false} ArrivalServed(o: Order, x: Input, at: nat, p: Snapshot)
    requires Ready(o, p) && Bears(o, x, at)
    ensures Served(x, at, p, Arrive(o, p))
  {
    ViewOk(o, p);
    KilledIs(o, x, at, p);
    if o.postOnly {
      PostedServed(o, x, at, p);
      hide TradesOn, PostedOnly;
    } else {
      hide MatchedOn, ConditionsMet, Carried, Killed, Passes, BookOk, LevelsOk, TradeOn;
      if Passes(x, p) {
        CarriedServed(o, x, at, p);
        ConditionsServed(o, x, at, p);
      }
    }
  }

  // From p to q the order has arrived, for what remains of it.
  ghost predicate OrderServed(o: Order, p: Snapshot, q: Snapshot) {
    Served(
      Input(o.id, o.side, o.kind, o.tif, o.price, 0, o.remaining, o.minQty, o.display, o.postOnly, o.expire, o.group,
        o.policy), o.timestamp, p, q)
  }

  lemma {:induction false} OrderArrives(o: Order, p: Snapshot)
    requires ActiveOk(o) && BookOk(p.bids, p.asks) && p.tid >= |p.trades|
    ensures OrderServed(o, p, Arrive(o, p))
  {
    hide BookOk, Arrive, Served;
    ArrivalServed(o,
      Input(o.id, o.side, o.kind, o.tif, o.price, 0, o.remaining, o.minQty, o.display, o.postOnly, o.expire, o.group,
        o.policy), o.timestamp, p);
  }

  // ---- stops ----

  // From p to q the stop s has arrived: on its own side, for its own quantity and under its own conditions, within
  // its own price if it is a stop-limit order and at any price if it is a stop-market order.
  ghost predicate StopServed(s: Order, p: Snapshot, q: Snapshot) {
    Served(
      Input(s.id, s.side, if s.kind == StopLimit then Limit else Market, s.tif, if s.kind == StopLimit then s.price
          else 0,
        0, s.remaining, s.minQty, s.display, s.postOnly, s.expire, s.group, s.policy), s.timestamp, p, q)
  }

  lemma {:induction false} StopArrives(s: Order, p: Snapshot)
    requires StopOk(s) && BookOk(p.bids, p.asks) && p.tid >= |p.trades|
    ensures Ready(Released(s), p) && StopServed(s, p, Arrive(Released(s), p))
  {
    hide BookOk, Arrive, Served;
    ArrivalServed(Released(s),
      Input(s.id, s.side, if s.kind == StopLimit then Limit else Market, s.tif, if s.kind == StopLimit then s.price
          else 0,
        0, s.remaining, s.minQty, s.display, s.postOnly, s.expire, s.group, s.policy), s.timestamp, p);
  }

  // ---- the book stays in order ----

  // A remainder that rests does not cross and has no conditions left.
  lemma {:induction false} DisposedKeeps(o: Order, traded: bool, p: Snapshot)
    requires BookOk(p.bids, p.asks) && p.tid >= |p.trades| && o.display >= 0
    requires o.group != 0 ==> o.policy != NoPolicy
    requires o.remaining > 0 && o.status != Cancelled && o.kind == Limit && o.tif != Ioc ==>
        o.price > 0 && o.tif != Fok && o.minQty == 0 && NoCross(o, p.Contra(o.side))
    ensures var q := Disposed(o, traded, p); BookOk(q.bids, q.asks) && q.tid >= |q.trades|
  {
    hide BookOk, Insert, NoCross;
    if o.remaining > 0 && o.status != Cancelled && o.kind == Limit && o.tif != Ioc {
      var f := o.(status := if traded then PartiallyFilled else New, visible := Shown(o.display, o.remaining));
      NoCrossSame(o, f, p.Contra(o.side));
      BookInserted(p.bids, p.asks, f);
    }
  }

  lemma NoCrossSame(o: Order, f: Order, contra: seq<Level>)
    requires f.side == o.side && f.price == o.price
    ensures NoCross(o, contra) <==> NoCross(f, contra)
  {
  }

  lemma {:induction false} CarriedKeeps(o: Order, p: Snapshot)
    requires Ready(o, p) && !o.postOnly && !Killed(o, p)
    ensures var q := Carried(o, p); BookOk(q.bids, q.asks) && q.tid >= |q.trades|
  {
    hide BookOk, AllSettled, Matched, Carried, Disposed, PreChecks.Avail, LevelsOk;
    ViewOk(o, p);
    var s, base := View(o, p), p.tid - |p.trades|;
    var t := MetFacts(o, p);
    BookMatched(p.bids, p.asks, s, base);
    MatchedOver(s, base);
    MetIs(o, p, t);
    CarriedIs(o, p, t);
    if o.tif == Fok { PreChecks.EnoughShown(s, base); }
    if o.minQty > 0 { PreChecks.MinQtyMet(s, base); }
    var traded, n := |t.trades| > |p.trades|, Next(o, p, t);
    if o.kind == MarketToLimit {
      if traded {
        MatchedPrices(s, base, Other(o.side), |p.trades|);
        DisposedKeeps(t.inc.(price := t.trades[|p.trades|].price, kind := Limit, minQty := 0), true, n);
      }
    } else {
      DisposedKeeps(if traded then t.inc.(minQty := 0) else t.inc, traded, n);
    }
  }

  // Every arrival leaves the book in order.
  lemma {:induction false} ArriveKeeps(o: Order, p: Snapshot)
    requires Ready(o, p)
    ensures var q := Arrive(o, p); BookOk(q.bids, q.asks) && q.tid >= |q.trades|
  {
    if o.postOnly {
      var f := o.(status := New, visible := Shown(o.display, o.remaining));
      if !Crossing(o, p) {
        hide BookOk, Insert;
        BookInserted(p.bids, p.asks, f);
      }
    } else {
      hide BookOk, Carried, Killed;
      if !Killed(o, p) { CarriedKeeps(o, p); }
    }
  }
}
