/** What matching by levels keeps and conserves. */
module FullLaws {
  import opened FullTypes
  import opened FullMatch

  function IdsOf(q: seq<Order>): multiset<nat> {
    if q == [] then multiset{} else multiset{q[0].id} + IdsOf(q[1..])
  }

  function IdsIn(ls: seq<Level>): multiset<nat> {
    if ls == [] then multiset{} else IdsOf(ls[0].queue) + IdsIn(ls[1..])
  }

  lemma {:induction false} IdsAppend(a: seq<Order>, b: seq<Order>)
    ensures IdsOf(a + b) == IdsOf(a) + IdsOf(b)
  {
    if a == [] {
      assert a + b == b;
    } else {
      assert (a + b)[1..] == a[1..] + b;
      IdsAppend(a[1..], b);
    }
  }

  // ---- what every resting order keeps ----

  // A resting order of this side: a limit order without conditions left on it.
  predicate Settled(side: Side, o: Order) {
    && o.side == side && o.kind == Limit && o.price > 0 && o.tif != Ioc && o.tif != Fok && o.minQty == 0
        && o.display >= 0
    && (o.status == New || o.status == PartiallyFilled) && (o.group != 0 ==> o.policy != NoPolicy)
  }

  ghost predicate AllSettled(side: Side, ls: seq<Level>) {
    forall i, j {:trigger ls[i].queue[j]} :: 0 <= i < |ls| && 0 <= j < |ls[i].queue| ==> Settled(side, ls[i].queue[j])
  }

  function Other(side: Side): Side {
    if side == Buy then Sell else Buy
  }

  lemma WithQueueSettled(side: Side, ls: seq<Level>, q: seq<Order>)
    requires AllSettled(side, ls) && ls != [] && forall j {:trigger q[j]} :: 0 <= j < |q| ==> Settled(side, q[j])
    ensures AllSettled(side, WithQueue(ls, q))
  {
    var r := WithQueue(ls, q);
    forall i, j | 0 <= i < |r| && 0 <= j < |r[i].queue| ensures Settled(side, r[i].queue[j]) {
      if q == [] {
        assert r[i] == ls[i + 1] && Settled(side, ls[i + 1].queue[j]);
      } else if i > 0 {
        assert r[i] == ls[i] && Settled(side, ls[i].queue[j]);
      }
    }
  }

  lemma StepSettled(s: State, tid: nat, side: Side)
    requires Ok(s) && Going(s) && s.levels[0].queue != [] && AllSettled(side, s.levels)
    ensures AllSettled(side, Step(s, tid).levels)
  {
    var q := s.levels[0].queue;
    var qty := Min(s.inc.remaining, q[0].visible);
    var after := if Conflict(s.inc, q[0]) then q[0].status else PartiallyFilled;
    var p := Lowered(q, qty, s.now, after);
    forall j | 0 <= j < |q| ensures Settled(side, q[j]) { assert Settled(side, s.levels[0].queue[j]); }
    forall j | 0 <= j < |p| ensures Settled(side, p[j]) {
      if j > 0 { assert p[j] == q[j] || (j < |q| - 1 && p[j] == q[j + 1]) || j == |q| - 1; }
    }
    WithQueueSettled(side, s.levels, p);
    WithQueueSettled(side, s.levels, q[1..]);
  }

  // ---- what the taker keeps ----

  predicate SameTaker(a: Order, b: Order) {
    && b == a.(remaining := b.remaining, visible := b.visible, status := b.status)
    && 0 <= b.remaining <= a.remaining && (b.status == a.status || b.status == Cancelled)
  }

  // No contra price is better than the best one there was.
  ghost predicate NoBetter(side: Side, a: seq<Level>, b: seq<Level>) {
    forall i {:trigger b[i]} :: 0 <= i < |b| ==> a != [] && !Better(side, b[i].price, a[0].price)
  }

  // The trades made since carry consecutive ids, the taker's id and side, and prices within its own, if it has one.
  ghost predicate TradesFrom(s: State, t: State, base: nat) {
    && s.trades <= t.trades
    && forall i {:trigger t.trades[i]} :: |s.trades| <= i < |t.trades| ==>
        t.trades[i].id == base + i && TradeAs(s.inc, t.trades[i]) && s.now <= t.trades[i].timestamp <= t.now
  }

  predicate TradeAs(o: Order, t: Trade) {
    && t.aggressor == o.id && t.side == o.side && t.qty > 0
    && (o.price != 0 ==> if o.side == Buy then t.price <= o.price else t.price >= o.price)
  }

  /** t can be reached from s: no order is lost or gained, and nothing else changes hands. */
  ghost predicate Follows(s: State, t: State, base: nat) {
    && SameTaker(s.inc, t.inc)
    && IdsIn(t.levels) + multiset(t.gone) == IdsIn(s.levels) + multiset(s.gone) && s.gone <= t.gone
    && NoBetter(s.inc.side, s.levels, t.levels)
    && TradesFrom(s, t, base) && s.now <= t.now
  }

  lemma {:induction false} LoweredIds(q: seq<Order>, qty: int, now: nat, after: Status)
    requires q != []
    ensures IdsOf(q) == IdsOf(Lowered(q, qty, now, after)) + if q[0].remaining == qty then multiset{q[0].id}
        else multiset{}
  {
    var o := q[0].(remaining := q[0].remaining - qty, visible := q[0].visible - qty);
    if o.remaining != 0 && o.visible == 0 && o.display > 0 {
      IdsAppend(q[1..], [o.(visible := Min(o.display, o.remaining), timestamp := now + 1)]);
    } else if o.remaining != 0 {
      assert ([o.(status := after)] + q[1..])[1..] == q[1..];
    }
  }

  lemma {:induction false} WithQueueIds(ls: seq<Level>, q: seq<Order>)
    requires ls != []
    ensures IdsIn(WithQueue(ls, q)) == IdsOf(q) + IdsIn(ls[1..])
  {
    if q != [] { assert WithQueue(ls, q)[1..] == ls[1..]; }
  }

  lemma WithQueueNoBetter(side: Side, ls: seq<Level>, q: seq<Order>)
    requires LevelsOk(side, ls) && ls != []
    ensures NoBetter(side, ls, WithQueue(ls, q)) && NoBetter(side, ls, ls)
  {
    var r := WithQueue(ls, q);
    forall i | 0 <= i < |r| ensures !Better(side, r[i].price, ls[0].price) {
      if q == [] { assert r[i] == ls[i + 1]; } else if i > 0 { assert r[i] == ls[i]; }
    }
  }

  // A step leaves the levels alone, takes their first order out, or lowers it.
  lemma StepShape(s: State, tid: nat) returns (k: nat, after: Status)
    requires s.levels != [] && s.levels[0].queue != []
    ensures k == if !Conflict(s.inc, s.levels[0].queue[0]) || s.inc.policy == Decrement then 2
        else if s.inc.policy == CancelOldest || s.inc.policy == CancelBoth then 1 else 0
    ensures k == 0 ==> Step(s, tid).levels == s.levels && Step(s, tid).gone == s.gone
    ensures k == 1 ==>
        Step(s, tid).levels == WithQueue(s.levels, s.levels[0].queue[1..])
        && Step(s, tid).gone == s.gone + [s.levels[0].queue[0].id]
    ensures k == 2 ==> var q, qty := s.levels[0].queue, Min(s.inc.remaining, s.levels[0].queue[0].visible);
      && Step(s, tid).levels == WithQueue(s.levels, Lowered(q, qty, s.now, after))
      && Step(s, tid).gone == if q[0].remaining == qty then s.gone + [q[0].id] else s.gone
  {
    var q := s.levels[0].queue;
    after := if Conflict(s.inc, q[0]) then q[0].status else PartiallyFilled;
    k := if !Conflict(s.inc, q[0]) || s.inc.policy == Decrement then 2
         else if s.inc.policy == CancelOldest || s.inc.policy == CancelBoth then 1 else 0;
  }

  lemma StepIds(s: State, tid: nat)
    requires Ok(s) && Going(s) && s.levels[0].queue != []
    ensures IdsIn(Step(s, tid).levels) + multiset(Step(s, tid).gone) == IdsIn(s.levels) + multiset(s.gone)
    ensures s.gone <= Step(s, tid).gone
  {
    var q, qty := s.levels[0].queue, Min(s.inc.remaining, s.levels[0].queue[0].visible);
    var k, after := StepShape(s, tid);
    HeadIds(s.levels);
    WithQueueIds(s.levels, q[1..]);
    WithQueueIds(s.levels, Lowered(q, qty, s.now, after));
    LoweredIds(q, qty, s.now, after);
    hide Step, Lowered, WithQueue, IdsIn, IdsOf;
    assert IdsOf(q) == multiset{q[0].id} + IdsOf(q[1..]) by { FirstId(q); }
    assert multiset(s.gone + [q[0].id]) == multiset(s.gone) + multiset{q[0].id};
  }

  lemma {:induction false} FirstId(q: seq<Order>)
    requires q != []
    ensures IdsOf(q) == multiset{q[0].id} + IdsOf(q[1..])
  {
  }

  lemma {:induction false} HeadIds(ls: seq<Level>)
    requires ls != []
    ensures IdsIn(ls) == IdsOf(ls[0].queue) + IdsIn(ls[1..])
  {
  }

  lemma StepNoBetter(s: State, tid: nat)
    requires Ok(s) && Going(s) && s.levels[0].queue != []
    ensures NoBetter(s.inc.side, s.levels, Step(s, tid).levels)
  {
    var q := s.levels[0].queue;
    var qty := Min(s.inc.remaining, q[0].visible);
    WithQueueNoBetter(s.inc.side, s.levels,
        Lowered(q, qty, s.now, if Conflict(s.inc, q[0]) then q[0].status else PartiallyFilled));
    WithQueueNoBetter(s.inc.side, s.levels, q[1..]);
  }

  lemma StepTrades(s: State, base: nat)
    requires Ok(s) && Going(s) && s.levels[0].queue != []
    ensures TradesFrom(s, Step(s, base + |s.trades|), base) && SameTaker(s.inc, Step(s, base + |s.trades|).inc)
    ensures s.now <= Step(s, base + |s.trades|).now
  {
    var l := s.levels[0];
    assert LevelOk(l) && RestingOk(l.price, l.queue[0]);
  }

  lemma StepFollows(s: State, base: nat)
    requires Ok(s) && Going(s) && s.levels[0].queue != []
    ensures Follows(s, Step(s, base + |s.trades|), base)
  {
    hide Step, TradesFrom, SameTaker, NoBetter, IdsIn;
    StepIds(s, base + |s.trades|);
    StepNoBetter(s, base + |s.trades|);
    StepTrades(s, base);
  }

  lemma FollowsAgain(s: State, t: State, u: State, base: nat)
    requires Follows(s, t, base) && Follows(t, u, base)
    ensures Follows(s, u, base)
  {
    forall i | 0 <= i < |u.levels| ensures s.levels != [] && !Better(s.inc.side, u.levels[i].price, s.levels[0].price) {
      assert t.levels != [] && !Better(s.inc.side, u.levels[i].price, t.levels[0].price);
      assert !Better(s.inc.side, t.levels[0].price, s.levels[0].price);
    }
    forall i | |s.trades| <= i < |u.trades|
        ensures u.trades[i].id == base + i && TradeAs(s.inc, u.trades[i])
        && s.now <= u.trades[i].timestamp <= u.now {
      if i < |t.trades| { assert u.trades[i] == t.trades[i]; }
    }
  }

  lemma FollowsSelf(s: State, base: nat)
    requires Ok(s)
    ensures Follows(s, s, base)
  {
    if s.levels != [] { WithQueueNoBetter(s.inc.side, s.levels, []); }
  }

  // Whole matchings: nothing is lost, resting orders stay settled, and what is left of an
  // uncancelled taker finds no price it can match.
  lemma {:induction false} MatchedFollows(s: State, base: nat, side: Side)
    requires Ok(s) && AllSettled(side, s.levels)
    ensures Follows(s, Matched(s, base), base) && AllSettled(side, Matched(s, base).levels)
    decreases s.inc.remaining, Measure(s)
  {
    FollowsSelf(s, base);
    hide Follows, Step, AllSettled, Ok, Matched, Measure;
    if Going(s) {
      MatchedStep(s, base);
      var t := Step(s, base + |s.trades|);
      StepFollows(s, base);
      StepSettled(s, base + |s.trades|, side);
      MatchedFollows(t, base, side);
      FollowsAgain(s, t, Matched(t, base), base);
    } else {
      MatchedNone(s, base);
    }
  }

  // Resting prices are positive, so trade prices are.
  lemma {:induction false} MatchedPrices(s: State, base: nat, side: Side, from: nat)
    requires Ok(s) && AllSettled(side, s.levels)
    requires forall i {:trigger s.trades[i]} :: from <= i < |s.trades| ==> s.trades[i].price > 0
    ensures forall i {:trigger Matched(s, base).trades[i]} :: from <= i < |Matched(s, base).trades| ==>
        Matched(s, base).trades[i].price > 0
    decreases s.inc.remaining, Measure(s)
  {
    if Going(s) {
      MatchedStep(s, base);
      StepSettled(s, base + |s.trades|, side);
      assert Settled(side, s.levels[0].queue[0]);
      hide Matched;
      MatchedPrices(Step(s, base + |s.trades|), base, side, from);
    } else {
      MatchedNone(s, base);
    }
  }
}
