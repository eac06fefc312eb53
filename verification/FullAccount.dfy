/** What matching takes from whom: an account of every quantity, and no price passed over. */
module FullAccount {
  import opened FullTypes
  import opened FullMatch
  import opened FullLaws
  import opened FullParties
  import opened PreChecks

  // What the orders of a self-trade group have open, and what all others have; group 0 is no group.
  function OwnOpen(group: nat, q: seq<Order>): int {
    if q == [] then 0 else (if group != 0 && q[0].group == group then q[0].remaining else 0) + OwnOpen(group, q[1..])
  }

  function OthersOpen(group: nat, q: seq<Order>): int {
    if q == [] then 0 else (if group == 0 || q[0].group != group then q[0].remaining else 0) + OthersOpen(group, q[1..])
  }

  function OwnOpenIn(group: nat, ls: seq<Level>): int {
    if ls == [] then 0 else OwnOpen(group, ls[0].queue) + OwnOpenIn(group, ls[1..])
  }

  function OthersOpenIn(group: nat, ls: seq<Level>): int {
    if ls == [] then 0 else OthersOpen(group, ls[0].queue) + OthersOpenIn(group, ls[1..])
  }

  lemma {:induction false} AccountAppend(group: nat, q: seq<Order>, o: Order)
    ensures OwnOpen(group, q + [o]) == OwnOpen(group, q) + OwnOpen(group, [o])
    ensures OthersOpen(group, q + [o]) == OthersOpen(group, q) + OthersOpen(group, [o])
  {
    if q == [] {
      assert [] + [o] == [o];
    } else {
      assert (q + [o])[1..] == q[1..] + [o];
      AccountAppend(group, q[1..], o);
    }
  }

  lemma {:induction false} LoweredAccount(group: nat, q: seq<Order>, qty: int, now: nat, after: Status)
    requires q != []
    ensures var p, own := Lowered(q, qty, now, after), group != 0 && q[0].group == group;
      && OwnOpen(group, p) == OwnOpen(group, q) - (if own then qty else 0)
      && OthersOpen(group, p) == OthersOpen(group, q) - (if own then 0 else qty)
  {
    var o := q[0].(remaining := q[0].remaining - qty, visible := q[0].visible - qty);
    if o.remaining != 0 && o.visible == 0 && o.display > 0 {
      var back := o.(visible := Min(o.display, o.remaining), timestamp := now + 1);
      AccountAppend(group, q[1..], back);
      assert [back][1..] == [];
    } else if o.remaining != 0 {
      assert ([o.(status := after)] + q[1..])[1..] == q[1..];
    }
  }

  lemma {:induction false} AccountWith(group: nat, ls: seq<Level>, q: seq<Order>)
    requires ls != []
    ensures OwnOpenIn(group, WithQueue(ls, q)) == OwnOpen(group, q) + OwnOpenIn(group, ls[1..])
    ensures OthersOpenIn(group, WithQueue(ls, q)) == OthersOpen(group, q) + OthersOpenIn(group, ls[1..])
    ensures OwnOpenIn(group, ls) == OwnOpen(group, ls[0].queue) + OwnOpenIn(group, ls[1..])
    ensures OthersOpenIn(group, ls) == OthersOpen(group, ls[0].queue) + OthersOpenIn(group, ls[1..])
  {
    if q != [] { assert WithQueue(ls, q)[1..] == ls[1..]; }
  }

  /** What others lose is traded.  The taker's loss is that and, if it is decremented, what its own orders lose;
      an own order costs it more only by cancelling it. */
  ghost predicate Accounted(s: State, t: State) {
    var g := s.inc.group;
    && s.trades <= t.trades && t.inc.group == g && t.inc.policy == s.inc.policy
    && OthersOpenIn(g, s.levels) == Since(s, t) + OthersOpenIn(g, t.levels)
    && s.inc.remaining - t.inc.remaining ==
        Since(s, t) + (if s.inc.policy == Decrement then OwnOpenIn(g, s.levels) - OwnOpenIn(g, t.levels) else 0)
    && (s.inc.policy == CancelNewest ==> OwnOpenIn(g, s.levels) == OwnOpenIn(g, t.levels))
    && (s.inc.status != Cancelled && t.inc.status == Cancelled ==>
        s.inc.policy == CancelNewest || s.inc.policy == CancelBoth
        || (s.inc.policy == Decrement && t.inc.remaining == 0))
  }

  lemma {:induction false} FirstAccount(group: nat, q: seq<Order>)
    requires q != []
    ensures group != 0 && q[0].group == group ==> OthersOpen(group, q[1..]) == OthersOpen(group, q)
  {
  }

  // A step takes from the taker and from its first order alike.
  lemma StepTaker(s: State, tid: nat)
    requires Ok(s) && Going(s) && s.levels[0].queue != []
    ensures var t, qty := Step(s, tid), Min(s.inc.remaining, s.levels[0].queue[0].visible);
      && t.inc.group == s.inc.group && t.inc.policy == s.inc.policy
      && (s.inc.status != Cancelled && t.inc.status == Cancelled ==>
          s.inc.policy == CancelNewest || s.inc.policy == CancelBoth
          || (s.inc.policy == Decrement && t.inc.remaining == 0))
      && t.inc.remaining ==
          s.inc.remaining - if !Conflict(s.inc, s.levels[0].queue[0]) || s.inc.policy == Decrement then qty else 0
  {
  }

  lemma {:induction false} StepAccount(s: State, tid: nat)
    requires Ok(s) && Going(s) && s.levels[0].queue != []
    ensures Accounted(s, Step(s, tid))
  {
    hide Step, Lowered, WithQueue, OwnOpenIn, OthersOpenIn, OwnOpen, OthersOpen, Traded;
    var q, qty, g := s.levels[0].queue, Min(s.inc.remaining, s.levels[0].queue[0].visible), s.inc.group;
    assert LevelOk(s.levels[0]) && RestingOk(s.levels[0].price, q[0]);
    var k, after := StepShape(s, tid);
    AccountWith(g, s.levels, q[1..]);
    AccountWith(g, s.levels, Lowered(q, qty, s.now, after));
    LoweredAccount(g, q, qty, s.now, after);
    StepCost(s, tid);
    SinceSelf(s);
    StepTaker(s, tid);
    FirstAccount(g, q);
  }

  lemma {:induction false} MatchedAccount(s: State, base: nat)
    requires Ok(s)
    ensures Accounted(s, Matched(s, base))
    decreases s.inc.remaining, Measure(s)
  {
    hide Step, Matched, OwnOpenIn, OthersOpenIn, Measure, Traded, Ok;
    if Going(s) {
      MatchedStep(s, base);
      var t := Step(s, base + |s.trades|);
      StepAccount(s, base + |s.trades|);
      StepCost(s, base + |s.trades|);
      MatchedAccount(t, base);
      SinceStep(s, t, Matched(t, base));
      if t.inc.status == Cancelled || t.inc.remaining == 0 { MatchedNone(t, base); }
    } else {
      MatchedNone(s, base);
      SinceSelf(s);
    }
  }

  // ---- prices in order ----

  // A buyer goes on to higher prices only, and leaves nothing behind that asks less than it has paid; a seller
  // likewise downwards.
  ghost predicate NoneThrough(side: Side, ts: seq<Trade>, from: nat, ls: seq<Level>) {
    && (forall i, j {:trigger ts[i], ts[j]} :: from <= i < j < |ts| ==>
        if side == Buy then ts[i].price <= ts[j].price else ts[i].price >= ts[j].price)
    && (forall i, j {:trigger ts[i], ls[j]} :: from <= i < |ts| && 0 <= j < |ls| ==>
        if side == Buy then ts[i].price <= ls[j].price else ts[i].price >= ls[j].price)
  }

  // No better a price than the best level's.
  ghost predicate AtBest(side: Side, price: int, ls: seq<Level>) {
    ls != [] && !Better(side, price, ls[0].price)
  }

  lemma NoWorse(side: Side, price: int, a: seq<Level>, b: seq<Level>)
    requires AtBest(side, price, a) && NoBetter(side, b, a)
    ensures AtBest(side, price, b)
  {
    assert !Better(side, a[0].price, b[0].price);
  }

  // Trades to come are at no better a price than the best level.
  lemma {:induction false} MatchedThrough(s: State, base: nat, own: Side)
    requires Ok(s) && AllSettled(own, s.levels)
    ensures s.trades <= Matched(s, base).trades
    ensures NoneThrough(s.inc.side, Matched(s, base).trades, |s.trades|, Matched(s, base).levels)
    ensures forall i {:trigger Matched(s, base).trades[i]} :: |s.trades| <= i < |Matched(s, base).trades| ==>
        AtBest(s.inc.side, Matched(s, base).trades[i].price, s.levels)
    decreases s.inc.remaining, Measure(s)
  {
    hide Step, Matched, Measure, AllSettled, Ok;
    if Going(s) {
      MatchedStep(s, base);
      var t := Step(s, base + |s.trades|);
      StepSettled(s, base + |s.trades|, own);
      StepPrice(s, base + |s.trades|);
      MatchedThrough(t, base, own);
      MatchedFollows(s, base, own);
      ThroughOn(s, t, Matched(s, base));
    } else {
      MatchedNone(s, base);
    }
  }

  lemma StepPrice(s: State, tid: nat)
    requires Ok(s) && Going(s) && s.levels[0].queue != []
    ensures var t := Step(s, tid); s.trades <= t.trades && |t.trades| <= |s.trades| + 1
    ensures var t := Step(s, tid); |t.trades| > |s.trades| ==> t.trades[|s.trades|].price == s.levels[0].price
    ensures NoBetter(s.inc.side, s.levels, Step(s, tid).levels) && Step(s, tid).inc.side == s.inc.side
  {
    assert LevelOk(s.levels[0]) && RestingOk(s.levels[0].price, s.levels[0].queue[0]);
    StepNoBetter(s, tid);
  }

  lemma {:induction false} ThroughOn(s: State, t: State, u: State)
    requires s.levels != [] && s.trades <= t.trades <= u.trades && |t.trades| <= |s.trades| + 1
    requires |t.trades| > |s.trades| ==> t.trades[|s.trades|].price == s.levels[0].price
    requires NoBetter(s.inc.side, s.levels, t.levels) && NoBetter(s.inc.side, s.levels, u.levels)
    requires t.inc.side == s.inc.side
    requires NoneThrough(s.inc.side, u.trades, |t.trades|, u.levels)
    requires forall i {:trigger u.trades[i]} :: |t.trades| <= i < |u.trades| ==>
        AtBest(s.inc.side, u.trades[i].price, t.levels)
    ensures NoneThrough(s.inc.side, u.trades, |s.trades|, u.levels)
    ensures forall i {:trigger u.trades[i]} :: |s.trades| <= i < |u.trades| ==>
        AtBest(s.inc.side, u.trades[i].price, s.levels)
  {
    forall i | |s.trades| <= i < |u.trades| ensures AtBest(s.inc.side, u.trades[i].price, s.levels) {
      if i < |t.trades| {
        assert u.trades[i] == t.trades[i];
      } else {
        NoWorse(s.inc.side, u.trades[i].price, t.levels, s.levels);
      }
    }
    var n := |s.trades|;
    if n < |t.trades| { assert u.trades[n] == t.trades[n]; }
  }
}
