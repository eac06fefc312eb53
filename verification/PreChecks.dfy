/** The checks made before matching, for fill-or-kill and minimum quantity, and what they are worth. */
module PreChecks {
  import opened FullTypes
  import opened FullMatch
  import opened FullLaws

  // What is shown of a queue, leaving out the taker's own group.
  function ShownIn(inc: Order, q: seq<Order>): int {
    if q == [] then 0 else (if Conflict(inc, q[0]) then 0 else q[0].visible) + ShownIn(inc, q[1..])
  }

  // What is shown at prices the taker can match.
  function Avail(inc: Order, ls: seq<Level>): int {
    if ls == [] || !CanMatch(inc, ls[0].price) then 0 else ShownIn(inc, ls[0].queue) + Avail(inc, ls[1..])
  }

  lemma {:induction false} ShownNat(inc: Order, q: seq<Order>)
    requires forall i {:trigger q[i]} :: 0 <= i < |q| ==> q[i].visible > 0
    ensures ShownIn(inc, q) >= 0
  {
    if q != [] { ShownNat(inc, q[1..]); }
  }

  lemma {:induction false} AvailNat(side: Side, inc: Order, ls: seq<Level>)
    requires LevelsOk(side, ls)
    ensures Avail(inc, ls) >= 0
  {
    if ls != [] {
      var l := ls[0];
      assert LevelOk(l);
      forall i | 0 <= i < |l.queue| ensures l.queue[i].visible > 0 { assert RestingOk(l.price, l.queue[i]); }
      ShownNat(inc, l.queue);
      TailLevels(side, ls);
      AvailNat(side, inc, ls[1..]);
    }
  }

  lemma TailLevels(side: Side, ls: seq<Level>)
    requires LevelsOk(side, ls) && ls != []
    ensures LevelsOk(side, ls[1..])
  {
    forall i | 0 <= i < |ls| - 1 ensures ls[1..][i] == ls[i + 1] {}
  }

  // Adds up one queue, stopping as soon as the threshold is reached.
  method AddQueue(inc: Order, q: seq<Order>, start: int, thresh: int) returns (avail: int)
    requires forall i {:trigger q[i]} :: 0 <= i < |q| ==> q[i].visible > 0
    requires start < thresh
    ensures avail >= thresh <==> start + ShownIn(inc, q) >= thresh
    ensures avail < thresh ==> avail == start + ShownIn(inc, q)
  {
    avail := start;
    var i := 0;
    assert q[0..] == q;
    while i < |q|
      invariant 0 <= i <= |q| && avail + ShownIn(inc, q[i..]) == start + ShownIn(inc, q)
    {
      assert q[i..][1..] == q[i + 1..];
      if !Conflict(inc, q[i]) {
        avail := avail + q[i].visible;
        if avail >= thresh {
          ShownNat(inc, q[i + 1..]);
          return;
        }
      }
      i := i + 1;
    }
  }

  // Whether at least `thresh` is shown to the taker.
  method AvailQty(inc: Order, ls: seq<Level>, thresh: int) returns (avail: int)
    requires LevelsOk(inc.side, ls) && thresh > 0
    ensures avail >= thresh <==> Avail(inc, ls) >= thresh
  {
    avail := 0;
    var i := 0;
    assert ls[0..] == ls;
    while i < |ls|
      invariant 0 <= i <= |ls| && avail < thresh && avail + Avail(inc, ls[i..]) == Avail(inc, ls)
      invariant LevelsOk(inc.side, ls[i..])
    {
      var l := ls[i];
      assert ls[i..][1..] == ls[i + 1..] && ls[i..][0] == l && LevelOk(l);
      TailLevels(inc.side, ls[i..]);
      if !CanMatch(inc, l.price) { return; }
      forall j | 0 <= j < |l.queue| ensures l.queue[j].visible > 0 { assert RestingOk(l.price, l.queue[j]); }
      avail := AddQueue(inc, l.queue, avail, thresh);
      AvailNat(inc.side, inc, ls[i + 1..]);
      if avail >= thresh { return; }
      i := i + 1;
    }
  }

  // ---- what a step does to what is shown ----

  lemma {:induction false} ShownAppend(inc: Order, a: seq<Order>, b: seq<Order>)
    ensures ShownIn(inc, a + b) == ShownIn(inc, a) + ShownIn(inc, b)
  {
    if a == [] {
      assert a + b == b;
    } else {
      assert (a + b)[1..] == a[1..] + b;
      ShownAppend(inc, a[1..], b);
    }
  }

  lemma {:induction false} ShownSame(inc: Order, other: Order, q: seq<Order>)
    requires inc.group == other.group
    ensures ShownIn(inc, q) == ShownIn(other, q)
  {
    if q != [] { ShownSame(inc, other, q[1..]); }
  }

  lemma {:induction false} AvailSame(inc: Order, other: Order, ls: seq<Level>)
    requires inc.group == other.group && inc.price == other.price && inc.side == other.side
    ensures Avail(inc, ls) == Avail(other, ls)
  {
    if ls != [] {
      ShownSame(inc, other, ls[0].queue);
      AvailSame(inc, other, ls[1..]);
    }
  }

  // Lowering the head lowers what is shown by no more than that, and not at all if it does not count.
  lemma {:induction false} ShownLowered(inc: Order, q: seq<Order>, qty: int, now: nat, after: Status)
    requires q != [] && 0 < qty <= q[0].visible && IcebergOk(q[0])
    ensures ShownIn(inc, Lowered(q, qty, now, after)) >= ShownIn(inc, q) - if Conflict(inc, q[0]) then 0 else qty
    ensures Conflict(inc, q[0]) ==>
        ShownIn(inc, Lowered(q, qty, now, after)) == ShownIn(inc, q) && ShownIn(inc, q[1..]) == ShownIn(inc, q)
  {
    var o := q[0].(remaining := q[0].remaining - qty, visible := q[0].visible - qty);
    if o.remaining != 0 && o.visible == 0 && o.display > 0 {
      ShownAppend(inc, q[1..], [o.(visible := Min(o.display, o.remaining), timestamp := now + 1)]);
    } else if o.remaining != 0 {
      assert ([o.(status := after)] + q[1..])[1..] == q[1..];
    }
  }

  lemma {:induction false} AvailWith(inc: Order, ls: seq<Level>, q: seq<Order>)
    requires ls != [] && CanMatch(inc, ls[0].price)
    ensures Avail(inc, WithQueue(ls, q)) == ShownIn(inc, q) + Avail(inc, ls[1..])
    ensures Avail(inc, ls) == ShownIn(inc, ls[0].queue) + Avail(inc, ls[1..])
  {
    if q != [] { assert WithQueue(ls, q)[1..] == ls[1..]; }
  }

  // After a step, what is shown has lost at most what the taker has lost; it loses nothing without a trade.
  lemma StepAvail(s: State, tid: nat)
    requires Ok(s) && Going(s) && s.levels[0].queue != []
    ensures var t := Step(s, tid); Avail(t.inc, t.levels) - t.inc.remaining >= Avail(s.inc, s.levels) - s.inc.remaining
    ensures var t := Step(s, tid);
        Conflict(s.inc, s.levels[0].queue[0]) ==> Avail(t.inc, t.levels) == Avail(s.inc, s.levels)
  {
    var t, q := Step(s, tid), s.levels[0].queue;
    var qty := Min(s.inc.remaining, q[0].visible);
    var after := if Conflict(s.inc, q[0]) then q[0].status else PartiallyFilled;
    assert LevelOk(s.levels[0]) && RestingOk(s.levels[0].price, q[0]);
    AvailSame(s.inc, t.inc, t.levels);
    AvailWith(s.inc, s.levels, q[1..]);
    AvailWith(s.inc, s.levels, Lowered(q, qty, s.now, after));
    ShownLowered(s.inc, q, qty, s.now, after);
  }

  // If enough is shown, matching does not end with a remainder, unless the taker's own group cancels it.
  lemma {:induction false} EnoughShown(s: State, base: nat)
    requires Ok(s) && s.inc.remaining <= Avail(s.inc, s.levels)
    ensures Matched(s, base).inc.remaining == 0 || Matched(s, base).inc.status == Cancelled
    decreases s.inc.remaining, Measure(s)
  {
    hide Step, Ok, Measure;
    if Going(s) {
      MatchedStep(s, base);
      StepAvail(s, base + |s.trades|);
      EnoughShown(Step(s, base + |s.trades|), base);
    } else {
      MatchedNone(s, base);
      Remainder(s);
    }
  }

  lemma Remainder(s: State)
    requires Ok(s) && !Going(s)
    ensures s.inc.remaining >= 0 && (s.inc.remaining == 0 || s.inc.status == Cancelled || Avail(s.inc, s.levels) == 0)
  {
  }

  // Without a trade nothing shown is lost; so if something was shown, a remainder means a trade was made.
  lemma {:induction false} ShownMeansTrade(s: State, base: nat)
    requires Ok(s)
    ensures s.trades <= Matched(s, base).trades
    ensures |Matched(s, base).trades| == |s.trades| ==>
        Avail(Matched(s, base).inc, Matched(s, base).levels) == Avail(s.inc, s.levels)
    decreases s.inc.remaining, Measure(s)
  {
    if Going(s) {
      MatchedStep(s, base);
      StepAvail(s, base + |s.trades|);
      ShownMeansTrade(Step(s, base + |s.trades|), base);
    } else {
      MatchedNone(s, base);
    }
  }

  // After the minimum-quantity check: a taker that could rest has traded, so its minimum has been lifted.
  lemma {:induction false} MinQtyMet(s: State, base: nat)
    requires Ok(s) && 0 < s.inc.minQty <= Avail(s.inc, s.levels)
    ensures var t := Matched(s, base); t.inc.remaining == 0 || t.inc.status == Cancelled || |t.trades| > |s.trades|
  {
    ShownMeansTrade(s, base);
    Remainder(Matched(s, base));
  }

  // ---- what is traded ----

  function Traded(ts: seq<Trade>): int {
    if ts == [] then 0 else ts[0].qty + Traded(ts[1..])
  }

  // The quantity traded between s and t.
  function Since(s: State, t: State): int
    requires s.trades <= t.trades
  {
    Traded(t.trades[|s.trades|..])
  }

  // Own orders in a queue, and at prices the taker can match.
  predicate OwnIn(inc: Order, q: seq<Order>) {
    q != [] && (Conflict(inc, q[0]) || OwnIn(inc, q[1..]))
  }

  predicate HasOwn(inc: Order, ls: seq<Level>) {
    ls != [] && CanMatch(inc, ls[0].price) && (OwnIn(inc, ls[0].queue) || HasOwn(inc, ls[1..]))
  }

  function ShownAhead(inc: Order, q: seq<Order>): int {
    if q == [] || Conflict(inc, q[0]) then 0 else q[0].visible + ShownAhead(inc, q[1..])
  }

  function Open(q: seq<Order>): int {
    if q == [] then 0 else q[0].remaining + Open(q[1..])
  }

  // What can be traded before the first own order is met: all of the levels before its level, hidden
  // reserves included, and what is shown ahead of it in its own level.
  function BeforeOwn(inc: Order, ls: seq<Level>): int {
    if ls == [] || !CanMatch(inc, ls[0].price) then 0
    else if OwnIn(inc, ls[0].queue) then ShownAhead(inc, ls[0].queue)
    else Open(ls[0].queue) + BeforeOwn(inc, ls[1..])
  }

  lemma {:induction false} OwnAppend(inc: Order, a: seq<Order>, b: seq<Order>)
    ensures OwnIn(inc, a + b) <==> OwnIn(inc, a) || OwnIn(inc, b)
    ensures OwnIn(inc, a) ==> ShownAhead(inc, a + b) == ShownAhead(inc, a)
    ensures Open(a + b) == Open(a) + Open(b)
  {
    if a == [] {
      assert a + b == b;
    } else {
      assert (a + b)[1..] == a[1..] + b;
      OwnAppend(inc, a[1..], b);
    }
  }

  lemma {:induction false} OwnSame(inc: Order, other: Order, q: seq<Order>)
    requires inc.group == other.group
    ensures OwnIn(inc, q) == OwnIn(other, q) && ShownAhead(inc, q) == ShownAhead(other, q)
  {
    if q != [] { OwnSame(inc, other, q[1..]); }
  }

  lemma {:induction false} BeforeSame(inc: Order, other: Order, ls: seq<Level>)
    requires inc.group == other.group && inc.price == other.price && inc.side == other.side
    ensures HasOwn(inc, ls) == HasOwn(other, ls) && BeforeOwn(inc, ls) == BeforeOwn(other, ls)
  {
    if ls != [] {
      OwnSame(inc, other, ls[0].queue);
      BeforeSame(inc, other, ls[1..]);
    }
  }

  lemma {:induction false} BeforeNat(side: Side, inc: Order, ls: seq<Level>)
    requires LevelsOk(side, ls)
    ensures BeforeOwn(inc, ls) >= 0
  {
    if ls != [] {
      var l := ls[0];
      assert LevelOk(l);
      forall i | 0 <= i < |l.queue| ensures l.queue[i].visible > 0 && l.queue[i].remaining > 0 {
        assert RestingOk(l.price, l.queue[i]);
      }
      QueueNat(inc, l.queue);
      TailLevels(side, ls);
      BeforeNat(side, inc, ls[1..]);
    }
  }

  lemma {:induction false} QueueNat(inc: Order, q: seq<Order>)
    requires forall i {:trigger q[i]} :: 0 <= i < |q| ==> q[i].visible > 0 && q[i].remaining > 0
    ensures ShownAhead(inc, q) >= 0 && Open(q) >= 0
  {
    if q != [] { QueueNat(inc, q[1..]); }
  }

  // Trading with the head brings the first own order nearer by just that much.
  lemma {:induction false} LoweredBefore(inc: Order, q: seq<Order>, qty: int, now: nat, after: Status)
    requires q != [] && !Conflict(inc, q[0]) && IcebergOk(q[0]) && 0 < qty <= q[0].visible
    ensures var p := Lowered(q, qty, now, after);
      && OwnIn(inc, p) == OwnIn(inc, q) && Open(p) == Open(q) - qty
      && (OwnIn(inc, q) ==> ShownAhead(inc, p) == ShownAhead(inc, q) - qty)
  {
    var o := q[0].(remaining := q[0].remaining - qty, visible := q[0].visible - qty);
    if o.remaining != 0 && o.visible == 0 && o.display > 0 {
      OwnAppend(inc, q[1..], [o.(visible := Min(o.display, o.remaining), timestamp := now + 1)]);
    } else if o.remaining != 0 {
      assert ([o.(status := after)] + q[1..])[1..] == q[1..];
    }
  }

  lemma StepBefore(s: State, tid: nat)
    requires Ok(s) && Going(s) && s.levels[0].queue != [] && !Conflict(s.inc, s.levels[0].queue[0])
    ensures var t := Step(s, tid); var qty := s.inc.remaining - t.inc.remaining;
      && HasOwn(t.inc, t.levels) == HasOwn(s.inc, s.levels)
          && BeforeOwn(t.inc, t.levels) == BeforeOwn(s.inc, s.levels) - qty
      && t.trades == s.trades + [t.trades[|s.trades|]] && t.trades[|s.trades|].qty == qty
          && t.inc.status == s.inc.status
  {
    var l := s.levels[0];
    var qty := Min(s.inc.remaining, l.queue[0].visible);
    assert LevelOk(l) && RestingOk(l.price, l.queue[0]);
    var t, p := Step(s, tid), Lowered(l.queue, qty, s.now, PartiallyFilled);
    LoweredBefore(s.inc, l.queue, qty, s.now, PartiallyFilled);
    BeforeSame(s.inc, t.inc, t.levels);
    if p != [] { assert WithQueue(s.levels, p)[1..] == s.levels[1..]; }
  }

  // The first trade and the rest.
  lemma SinceStep(s: State, t: State, u: State)
    requires s.trades <= t.trades <= u.trades && |t.trades| <= |s.trades| + 1
    ensures Since(s, u) == Since(s, t) + Since(t, u)
  {
    var m, n := |s.trades|, |t.trades|;
    if n == m {
      assert t.trades[m..] == [];
    } else {
      assert u.trades[m..] == [u.trades[m]] + u.trades[n..] && t.trades[m..] == [u.trades[m]];
      assert ([u.trades[m]] + u.trades[n..])[1..] == u.trades[n..];
      assert Traded([u.trades[m]]) == u.trades[m].qty;
    }
  }

  lemma StepCost(s: State, tid: nat)
    requires Ok(s) && Going(s) && s.levels[0].queue != []
    ensures var t := Step(s, tid);
        s.trades <= t.trades && |t.trades| <= |s.trades| + 1 && t.inc.policy == s.inc.policy
        && t.inc.group == s.inc.group
    ensures var t := Step(s, tid); Since(s, t) <= s.inc.remaining - t.inc.remaining
    ensures var t := Step(s, tid); !Conflict(s.inc, s.levels[0].queue[0]) || s.inc.policy == CancelOldest ==>
      Since(s, t) == s.inc.remaining - t.inc.remaining && t.inc.status == s.inc.status
    ensures var t := Step(s, tid); Conflict(s.inc, s.levels[0].queue[0]) && s.inc.policy != CancelOldest ==>
      Since(s, t) == 0 && (t.inc.status == Cancelled || t.inc.remaining < s.inc.remaining)
  {
    var l, t := s.levels[0], Step(s, tid);
    assert LevelOk(l) && RestingOk(l.price, l.queue[0]);
    if t.trades == s.trades {
      assert t.trades[|s.trades|..] == [];
    } else {
      assert t.trades[|s.trades|..] == [t.trades[|s.trades|]];
      assert Traded([t.trades[|s.trades|]]) == t.trades[|s.trades|].qty;
    }
  }

  // Trades never exceed what the taker loses; under cancel-oldest they are all it loses.
  lemma {:induction false} TradedBelow(s: State, base: nat)
    requires Ok(s)
    ensures s.trades <= Matched(s, base).trades
    ensures Since(s, Matched(s, base)) <= s.inc.remaining - Matched(s, base).inc.remaining
    ensures s.inc.policy == CancelOldest ==>
        Since(s, Matched(s, base)) == s.inc.remaining - Matched(s, base).inc.remaining
        && Matched(s, base).inc.status == s.inc.status
    decreases s.inc.remaining, Measure(s)
  {
    ShownMeansTrade(s, base);
    if Going(s) {
      MatchedStep(s, base);
      var t := Step(s, base + |s.trades|);
      StepCost(s, base + |s.trades|);
      hide Step, Matched;
      TradedBelow(t, base);
      SinceStep(s, t, Matched(t, base));
    } else {
      MatchedNone(s, base);
      assert s.trades[|s.trades|..] == [];
    }
  }

  // The first own order is met exactly if there is one and the taker does not get filled before it.
  lemma {:induction false} FirstOwn(s: State, base: nat)
    requires Ok(s) && s.inc.status != Cancelled && s.inc.policy != CancelOldest
    ensures s.trades <= Matched(s, base).trades
    ensures !HasOwn(s.inc, s.levels) || s.inc.remaining <= BeforeOwn(s.inc, s.levels) ==>
      Since(s, Matched(s, base)) == s.inc.remaining - Matched(s, base).inc.remaining
          && Matched(s, base).inc.status == s.inc.status
    ensures HasOwn(s.inc, s.levels) && s.inc.remaining > BeforeOwn(s.inc, s.levels) ==>
        Since(s, Matched(s, base)) < s.inc.remaining
    decreases s.inc.remaining, Measure(s)
  {
    hide Step, Matched, HasOwn, BeforeOwn, Ok;
    TradedBelow(s, base);
    if Going(s) {
      MatchedStep(s, base);
      if !Conflict(s.inc, s.levels[0].queue[0]) {
        var t := Step(s, base + |s.trades|);
        StepCost(s, base + |s.trades|);
        TradedBelow(t, base);
        SinceStep(s, t, Matched(t, base));
        StepBefore(s, base + |s.trades|);
        FirstOwn(t, base);
      } else {
        OwnAtOnce(s, base);
      }
    } else {
      MatchedNone(s, base);
      SinceSelf(s);
      OwnNone(s);
    }
  }

  lemma OwnNone(s: State)
    requires Ok(s) && s.inc.status != Cancelled && !Going(s)
    ensures !HasOwn(s.inc, s.levels) || s.inc.remaining <= BeforeOwn(s.inc, s.levels)
  {
    BeforeNat(s.inc.side, s.inc, s.levels);
  }

  // An own order at the head of the best level: nothing comes before it.
  lemma {:induction false} OwnAtOnce(s: State, base: nat)
    requires Ok(s) && s.inc.status != Cancelled && s.inc.policy != CancelOldest
    requires Going(s) && s.levels[0].queue != [] && Conflict(s.inc, s.levels[0].queue[0])
    ensures HasOwn(s.inc, s.levels) && BeforeOwn(s.inc, s.levels) == 0 && s.trades <= Matched(s, base).trades
    ensures Since(s, Matched(s, base)) < s.inc.remaining
  {
    TradedBelow(s, base);
    MatchedStep(s, base);
    var t := Step(s, base + |s.trades|);
    StepCost(s, base + |s.trades|);
    TradedBelow(t, base);
    SinceStep(s, t, Matched(t, base));
    if t.inc.status == Cancelled {
      MatchedNone(t, base);
      SinceSelf(t);
    }
  }

  lemma SinceSelf(s: State)
    ensures Since(s, s) == 0
  {
    assert s.trades[|s.trades|..] == [];
  }

  // A fill-or-kill order that has passed its check is filled whole by trades exactly if no own order
  // is met on the way, or own orders are simply cancelled.
  lemma {:induction false} FillOrKill(s: State, base: nat)
    requires Ok(s) && s.inc.status != Cancelled && s.inc.remaining <= Avail(s.inc, s.levels)
    ensures s.trades <= Matched(s, base).trades
    ensures Since(s, Matched(s, base)) == s.inc.remaining <==>
      s.inc.policy == CancelOldest || !HasOwn(s.inc, s.levels) || s.inc.remaining <= BeforeOwn(s.inc, s.levels)
  {
    EnoughShown(s, base);
    TradedBelow(s, base);
    if s.inc.policy != CancelOldest { FirstOwn(s, base); }
  }

  // ---- a minimum quantity ----

  // Matching uses up what is shown no faster than the taker.
  lemma {:induction false} ShownUsed(s: State, base: nat)
    requires Ok(s)
    ensures var t := Matched(s, base);
        Avail(t.inc, t.levels) - t.inc.remaining >= Avail(s.inc, s.levels) - s.inc.remaining
    decreases s.inc.remaining, Measure(s)
  {
    hide Step, Ok, Measure;
    if Going(s) {
      MatchedStep(s, base);
      StepAvail(s, base + |s.trades|);
      ShownUsed(Step(s, base + |s.trades|), base);
    } else {
      MatchedNone(s, base);
    }
  }

  lemma {:induction false} SinceNat(s: State, base: nat)
    requires Ok(s)
    ensures s.trades <= Matched(s, base).trades && Since(s, Matched(s, base)) >= 0
    decreases s.inc.remaining, Measure(s)
  {
    if Going(s) {
      MatchedStep(s, base);
      var t := Step(s, base + |s.trades|);
      StepCost(s, base + |s.trades|);
      hide Step, Matched;
      SinceNat(t, base);
      SinceStep(s, t, Matched(t, base));
    } else {
      MatchedNone(s, base);
      SinceSelf(s);
    }
  }

  // Met before the taker is filled, an own order ends its trades there, unless the two are set off against each other.
  lemma {:induction false} OwnStops(s: State, base: nat)
    requires Ok(s) && s.inc.status != Cancelled && s.inc.policy != CancelOldest
    requires HasOwn(s.inc, s.levels) && s.inc.remaining > BeforeOwn(s.inc, s.levels)
    ensures s.trades <= Matched(s, base).trades && Since(s, Matched(s, base)) >= BeforeOwn(s.inc, s.levels)
    ensures s.inc.policy == CancelNewest || s.inc.policy == CancelBoth ==>
      Since(s, Matched(s, base)) == BeforeOwn(s.inc, s.levels) && Matched(s, base).inc.status == Cancelled
    decreases s.inc.remaining, Measure(s)
  {
    BeforeNat(s.inc.side, s.inc, s.levels);
    MatchedStep(s, base);
    var t := Step(s, base + |s.trades|);
    StepCost(s, base + |s.trades|);
    SinceNat(t, base);
    SinceStep(s, t, Matched(t, base));
    if !Conflict(s.inc, s.levels[0].queue[0]) {
      StepBefore(s, base + |s.trades|);
      hide Step, Matched, HasOwn, BeforeOwn, Ok;
      OwnStops(t, base);
    } else if t.inc.status == Cancelled {
      MatchedNone(t, base);
      SinceSelf(t);
    }
  }

  // ---- what a decremented taker must bring ----

  function OpenIn(ls: seq<Level>): int {
    if ls == [] then 0 else Open(ls[0].queue) + OpenIn(ls[1..])
  }

  // The levels once all that is shown of the first order has been used up.
  function Peeled(ls: seq<Level>, now: nat): seq<Level>
    requires ls != [] && ls[0].queue != []
  {
    WithQueue(ls, Lowered(ls[0].queue, ls[0].queue[0].visible, now, New))
  }

  lemma {:induction false} OpenLowered(q: seq<Order>, now: nat)
    requires q != [] && IcebergOk(q[0])
    ensures Open(Lowered(q, q[0].visible, now, New)) == Open(q) - q[0].visible
  {
    var o := q[0].(remaining := q[0].remaining - q[0].visible, visible := 0);
    if o.remaining != 0 { OpenAppend(q[1..], o.(visible := Min(o.display, o.remaining), timestamp := now + 1)); }
  }

  lemma {:induction false} OpenAppend(q: seq<Order>, o: Order)
    ensures Open(q + [o]) == Open(q) + o.remaining
  {
    if q == [] {
      assert [] + [o] == [o] && [o][1..] == [];
    } else {
      assert (q + [o])[1..] == q[1..] + [o];
      OpenAppend(q[1..], o);
    }
  }

  lemma {:induction false} OpenNat(side: Side, inc: Order, ls: seq<Level>)
    requires LevelsOk(side, ls)
    ensures OpenIn(ls) >= 0
  {
    if ls != [] {
      var l := ls[0];
      assert LevelOk(l);
      forall i | 0 <= i < |l.queue| ensures l.queue[i].visible > 0 && l.queue[i].remaining > 0 {
        assert RestingOk(l.price, l.queue[i]);
      }
      QueueNat(inc, l.queue);
      TailLevels(side, ls);
      OpenNat(side, inc, ls[1..]);
    }
  }

  lemma {:induction false} PeeledOk(side: Side, inc: Order, ls: seq<Level>, now: nat)
    requires LevelsOk(side, ls) && ls != []
    ensures ls[0].queue != [] && IcebergOk(ls[0].queue[0]) && LevelsOk(side, Peeled(ls, now))
    ensures 0 <= OpenIn(Peeled(ls, now)) == OpenIn(ls) - ls[0].queue[0].visible
  {
    var q := ls[0].queue;
    assert LevelOk(ls[0]) && RestingOk(ls[0].price, q[0]);
    var p := Lowered(q, q[0].visible, now, New);
    LoweredOk(ls[0], q[0].visible, now, New);
    WithQueueOk(side, ls, p);
    OpenLowered(q, now);
    OpenNat(side, inc, Peeled(ls, now));
    if p != [] { assert WithQueue(ls, p)[1..] == ls[1..]; }
  }

  // How much a taker must bring for n of it to be traded, if its own group's orders take their part of it on the
  // way; -1 if no amount will do.
  function Cost(inc: Order, ls: seq<Level>, now: nat, n: int): (c: int)
    requires LevelsOk(inc.side, ls)
    ensures if n <= 0 then c == 0 else c == -1 || c >= n
    decreases OpenIn(ls)
  {
    if n <= 0 then 0
    else if ls == [] || !CanMatch(inc, ls[0].price) then -1
    else
      PeeledOk(inc.side, inc, ls, now);
      var o := ls[0].queue[0];
      if !Conflict(inc, o) && n <= o.visible then n
      else
        var later := if Reloads(o, o.visible) then now + 1 else now;
        var more := Cost(inc, Peeled(ls, now), later, if Conflict(inc, o) then n else n - o.visible);
        if more < 0 then -1 else o.visible + more
  }

  // A step that uses up what is shown of the head.
  lemma StepPeels(s: State, tid: nat)
    requires Ok(s) && Going(s) && s.levels[0].queue != [] && s.inc.policy == Decrement
    ensures var (o, t) := (s.levels[0].queue[0], Step(s, tid));
      && 0 < o.visible && t.inc.remaining == s.inc.remaining - Min(s.inc.remaining, o.visible)
      && (o.visible <= s.inc.remaining ==>
            t.levels == Peeled(s.levels, s.now) && t.now == if Reloads(o, o.visible) then s.now + 1 else s.now)
      && (t.inc.status == Cancelled ==> t.inc.remaining == 0)
      && t.inc.price == s.inc.price && t.inc.side == s.inc.side && t.inc.group == s.inc.group
      && t.inc.policy == Decrement
    ensures var (o, t) := (s.levels[0].queue[0], Step(s, tid));
      && s.trades <= t.trades && |t.trades| <= |s.trades| + 1
      && Since(s, t) == if Conflict(s.inc, o) then 0 else Min(s.inc.remaining, o.visible)
  {
    assert LevelOk(s.levels[0]) && RestingOk(s.levels[0].price, s.levels[0].queue[0]);
    StepCost(s, tid);
  }

  // A decremented taker trades n exactly if it brings what that costs.
  lemma {:induction false} DecrementFilled(inc: Order, s: State, base: nat, n: int)
    requires Ok(s) && s.inc.status != Cancelled && s.inc.policy == Decrement
    requires inc.group == s.inc.group && inc.price == s.inc.price && inc.side == s.inc.side
    ensures s.trades <= Matched(s, base).trades
    ensures Since(s, Matched(s, base)) >= n <==> 0 <= Cost(inc, s.levels, s.now, n) <= s.inc.remaining
    decreases s.inc.remaining
  {
    hide Step, Matched, LevelsOk, Peeled;
    TradedBelow(s, base);
    SinceNat(s, base);
    if n > 0 {
      if Going(s) {
        MatchedStep(s, base);
        var (o, t) := (s.levels[0].queue[0], Step(s, base + |s.trades|));
        StepPeels(s, base + |s.trades|);
        TradedBelow(t, base);
        SinceStep(s, t, Matched(t, base));
        if t.inc.remaining == 0 {
          MatchedNone(t, base);
          SinceSelf(t);
        } else if Conflict(s.inc, o) {
          DecrementFilled(inc, t, base, n);
        } else {
          DecrementFilled(inc, t, base, n - o.visible);
        }
      } else {
        MatchedNone(s, base);
        SinceSelf(s);
      }
    }
  }

  // After its check an order gets at least its minimum by trades if it cancels own orders, meets none, or gets that
  // much before the first; an order that an own order cancels gets it only then, and one that is decremented exactly
  // if it brings what the minimum costs.
  lemma {:induction false} MinQtyFilled(s: State, base: nat, n: int)
    requires Ok(s) && s.inc.status != Cancelled && n <= Avail(s.inc, s.levels) && n <= s.inc.remaining
    ensures s.trades <= Matched(s, base).trades
    ensures s.inc.policy == CancelOldest || !HasOwn(s.inc, s.levels) || n <= BeforeOwn(s.inc, s.levels) ==>
        Since(s, Matched(s, base)) >= n
    ensures s.inc.policy == CancelNewest || s.inc.policy == CancelBoth ==>
      (Since(s, Matched(s, base)) >= n <==> !HasOwn(s.inc, s.levels) || n <= BeforeOwn(s.inc, s.levels))
    ensures s.inc.policy == Decrement ==>
      (Since(s, Matched(s, base)) >= n <==> 0 <= Cost(s.inc, s.levels, s.now, n) <= s.inc.remaining)
  {
    hide Matched, Avail, HasOwn, BeforeOwn, Cost;
    var t := Matched(s, base);
    TradedBelow(s, base);
    ShownUsed(s, base);
    Remainder(t);
    if s.inc.policy == Decrement { DecrementFilled(s.inc, s, base, n); }
    if s.inc.policy != CancelOldest {
      if HasOwn(s.inc, s.levels) && s.inc.remaining > BeforeOwn(s.inc, s.levels) {
        OwnStops(s, base);
      } else {
        FirstOwn(s, base);
      }
    }
  }

  // ---- where the promises fail ----

  // A seller's 5 at this price.
  function Ask(id: nat, price: int, group: nat): Level {
    var policy := if group == 0 then NoPolicy else CancelOldest;
    Level(price, [Order(id, Sell, Limit, Gtc, price, 0, 5, 5, 0, 0, 5, false, New, 0, 0, group, policy)])
  }

  // A buyer at 101 that meets 5 of its own group at 100 and 5 of a stranger at 101.
  function Buyer(tif: TimeInForce, qty: int, minQty: int, policy: Policy): State {
    State(Order(3, Buy, Limit, tif, 101, 0, qty, qty, minQty, 0, qty, false, New, 0, 0, 7, policy),
        [Ask(1, 100, 7), Ask(2, 101, 0)], [], 0, [])
  }

  lemma BuyerOk(tif: TimeInForce, qty: int, minQty: int, policy: Policy)
    requires qty >= 0 && policy != NoPolicy
    ensures Ok(Buyer(tif, qty, minQty, policy))
    ensures Avail(Buyer(tif, qty, minQty, policy).inc, Buyer(tif, qty, minQty, policy).levels) == 5
  {
    var s := Buyer(tif, qty, minQty, policy);
    assert s.levels[1..] == [Ask(2, 101, 0)];
    forall i | 0 <= i < 2 ensures LevelOk(s.levels[i]) {}
    OneAsk(s.inc, 1, 100, 7);
    OneAsk(s.inc, 2, 101, 0);
    OneLevel(s.inc, Ask(2, 101, 0));
  }

  lemma {:induction false} OneAsk(inc: Order, id: nat, price: int, group: nat)
    ensures ShownIn(inc, Ask(id, price, group).queue) == if Conflict(inc, Ask(id, price, group).queue[0]) then 0 else 5
  {
    assert Ask(id, price, group).queue[1..] == [];
  }

  lemma {:induction false} OneLevel(inc: Order, l: Level)
    requires CanMatch(inc, l.price)
    ensures Avail(inc, [l]) == ShownIn(inc, l.queue)
  {
    assert [l][1..] == [] && Avail(inc, []) == 0;
  }

  // 5 are shown to a fill-or-kill buyer of 5, so it passes its check; its own order cancels it and nothing is traded.
  lemma {:induction false} FokNotFilled(base: nat)
    ensures var s := Buyer(Fok, 5, 0, CancelNewest);
      && Ok(s) && Avail(s.inc, s.levels) >= s.inc.quantity
      && Matched(s, base).trades == [] && Matched(s, base).inc.remaining == 5
          && Matched(s, base).inc.status == Cancelled
  {
    var s := Buyer(Fok, 5, 0, CancelNewest);
    BuyerOk(Fok, 5, 0, CancelNewest);
    MatchedStep(s, base);
    MatchedNone(Step(s, base), base);
  }

  // A buyer of 6 with a minimum of 3 passes its check; 5 are set off against its own order and only 1 is traded.
  lemma {:induction false} MinQtyNotFilled(base: nat)
    ensures var s := Buyer(Gtc, 6, 3, Decrement);
      && Ok(s) && Avail(s.inc, s.levels) >= s.inc.minQty
      && s.trades <= Matched(s, base).trades && Since(s, Matched(s, base)) == 1 && Matched(s, base).inc.remaining == 0
  {
    var s := Buyer(Gtc, 6, 3, Decrement);
    BuyerOk(Gtc, 6, 3, Decrement);
    hide Matched, Avail, Ok, Measure, Traded;
    MatchedStep(s, base);
    var t := Step(s, base);
    assert t.levels == [Ask(2, 101, 0)] && t.inc.remaining == 1 && t.trades == [];
    MatchedStep(t, base);
    var u := Step(t, base);
    assert u.trades == [Trade(base, 101, 1, 3, 2, Buy, 0)] && u.inc.remaining == 0;
    MatchedNone(u, base);
    OneTrade(u.trades[0]);
    assert u.trades[0..] == u.trades;
  }

  lemma OneTrade(t: Trade)
    ensures Traded([t]) == t.qty
  {
    assert [t][1..] == [] && Traded([]) == 0;
  }
}
