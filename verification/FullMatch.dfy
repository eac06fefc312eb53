/** Matching one order against the levels of the other side, best price first. */
module FullMatch {
  import opened FullTypes

  /** The taker, the contra levels, the trades so far, the clock, and the resting orders that have gone. */
  datatype State = State(inc: Order, levels: seq<Level>, trades: seq<Trade>, now: nat, gone: seq<nat>)

  // The contra levels of a taker of this side: strictly worse and worse prices, no level empty.
  ghost predicate LevelsOk(side: Side, ls: seq<Level>) {
    && (forall i, j {:trigger ls[i], ls[j]} :: 0 <= i < j < |ls| ==> Better(side, ls[i].price, ls[j].price))
    && (forall i {:trigger ls[i]} :: 0 <= i < |ls| ==> LevelOk(ls[i]))
  }

  ghost predicate LevelOk(l: Level) {
    l.queue != [] && forall i {:trigger l.queue[i]} :: 0 <= i < |l.queue| ==> RestingOk(l.price, l.queue[i])
  }

  predicate RestingOk(price: int, o: Order) {
    o.price == price && IcebergOk(o)
  }

  // Whoever trades for a group has said what to do about it.
  predicate TakerOk(o: Order) {
    o.remaining >= 0 && (o.group != 0 ==> o.policy != NoPolicy)
  }

  ghost predicate Ok(s: State) {
    TakerOk(s.inc) && LevelsOk(s.inc.side, s.levels)
  }

  predicate Going(s: State) {
    s.inc.remaining > 0 && s.inc.status != Cancelled && s.levels != [] && CanMatch(s.inc, s.levels[0].price)
  }

  function Count(ls: seq<Level>): nat {
    if ls == [] then 0 else |ls[0].queue| + Count(ls[1..])
  }

  // The levels with q as the first queue, and without the level once it is empty.
  function WithQueue(ls: seq<Level>, q: seq<Order>): seq<Level>
    requires ls != []
  {
    if q == [] then ls[1..] else [ls[0].(queue := q)] + ls[1..]
  }

  // The head of the queue after losing `qty`: gone, reloaded at the back, or reduced in place.
  function Lowered(q: seq<Order>, qty: int, now: nat, after: Status): seq<Order>
    requires q != []
  {
    var o := q[0].(remaining := q[0].remaining - qty, visible := q[0].visible - qty);
    if o.remaining == 0 then q[1..]
    else if o.visible == 0 && o.display > 0 then
      q[1..] + [o.(visible := Min(o.display, o.remaining), timestamp := now + 1)]
    else [o.(status := after)] + q[1..]
  }

  predicate Reloads(o: Order, qty: int) {
    o.remaining != qty && o.visible == qty && o.display > 0
  }

  function Step(s: State, tid: nat): State
    requires s.levels != [] && s.levels[0].queue != []
  {
    var (inc, q) := (s.inc, s.levels[0].queue);
    var rest := q[0];
    var qty := Min(inc.remaining, rest.visible);
    var later := if Reloads(rest, qty) then s.now + 1 else s.now;
    if Conflict(inc, rest) then
      match inc.policy
      case CancelNewest => s.(inc := inc.(status := Cancelled))
      case CancelOldest => s.(levels := WithQueue(s.levels, q[1..]), gone := s.gone + [rest.id])
      case CancelBoth =>
        s.(inc := inc.(status := Cancelled), levels := WithQueue(s.levels, q[1..]), gone := s.gone + [rest.id])
      case Decrement =>
        State(Decremented(inc, qty), WithQueue(s.levels, Lowered(q, qty, s.now, rest.status)), s.trades, later,
          if rest.remaining == qty then s.gone + [rest.id] else s.gone)
      case NoPolicy => s
    else
      State(inc.(remaining := inc.remaining - qty), WithQueue(s.levels, Lowered(q, qty, s.now, PartiallyFilled)),
        s.trades + [Trade(tid, rest.price, qty, inc.id, rest.id, inc.side, s.now)], later,
        if rest.remaining == qty then s.gone + [rest.id] else s.gone)
  }

  // A taker that has been decremented to nothing counts as cancelled.
  function Decremented(inc: Order, qty: int): Order {
    var left := inc.remaining - qty;
    inc.(remaining := left, visible := Shown(inc.display, left), status := if left == 0 then Cancelled else inc.status)
  }

  lemma LoweredOk(l: Level, qty: int, now: nat, after: Status)
    requires LevelOk(l) && 0 < qty <= l.queue[0].visible
    ensures var q := Lowered(l.queue, qty, now, after); q != [] ==> LevelOk(l.(queue := q))
    ensures |Lowered(l.queue, qty, now, after)| <= |l.queue|
  {
    var q := Lowered(l.queue, qty, now, after);
    var o := l.queue[0];
    assert RestingOk(l.price, o);
    forall i | 0 <= i < |q| ensures RestingOk(l.price, q[i]) {
      var j := if o.remaining == qty || Reloads(o, qty) then i + 1 else i;
      if j < |l.queue| { assert RestingOk(l.price, l.queue[j]); }
    }
  }

  lemma TailOk(l: Level)
    requires LevelOk(l) && |l.queue| > 1
    ensures LevelOk(l.(queue := l.queue[1..]))
  {
    forall i | 0 <= i < |l.queue| - 1 ensures RestingOk(l.price, l.queue[1..][i]) {
      assert l.queue[1..][i] == l.queue[i + 1];
    }
  }

  lemma {:induction false} WithQueueOk(side: Side, ls: seq<Level>, q: seq<Order>)
    requires LevelsOk(side, ls) && ls != [] && (q != [] ==> LevelOk(ls[0].(queue := q)))
    ensures LevelsOk(side, WithQueue(ls, q)) && Count(WithQueue(ls, q)) == Count(ls) - |ls[0].queue| + |q|
  {
    var r := WithQueue(ls, q);
    if q == [] {
      forall i | 0 <= i < |r| ensures r[i] == ls[i + 1] {}
    } else {
      forall i | 0 <= i < |r| ensures r[i] == if i == 0 then ls[0].(queue := q) else ls[i] {}
      assert r[1..] == ls[1..];
    }
  }

  // A step keeps the levels in order and uses up the taker or an order.
  lemma StepKeeps(s: State, tid: nat)
    requires Ok(s) && Going(s)
    ensures s.levels[0].queue != []
    ensures Ok(Step(s, tid)) && Step(s, tid).inc.side == s.inc.side && Step(s, tid).inc.price == s.inc.price
    ensures Step(s, tid).inc.id == s.inc.id
    ensures var t := Step(s, tid);
      t.inc.remaining < s.inc.remaining
          || (t.inc.remaining == s.inc.remaining && (t.inc.status == Cancelled || Count(t.levels) < Count(s.levels)))
  {
    var l := s.levels[0];
    assert LevelOk(l) && RestingOk(l.price, l.queue[0]);
    var qty := Min(s.inc.remaining, l.queue[0].visible);
    if Conflict(s.inc, l.queue[0]) && (s.inc.policy == CancelOldest || s.inc.policy == CancelBoth) {
      if |l.queue| > 1 { TailOk(l); }
      WithQueueOk(s.inc.side, s.levels, l.queue[1..]);
    } else if !(Conflict(s.inc, l.queue[0]) && s.inc.policy == CancelNewest) {
      var after := if Conflict(s.inc, l.queue[0]) then l.queue[0].status else PartiallyFilled;
      LoweredOk(l, qty, s.now, after);
      WithQueueOk(s.inc.side, s.levels, Lowered(l.queue, qty, s.now, after));
    }
  }

  function Measure(s: State): nat {
    if s.inc.status == Cancelled then 0 else 1 + Count(s.levels)
  }

  // Steps until nothing is left to match; trades are numbered from tid.
  ghost function Matched(s: State, tid: nat): (t: State)
    requires Ok(s)
    ensures Ok(t) && !Going(t)
    decreases s.inc.remaining, Measure(s)
  {
    if Going(s) then
      StepKeeps(s, tid + |s.trades|);
      Matched(Step(s, tid + |s.trades|), tid)
    else s
  }

  lemma MatchedStep(s: State, base: nat)
    requires Ok(s) && Going(s)
    ensures s.levels[0].queue != []
    ensures var t := Step(s, base + |s.trades|);
      && Ok(t) && t.inc.side == s.inc.side && Matched(t, base) == Matched(s, base)
      && (t.inc.remaining < s.inc.remaining || (t.inc.remaining == s.inc.remaining && Measure(t) < Measure(s)))
  {
    StepKeeps(s, base + |s.trades|);
  }

  lemma {:induction false} MatchedNone(s: State, base: nat)
    requires Ok(s) && !Going(s)
    ensures Matched(s, base) == s
  {
  }
}
