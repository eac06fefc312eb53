/** Whom the full-feature engine lets trade with whom. */
module FullParties {
  import opened FullTypes
  import opened FullMatch
  import opened FullLaws

  // What matching never changes about resting orders: id, self-trade group and price.
  function MarksOf(q: seq<Order>): multiset<(nat, nat, int)> {
    if q == [] then multiset{} else multiset{(q[0].id, q[0].group, q[0].price)} + MarksOf(q[1..])
  }

  function MarksIn(ls: seq<Level>): multiset<(nat, nat, int)> {
    if ls == [] then multiset{} else MarksOf(ls[0].queue) + MarksIn(ls[1..])
  }

  lemma {:induction false} MarksAppend(a: seq<Order>, b: seq<Order>)
    ensures MarksOf(a + b) == MarksOf(a) + MarksOf(b)
  {
    if a == [] {
      assert a + b == b;
    } else {
      assert (a + b)[1..] == a[1..] + b;
      MarksAppend(a[1..], b);
    }
  }

  lemma {:induction false} FirstMarks(q: seq<Order>)
    requires q != []
    ensures MarksOf(q) == multiset{(q[0].id, q[0].group, q[0].price)} + MarksOf(q[1..])
  {
  }

  lemma {:induction false} LoweredMarks(q: seq<Order>, qty: int, now: nat, after: Status)
    requires q != []
    ensures MarksOf(Lowered(q, qty, now, after)) <= MarksOf(q)
  {
    var o := q[0].(remaining := q[0].remaining - qty, visible := q[0].visible - qty);
    FirstMarks(q);
    if o.remaining != 0 && o.visible == 0 && o.display > 0 {
      var back := o.(visible := Min(o.display, o.remaining), timestamp := now + 1);
      MarksAppend(q[1..], [back]);
      assert MarksOf([back]) == multiset{(back.id, back.group, back.price)};
    } else if o.remaining != 0 {
      assert ([o.(status := after)] + q[1..])[1..] == q[1..];
    }
  }

  lemma {:induction false} WithQueueMarks(ls: seq<Level>, q: seq<Order>)
    requires ls != []
    ensures MarksIn(WithQueue(ls, q)) == MarksOf(q) + MarksIn(ls[1..])
  {
    if q != [] { assert WithQueue(ls, q)[1..] == ls[1..]; }
  }

  lemma StepMarks(s: State, tid: nat)
    requires s.levels != [] && s.levels[0].queue != []
    ensures MarksIn(Step(s, tid).levels) <= MarksIn(s.levels)
  {
    var q, qty := s.levels[0].queue, Min(s.inc.remaining, s.levels[0].queue[0].visible);
    var k, after := StepShape(s, tid);
    WithQueueMarks(s.levels, q[1..]);
    WithQueueMarks(s.levels, Lowered(q, qty, s.now, after));
    LoweredMarks(q, qty, s.now, after);
    FirstMarks(q);
    assert MarksIn(s.levels) == MarksOf(q) + MarksIn(s.levels[1..]);
    hide Step, Lowered, WithQueue, MarksIn, MarksOf;
  }

  // The trade is with an order that was resting there, at its price, and of another group than the taker's.
  ghost predicate WithStranger(s: State, t: Trade) {
    exists group: nat {:trigger (t.passive, group, t.price)} ::
      (t.passive, group, t.price) in MarksIn(s.levels) && (s.inc.group == 0 || group != s.inc.group)
  }

  lemma StrangerBefore(s: State, u: State, t: Trade)
    requires MarksIn(u.levels) <= MarksIn(s.levels) && u.inc.group == s.inc.group && WithStranger(u, t)
    ensures WithStranger(s, t)
  {
    var group: nat :| (t.passive, group, t.price) in MarksIn(u.levels) && (u.inc.group == 0 || group != u.inc.group);
    assert (t.passive, group, t.price) in MarksIn(s.levels);
  }

  lemma StepStranger(s: State, tid: nat)
    requires Ok(s) && Going(s) && s.levels[0].queue != []
    ensures var u := Step(s, tid); s.trades <= u.trades && u.inc.group == s.inc.group
    ensures var u := Step(s, tid);
        |s.trades| < |u.trades| ==> |u.trades| == |s.trades| + 1 && WithStranger(s, u.trades[|s.trades|])
  {
    var o, l := s.levels[0].queue[0], s.levels[0];
    assert LevelOk(l) && RestingOk(l.price, l.queue[0]);
    FirstMarks(l.queue);
    assert (o.id, o.group, o.price) in MarksIn(s.levels);
  }

  // No two orders of one self-trade group ever trade with each other.
  lemma {:induction false} NoSelfTrades(s: State, base: nat)
    requires Ok(s)
    ensures s.trades <= Matched(s, base).trades
    ensures forall i {:trigger Matched(s, base).trades[i]} :: |s.trades| <= i < |Matched(s, base).trades| ==>
        WithStranger(s, Matched(s, base).trades[i])
    decreases s.inc.remaining, Measure(s)
  {
    hide Step, Matched, WithStranger, MarksIn, Ok, Measure;
    if Going(s) {
      MatchedStep(s, base);
      var u := Step(s, base + |s.trades|);
      StepMarks(s, base + |s.trades|);
      StepStranger(s, base + |s.trades|);
      NoSelfTrades(u, base);
      var ts := Matched(s, base).trades;
      forall i | |s.trades| <= i < |ts| ensures WithStranger(s, ts[i]) {
        if i < |u.trades| { assert ts[i] == u.trades[i]; } else { StrangerBefore(s, u, ts[i]); }
      }
    } else {
      MatchedNone(s, base);
    }
  }
}
