/** The cascade of stops: which stops a trade takes out, in what order they arrive, and what their own
    trades set off in turn. */
module FullCascade {
  import opened FullTypes
  import opened FullBook
  import opened FullArrival

  const MAX_CASCADE: nat := 10

  // The stops that fire at this price, in the order the scan meets them; the last stop takes the place of each.
  function Taken(stops: seq<Order>, i: nat, px: int): seq<Order>
    decreases |stops| - i
  {
    if i >= |stops| then []
    else if Fires(stops[i], px) then [stops[i]] + Taken(SwapOut(stops, i), i, px)
    else Taken(stops, i + 1, px)
  }

  // The stops the scan leaves.
  function Left(stops: seq<Order>, i: nat, px: int): seq<Order>
    decreases |stops| - i
  {
    if i >= |stops| then stops
    else if Fires(stops[i], px) then Left(SwapOut(stops, i), i, px)
    else Left(stops, i + 1, px)
  }

  // What d has beyond d0.
  function Since(d0: seq<Trade>, d: seq<Trade>): seq<Trade> {
    if |d0| <= |d| then d[|d0|..] else []
  }

  // What comes of trades: the book, the stops still pending, those that fired and the trades told of, both in order.
  datatype Fallout = Fallout(p: Snapshot, stops: seq<Order>, fired: seq<Order>, told: seq<Trade>) {
    function Behind(done: seq<Order>, said: seq<Trade>): Fallout {
      this.(fired := done + fired, told := said + told)
    }
  }

  // Triggered stops arrive one after the other, each with all that its own trades set off before the next.
  ghost function Loosen(trig: seq<Order>, depth: nat, p: Snapshot, stops: seq<Order>): Fallout
    requires depth < MAX_CASCADE
    decreases MAX_CASCADE - depth, 0, |trig|
  {
    if trig == [] then Fallout(p, stops, [], [])
    else
      var q := Arrive(Released(trig[0]), p);
      var c := Cascade(Since(p.trades, q.trades), depth + 1, q, stops);
      Loosen(trig[1..], depth, c.p, c.stops).Behind([trig[0]] + c.fired, c.told)
  }

  // The stops that fire at one price, earliest first.
  ghost function Turn(px: int, depth: nat, p: Snapshot, stops: seq<Order>): Fallout
    requires depth < MAX_CASCADE
    decreases MAX_CASCADE - depth, 1
  {
    Loosen(ByTime(Taken(stops, 0, px)), depth, p, Left(stops, 0, px))
  }

  // Trade after trade, each is told of and has its turn with the stops; past the depth limit none has.
  ghost function Cascade(ts: seq<Trade>, depth: nat, p: Snapshot, stops: seq<Order>): Fallout
    decreases MAX_CASCADE - depth, 2, |ts|
  {
    if ts == [] || depth >= MAX_CASCADE then Fallout(p, stops, [], ts)
    else
      var c := Turn(ts[0].price, depth, p, stops);
      Cascade(ts[1..], depth, c.p, c.stops).Behind(c.fired, [ts[0]] + c.told)
  }

  lemma {:induction false} ScanStep(stops: seq<Order>, i: nat, px: int)
    ensures i >= |stops| ==> Taken(stops, i, px) == [] && Left(stops, i, px) == stops
    ensures i < |stops| && Fires(stops[i], px) ==>
        Taken(stops, i, px) == [stops[i]] + Taken(SwapOut(stops, i), i, px)
        && Left(stops, i, px) == Left(SwapOut(stops, i), i, px)
    ensures i < |stops| && !Fires(stops[i], px) ==>
        Taken(stops, i, px) == Taken(stops, i + 1, px) && Left(stops, i, px) == Left(stops, i + 1, px)
  {
  }

  lemma SinceOn(d0: seq<Trade>, d1: seq<Trade>, d2: seq<Trade>)
    ensures d0 <= d1 <= d2 ==> Since(d0, d2) == Since(d0, d1) + Since(d1, d2)
    ensures Since(d0, d0) == []
  {
  }

  lemma SinceIs(d0: seq<Trade>, d: seq<Trade>, own: seq<Trade>)
    requires d == d0 + own
    ensures Since(d0, d) == own
  {
  }

  lemma {:induction false} CascadeNone(depth: nat, p: Snapshot, stops: seq<Order>)
    ensures Cascade([], depth, p, stops) == Fallout(p, stops, [], [])
  {
  }

  // With no stop pending no trade sets anything off.
  lemma LoosenNone(depth: nat, p: Snapshot)
    requires depth < MAX_CASCADE
    ensures forall px {:trigger Turn(px, depth, p, [])} :: Turn(px, depth, p, []) == Fallout(p, [], [], [])
  {
    forall px ensures Turn(px, depth, p, []) == Fallout(p, [], [], []) {
      assert ByTime(Taken([], 0, px)) == [];
    }
  }

  lemma {:induction false} LoosenOver(depth: nat, p: Snapshot, stops: seq<Order>, fired: seq<Order>, told: seq<Trade>)
    requires depth < MAX_CASCADE
    ensures Loosen([], depth, p, stops).Behind(fired, told) == Fallout(p, stops, fired, told)
  {
    assert fired + [] == fired && told + [] == told;
  }

  lemma {:induction false} CascadeOver(depth: nat, p: Snapshot, stops: seq<Order>, fired: seq<Order>,
          told: seq<Trade>)
    ensures Cascade([], depth, p, stops).Behind(fired, told) == Fallout(p, stops, fired, told)
  {
    assert fired + [] == fired && told + [] == told;
  }

  lemma BehindTwice(c: Fallout, a: seq<Order>, t: seq<Trade>, b: seq<Order>, u: seq<Trade>)
    ensures c.Behind(b, u).Behind(a, t) == c.Behind(a + b, t + u) && c.Behind([], []) == c
  {
    assert a + (b + c.fired) == (a + b) + c.fired && [] + c.fired == c.fired;
    assert t + (u + c.told) == (t + u) + c.told && [] + c.told == c.told;
  }

  // The next of the triggered stops has arrived.
  lemma {:induction false} LoosenOn(whole: Fallout, trig: seq<Order>, i: nat, depth: nat, p: Snapshot,
          stops: seq<Order>, fired: seq<Order>, told: seq<Trade>, own: seq<Trade>, c: Fallout)
    requires depth < MAX_CASCADE && i < |trig| && whole == Loosen(trig[i..], depth, p, stops).Behind(fired, told)
    requires own == Since(p.trades, Arrive(Released(trig[i]), p).trades)
    requires c == Cascade(own, depth + 1, Arrive(Released(trig[i]), p), stops)
    ensures whole ==
        Loosen(trig[i + 1..], depth, c.p, c.stops).Behind(fired + ([trig[i]] + c.fired), told + c.told)
  {
    hide Arrive, Cascade, Since, Released;
    assert trig[i..][0] == trig[i] && trig[i..][1..] == trig[i + 1..];
    BehindTwice(Loosen(trig[i + 1..], depth, c.p, c.stops), fired, told, [trig[i]] + c.fired, c.told);
  }

  // What the i-th trade comes to: a turn with the stops, or nothing past the depth limit.
  ghost function TurnOf(px: int, depth: nat, p: Snapshot, stops: seq<Order>): Fallout {
    if depth < MAX_CASCADE then Turn(px, depth, p, stops) else Fallout(p, stops, [], [])
  }

  lemma {:induction false} CascadeFirst(ts: seq<Trade>, depth: nat, p: Snapshot, stops: seq<Order>)
    requires ts != []
    ensures var c := TurnOf(ts[0].price, depth, p, stops);
      Cascade(ts, depth, p, stops) == Cascade(ts[1..], depth, c.p, c.stops).Behind(c.fired, [ts[0]] + c.told)
  {
    hide Turn;
    if depth >= MAX_CASCADE { assert [ts[0]] + ts[1..] == ts; }
  }

  // The next trade has been told of and has had its turn.
  lemma {:induction false} CascadeOn(whole: Fallout, ts: seq<Trade>, i: nat, depth: nat, p: Snapshot,
          stops: seq<Order>, fired: seq<Order>, told: seq<Trade>, c: Fallout)
    requires i < |ts| && whole == Cascade(ts[i..], depth, p, stops).Behind(fired, told)
    requires c == TurnOf(ts[i].price, depth, p, stops)
    ensures whole ==
        Cascade(ts[i + 1..], depth, c.p, c.stops).Behind(fired + c.fired, told + ([ts[i]] + c.told))
  {
    hide Cascade, TurnOf;
    assert ts[i..][0] == ts[i] && ts[i..][1..] == ts[i + 1..];
    CascadeFirst(ts[i..], depth, p, stops);
    BehindTwice(Cascade(ts[i + 1..], depth, c.p, c.stops), fired, told, c.fired, [ts[i]] + c.told);
  }

  // ---- the order in which stops fire ----

  // Each of these, followed by what comes of it.
  function Woven<T>(first: seq<T>, after: seq<seq<T>>): seq<T>
    requires |first| == |after|
  {
    if first == [] then [] else [first[0]] + after[0] + Woven(first[1..], after[1..])
  }

  // The stops that fire at this price do so earliest first, each followed by its own cascade before the next.
  ghost predicate InTurn(stops0: seq<Order>, px: int, fired: seq<Order>, first: seq<Order>, after: seq<seq<Order>>) {
    && |first| == |after| && fired == Woven(first, after) && TimeSorted(first)
    && (forall i {:trigger first[i]} :: 0 <= i < |first| ==> Fires(first[i], px))
    && (forall o {:trigger multiset(first)[o]} :: Fires(o, px) ==> multiset(first)[o] == multiset(stops0)[o])
  }

  lemma {:induction false} TakenIs(stops: seq<Order>, i: nat, px: int)
    requires i <= |stops| && forall j {:trigger stops[j]} :: 0 <= j < i ==> !Fires(stops[j], px)
    ensures multiset(stops) == multiset(Left(stops, i, px)) + multiset(Taken(stops, i, px))
    ensures forall o {:trigger o in Taken(stops, i, px)} :: o in Taken(stops, i, px) ==> Fires(o, px)
    ensures forall o {:trigger o in Left(stops, i, px)} :: o in Left(stops, i, px) ==> !Fires(o, px)
    decreases |stops| - i
  {
    if i < |stops| {
      if Fires(stops[i], px) {
        SwapOutAt(stops, i);
        SwapOutAll(stops, i);
        TakenIs(SwapOut(stops, i), i, px);
      } else {
        TakenIs(stops, i + 1, px);
      }
    }
  }

  lemma {:induction false} LoosenWoven(trig: seq<Order>, depth: nat, p: Snapshot, stops: seq<Order>)
    returns (after: seq<seq<Order>>)
    requires depth < MAX_CASCADE
    ensures |after| == |trig| && Loosen(trig, depth, p, stops).fired == Woven(trig, after)
    decreases |trig|
  {
    hide Arrive, Cascade;
    after := [];
    if trig != [] {
      var q := Arrive(Released(trig[0]), p);
      var c := Cascade(Since(p.trades, q.trades), depth + 1, q, stops);
      var rest := LoosenWoven(trig[1..], depth, c.p, c.stops);
      after := [c.fired] + rest;
      assert after[1..] == rest;
    }
  }

  // The trades of an arrival are told of in the order they were made, each followed by those of the stops it sets
  // off before the next.
  ghost predicate ToldInTurn(own: seq<Trade>, told: seq<Trade>) {
    exists after: seq<seq<Trade>> {:trigger Woven(own, after)} :: |after| == |own| && told == Woven(own, after)
  }

  lemma {:induction false} CascadeTold(ts: seq<Trade>, depth: nat, p: Snapshot, stops: seq<Order>)
    returns (after: seq<seq<Trade>>)
    ensures |after| == |ts| && Cascade(ts, depth, p, stops).told == Woven(ts, after)
    decreases |ts|
  {
    hide TurnOf;
    after := [];
    if ts != [] {
      var c := TurnOf(ts[0].price, depth, p, stops);
      CascadeFirst(ts, depth, p, stops);
      var rest := CascadeTold(ts[1..], depth, c.p, c.stops);
      after := [c.told] + rest;
      hide Cascade;
      assert after[1..] == rest;
    }
  }

  lemma {:induction false} CascadeInTurn(ts: seq<Trade>, depth: nat, p: Snapshot, stops: seq<Order>)
    ensures ToldInTurn(ts, Cascade(ts, depth, p, stops).told)
  {
    hide Cascade, Woven;
    var after := CascadeTold(ts, depth, p, stops);
  }

  // All stops that fire at the price of a trade fire because of it, earliest first, and what one of them sets
  // off comes before the next.
  lemma TurnInOrder(px: int, depth: nat, p: Snapshot, stops: seq<Order>)
    returns (first: seq<Order>, after: seq<seq<Order>>)
    requires depth < MAX_CASCADE
    ensures InTurn(stops, px, Turn(px, depth, p, stops).fired, first, after)
  {
    hide Loosen, Taken, Left, ByTime, Woven, Fires;
    var taken := Taken(stops, 0, px);
    TakenIs(stops, 0, px);
    ByTimeIs(taken);
    first := ByTime(taken);
    after := LoosenWoven(first, depth, p, Left(stops, 0, px));
    forall i | 0 <= i < |first| ensures Fires(first[i], px) {
      assert first[i] in multiset(first);
      assert first[i] in taken;
    }
    forall o | Fires(o, px) ensures multiset(first)[o] == multiset(stops)[o] {
      assert o !in Left(stops, 0, px);
    }
  }

  // ---- what one call does ----

  // A stop waits until its price has been reached; price 0 means that nothing has traded yet.
  predicate Waits(o: Order, lastPx: int) {
    && (o.kind == StopLimit || o.kind == StopMarket)
    && (lastPx == 0 || if o.side == Buy then lastPx < o.stopPrice else lastPx > o.stopPrice)
  }

  function Arriving(o: Order): Order {
    if o.kind == StopLimit || o.kind == StopMarket then Released(o) else o
  }

  // These stops fired because of the trades `own` that have led to q, and in this order; what they made of the
  // book, which are still pending, and in what order the trades of all were told.
  ghost predicate Followed(q: Snapshot, own: seq<Trade>, stops0: seq<Order>, fired: seq<Order>, told: seq<Trade>,
          p: Snapshot, stops: seq<Order>) {
    && Loosed(q, stops0, fired, p, stops) && Cascade(own, 0, q, stops0) == Fallout(p, stops, fired, told)
    && ToldInTurn(own, told)
  }

  // The order waits with the stops, or it arrives and sets stops loose; `own` are the trades of its arrival.
  ghost predicate Handled(o: Order, lastPx: int, p0: Snapshot, stops0: seq<Order>, own: seq<Trade>, fired: seq<Order>,
          told: seq<Trade>, p: Snapshot, stops: seq<Order>) {
    if Waits(o, lastPx) then p == p0 && stops == stops0 + [o] && own == [] && fired == [] && told == []
    else
      var q := Arrive(Arriving(o), p0);
      q.trades == p0.trades + own && Followed(q, own, stops0, fired, told, p, stops)
  }

  // A new price or more quantity is a new arrival.
  predicate Requeues(o: Order, newPx: int, newQty: int) {
    (newPx > 0 && newPx != o.price) || newQty > o.remaining
  }

  function Requeued(o: Order, newPx: int, newQty: int, now: nat): Order {
    var r := o.(price := if newPx > 0 then newPx else o.price, remaining := if newQty > 0 then newQty else o.remaining);
    r.(timestamp := now, visible := Shown(r.display, r.remaining))
  }
}
