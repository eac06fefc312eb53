/** The simple form of matching: one list of resting orders per side in order of arrival, scanned
    for the best price, first in the list among equals.  It agrees with matching by levels. */
module Shadow {
  import opened Lists
  import opened FullTypes
  import opened FullMatch
  import opened FullQueues

  /** The list keeps no status, and the taker's remaining quantity is zeroed where matching must stop. */
  datatype Flat = Flat(inc: Order, list: seq<Order>, trades: seq<Trade>, now: nat)

  function Plain(o: Order): Order {
    o.(status := New)
  }

  function PlainAll(q: seq<Order>): (r: seq<Order>)
    ensures |r| == |q|
    ensures forall i {:trigger r[i]} :: 0 <= i < |q| ==> r[i] == Plain(q[i])
  {
    seq(|q|, i requires 0 <= i < |q| => Plain(q[i]))
  }

  // The orders of the list at one price, in their order there.
  function At(list: seq<Order>, price: int): seq<Order> {
    if list == [] then [] else (if list[0].price == price then [list[0]] else []) + At(list[1..], price)
  }

  ghost predicate SamePrice(ls: seq<Level>, list: seq<Order>, price: int) {
    At(list, price) == PlainAll(QueueAt(ls, price))
  }

  // Price by price, the list holds what the levels hold.
  ghost predicate Same(ls: seq<Level>, list: seq<Order>) {
    forall price {:trigger SamePrice(ls, list, price)} :: SamePrice(ls, list, price)
  }

  // i is the first order of the best price among those the taker can match.
  ghost predicate BestAt(inc: Order, list: seq<Order>, i: nat) {
    && i < |list| && CanMatch(inc, list[i].price)
    && (forall j {:trigger list[j]} :: 0 <= j < |list| && CanMatch(inc, list[j].price) ==>
        !Better(inc.side, list[j].price, list[i].price))
    && (forall j {:trigger list[j]} :: 0 <= j < i ==> list[j].price != list[i].price)
  }

  // The scan.
  method BestIndex(inc: Order, list: seq<Order>) returns (best: int)
    ensures best == -1 ==> forall j {:trigger list[j]} :: 0 <= j < |list| ==> !CanMatch(inc, list[j].price)
    ensures best != -1 ==> best >= 0 && BestAt(inc, list, best)
  {
    best := -1;
    var i := 0;
    while i < |list|
      invariant 0 <= i <= |list| && -1 <= best < i
      invariant best == -1 ==> forall j {:trigger list[j]} :: 0 <= j < i ==> !CanMatch(inc, list[j].price)
      invariant best >= 0 ==> CanMatch(inc, list[best].price)
      invariant best >= 0 ==> forall j {:trigger list[j]} :: 0 <= j < i && CanMatch(inc, list[j].price) ==>
          !Better(inc.side, list[j].price, list[best].price)
      invariant best >= 0 ==> forall j {:trigger list[j]} :: 0 <= j < best ==> list[j].price != list[best].price
    {
      if CanMatch(inc, list[i].price) && (best == -1 || Better(inc.side, list[i].price, list[best].price)) {
        best := i;
      }
      i := i + 1;
    }
  }

  // The i-th order of the list loses `qty`: gone, reloaded at the end of the list, or reduced in place.
  function LoweredAt(list: seq<Order>, i: nat, qty: int, now: nat): seq<Order>
    requires i < |list|
  {
    var o := list[i].(remaining := list[i].remaining - qty, visible := list[i].visible - qty);
    if o.remaining == 0 then Without(list, i)
    else if o.visible == 0
        && o.display > 0 then Without(list, i) + [o.(visible := Min(o.display, o.remaining), timestamp := now + 1)]
    else list[i := o]
  }

  // ---- price by price ----

  lemma {:induction false} AtAppend(a: seq<Order>, b: seq<Order>, price: int)
    ensures At(a + b, price) == At(a, price) + At(b, price)
  {
    if a == [] {
      assert a + b == b;
    } else {
      assert (a + b)[1..] == a[1..] + b && (a + b)[0] == a[0];
      AtAppend(a[1..], b, price);
      var one := if a[0].price == price then [a[0]] else [];
      assert At(a + b, price) == one + At(a[1..] + b, price);
      assert one + (At(a[1..], price) + At(b, price)) == one + At(a[1..], price) + At(b, price);
    }
  }

  // The list around place i, seen at one price.
  lemma {:induction false} AtSplit(list: seq<Order>, i: nat, price: int)
    requires i < |list|
    ensures At(list, price) == At(list[..i], price) + At([list[i]], price) + At(list[i + 1..], price)
    ensures At(Without(list, i), price) == At(list[..i], price) + At(list[i + 1..], price)
  {
    assert list == list[..i] + ([list[i]] + list[i + 1..]);
    AtAppend(list[..i], [list[i]] + list[i + 1..], price);
    AtAppend([list[i]], list[i + 1..], price);
    AtAppend(list[..i], list[i + 1..], price);
  }

  lemma {:induction false} AtNone(list: seq<Order>, price: int)
    requires forall j {:trigger list[j]} :: 0 <= j < |list| ==> list[j].price != price
    ensures At(list, price) == []
  {
    if list != [] { AtNone(list[1..], price); }
  }

  lemma {:induction false} AtSome(list: seq<Order>, j: nat)
    requires j < |list|
    ensures At(list, list[j].price) != []
  {
    if j > 0 { AtSome(list[1..], j - 1); }
  }

  lemma {:induction false} AtPrices(list: seq<Order>, price: int, k: nat) returns (j: nat)
    requires k < |At(list, price)|
    ensures j < |list| && list[j] == At(list, price)[k] && list[j].price == price
  {
    if list[0].price == price {
      if k == 0 { j := 0; } else { j := AtPrices(list[1..], price, k - 1); j := j + 1; }
    } else {
      j := AtPrices(list[1..], price, k);
      j := j + 1;
    }
  }

  // Up to its first order at a price the list has nothing at that price.
  lemma {:induction false} FirstSplit(list: seq<Order>, i: nat, price: int)
    requires i < |list| && forall j {:trigger list[j]} :: 0 <= j < i ==> list[j].price != list[i].price
    ensures price == list[i].price ==> At(list[..i], price) == []
    ensures At([list[i]], price) == if price == list[i].price then [list[i]] else []
  {
    if price == list[i].price { AtNone(list[..i], price); }
    assert At([list[i]][1..], price) == [];
  }

  // The list without the first order at its price.
  lemma {:induction false} WithoutAtPrice(list: seq<Order>, i: nat, price: int)
    requires i < |list| && forall j {:trigger list[j]} :: 0 <= j < i ==> list[j].price != list[i].price
    ensures price == list[i].price ==>
        At(list, price) == [list[i]] + At(list[i + 1..], price)
        && At(Without(list, i), price) == At(list[i + 1..], price)
    ensures price != list[i].price ==> At(Without(list, i), price) == At(list, price)
  {
    AtSplit(list, i, price);
    FirstSplit(list, i, price);
    var a, b := At(list[..i], price), At(list[i + 1..], price);
    assert [] + b == b && a + [] + b == a + b && [] + [list[i]] + b == [list[i]] + b;
  }

  // The list with the first order at its price rewritten.
  lemma UpdateAtPrice(list: seq<Order>, i: nat, o: Order, price: int)
    requires i < |list| && o.price == list[i].price
    requires forall j {:trigger list[j]} :: 0 <= j < i ==> list[j].price != list[i].price
    ensures At(list[i := o], price) == if price == o.price then [o] + At(list[i + 1..], price) else At(list, price)
  {
    var r := list[i := o];
    assert r[i + 1..] == list[i + 1..] && Without(r, i) == Without(list, i);
    WithoutAtPrice(list, i, price);
    WithoutAtPrice(r, i, price);
  }

  // Lowering the first order at a price lowers the head of that price's queue, and no other.
  lemma {:induction false} LoweredAtPrice(list: seq<Order>, i: nat, qty: int, now: nat, price: int)
    requires i < |list| && forall j {:trigger list[j]} :: 0 <= j < i ==> list[j].price != list[i].price
    ensures At(list, list[i].price) != []
    ensures At(LoweredAt(list, i, qty, now), price) == if price ==
        list[i].price then Lowered(At(list, price), qty, now, list[i].status) else At(list, price)
    ensures At(Without(list, i), price) == if price == list[i].price then At(list, price)[1..] else At(list, price)
  {
    hide At, Without;
    WithoutAtPrice(list, i, price);
    WithoutAtPrice(list, i, list[i].price);
    var o := list[i].(remaining := list[i].remaining - qty, visible := list[i].visible - qty);
    if o.remaining != 0 {
      if o.visible == 0 && o.display > 0 {
        var again := o.(visible := Min(o.display, o.remaining), timestamp := now + 1);
        AtAppend(Without(list, i), [again], price);
        AtOne(again, price);
        assert At(Without(list, i), price) + [] == At(Without(list, i), price);
      } else {
        UpdateAtPrice(list, i, o, price);
        assert o.(status := list[i].status) == o;
      }
    }
  }

  lemma {:induction false} AtOne(o: Order, price: int)
    ensures At([o], price) == if o.price == price then [o] else []
  {
    assert At([o][1..], price) == [];
  }

  // ---- one step agrees with one step ----

  // The taker as the simple form keeps it.
  function Sentinel(inc: Order): Order {
    Plain(inc).(remaining := if inc.status == Cancelled then 0 else inc.remaining)
  }

  ghost predicate Agree(s: State, f: Flat) {
    f.inc == Sentinel(s.inc) && f.trades == s.trades && f.now == s.now && Same(s.levels, f.list)
  }

  function FlatStep(f: Flat, i: nat, tid: nat): Flat
    requires i < |f.list|
  {
    var (inc, rest) := (f.inc, f.list[i]);
    var qty := Min(inc.remaining, rest.visible);
    var later := if Reloads(rest, qty) then f.now + 1 else f.now;
    if Conflict(inc, rest) then
      match inc.policy
      case CancelNewest => f.(inc := inc.(remaining := 0))
      case CancelOldest => f.(list := Without(f.list, i))
      case CancelBoth => f.(inc := inc.(remaining := 0), list := Without(f.list, i))
      case Decrement =>
        f.(inc := inc.(remaining := inc.remaining - qty, visible := Shown(inc.display, inc.remaining - qty)),
            list := LoweredAt(f.list, i, qty, f.now), now := later)
      case NoPolicy => f
    else
      Flat(inc.(remaining := inc.remaining - qty), LoweredAt(f.list, i, qty, f.now),
        f.trades + [Trade(tid, rest.price, qty, inc.id, rest.id, inc.side, f.now)], later)
  }

  // Nothing in the list can be matched exactly when the best level cannot.
  lemma NoneLeft(s: State, f: Flat)
    requires Ok(s) && Agree(s, f) && f.inc.remaining > 0
    requires forall j {:trigger f.list[j]} :: 0 <= j < |f.list| ==> !CanMatch(f.inc, f.list[j].price)
    ensures !Going(s)
  {
    if s.levels != [] { var j := HeadListed(s, f); }
  }

  lemma HeadListed(s: State, f: Flat) returns (j: nat)
    requires Ok(s) && Agree(s, f) && s.levels != []
    ensures j < |f.list| && f.list[j].price == s.levels[0].price
  {
    assert LevelOk(s.levels[0]) && SamePrice(s.levels, f.list, s.levels[0].price);
    j := AtPrices(f.list, s.levels[0].price, 0);
  }

  // What the scan finds is the head of the best level.
  lemma BestIsHead(s: State, f: Flat, i: nat)
    requires Ok(s) && Agree(s, f) && f.inc.remaining > 0 && BestAt(f.inc, f.list, i)
    ensures Going(s) && s.levels[0].queue != []
    ensures f.list[i].price == s.levels[0].price && f.list[i] == Plain(s.levels[0].queue[0])
  {
    var p := f.list[i].price;
    AtSome(f.list, i);
    assert SamePrice(s.levels, f.list, p);
    var k := QueuePrice(s.inc.side, s.levels, p);
    var top := s.levels[0];
    assert LevelOk(top) && SamePrice(s.levels, f.list, top.price);
    var j := AtPrices(f.list, top.price, 0);
    if k > 0 {
      assert Better(s.inc.side, top.price, s.levels[k].price);
      assert CanMatch(f.inc, f.list[j].price);
      assert false;
    }
    FirstAt(f.list, i);
  }

  lemma {:induction false} FirstAt(list: seq<Order>, i: nat)
    requires i < |list| && forall j {:trigger list[j]} :: 0 <= j < i ==> list[j].price != list[i].price
    ensures At(list, list[i].price) != [] && At(list, list[i].price)[0] == list[i]
  {
    AtSplit(list, i, list[i].price);
    AtNone(list[..i], list[i].price);
  }

  lemma PlainLowered(q: seq<Order>, qty: int, now: nat, after: Status)
    requires q != []
    ensures PlainAll(Lowered(q, qty, now, after)) == Lowered(PlainAll(q), qty, now, New)
    ensures PlainAll(q[1..]) == PlainAll(q)[1..]
  {
  }

  lemma SameLowered(s: State, f: Flat, i: nat, qty: int, after: Status)
    requires Ok(s) && Agree(s, f) && f.inc.remaining > 0 && BestAt(f.inc, f.list, i)
    ensures s.levels != [] && s.levels[0].queue != []
    ensures Same(WithQueue(s.levels, Lowered(s.levels[0].queue, qty, s.now, after)), LoweredAt(f.list, i, qty, f.now))
    ensures Same(WithQueue(s.levels, s.levels[0].queue[1..]), Without(f.list, i))
  {
    BestIsHead(s, f, i);
    var q := s.levels[0].queue;
    PlainLowered(q, qty, s.now, after);
    forall price ensures SamePrice(WithQueue(s.levels, Lowered(q, qty, s.now, after)), LoweredAt(f.list, i, qty, f.now),
        price)
                      && SamePrice(WithQueue(s.levels, q[1..]), Without(f.list, i), price) {
      assert SamePrice(s.levels, f.list, price);
      LoweredAtPrice(f.list, i, qty, f.now, price);
      QueueAtWith(s.inc.side, s.levels, Lowered(q, qty, s.now, after), price);
      QueueAtWith(s.inc.side, s.levels, q[1..], price);
    }
  }

  lemma StepAgrees(s: State, f: Flat, i: nat, tid: nat)
    requires Ok(s) && Agree(s, f) && f.inc.remaining > 0 && BestAt(f.inc, f.list, i)
    ensures Going(s) && s.levels[0].queue != [] && Agree(Step(s, tid), FlatStep(f, i, tid))
  {
    BestIsHead(s, f, i);
    var rest := s.levels[0].queue[0];
    var qty := Min(s.inc.remaining, rest.visible);
    SameLowered(s, f, i, qty, if Conflict(s.inc, rest) then rest.status else PartiallyFilled);
  }

  lemma TakerKept(s: State, f: Flat)
    requires Ok(s) && Agree(s, f)
    ensures f.inc.side == s.inc.side && f.inc.remaining >= 0 && (f.inc.group != 0 ==> f.inc.policy != NoPolicy)
    ensures f.trades == s.trades
    ensures f.inc.remaining == 0 ==> !Going(s)
  {
  }

  lemma {:induction false} MatchedOver(s: State, base: nat, f: Flat)
    requires Ok(s) && Agree(s, f) && !Going(s)
    ensures Agree(Matched(s, base), f)
  {
  }

  class ShadowEngine {
    var bids: seq<Order>
    var asks: seq<Order>
    var pending: seq<Trade>
    var now: nat
    var tid: nat

    constructor ()
      ensures bids == [] && asks == [] && pending == [] && now == 0 && tid == 1
    {
      bids, asks, pending, now, tid := [], [], [], 0, 1;
    }

    function Contra(side: Side): seq<Order>
      reads this
    {
      if side == Buy then asks else bids
    }

    method SetContra(side: Side, list: seq<Order>)
      modifies `bids, `asks
      ensures Contra(side) == list
      ensures if side == Buy then bids == old(bids) else asks == old(asks)
    {
      if side == Buy { asks := list; } else { bids := list; }
    }

    // What the taker and its own group do to each other; true if matching stops here.
    method HandleStp(inc0: Order, i: nat) returns (inc: Order, done: bool)
      requires i < |Contra(inc0.side)| && inc0.remaining > 0 && Conflict(inc0, Contra(inc0.side)[i])
      modifies this
      ensures pending == old(pending) && tid == old(tid)
      ensures if inc0.side == Buy then bids == old(bids) else asks == old(asks)
      ensures inc.side == inc0.side
      ensures Flat(inc, Contra(inc0.side), pending, now) ==
          FlatStep(Flat(inc0, old(Contra(inc0.side)), old(pending), old(now)), i, tid)
      ensures inc0.policy != NoPolicy ==> (done <==> inc.remaining == 0)
    {
      inc := inc0;
      var list := Contra(inc.side);
      var rest := list[i];
      match inc.policy {
        case CancelNewest =>
          inc := inc.(remaining := 0);
          return inc, true;
        case CancelOldest =>
          SetContra(inc.side, list[..i] + list[i + 1..]);
          return inc, false;
        case CancelBoth =>
          SetContra(inc.side, list[..i] + list[i + 1..]);
          inc := inc.(remaining := 0);
          return inc, true;
        case Decrement =>
          var rq := Min(inc.remaining, rest.visible);
          inc := inc.(remaining := inc.remaining - rq);
          rest := rest.(remaining := rest.remaining - rq, visible := rest.visible - rq);
          inc := inc.(visible := Shown(inc.display, inc.remaining));
          Settle(inc.side, i, rest);
          return inc, inc.remaining == 0;
        case NoPolicy =>
          return inc, false;
      }
    }

    // The i-th order has become `rest`: it goes, reloads at the end of the list, or stays in place.
    method Settle(side: Side, i: nat, rest: Order)
      requires i < |Contra(side)|
      modifies `bids, `asks, `now
      ensures if side == Buy then bids == old(bids) else asks == old(asks)
      ensures var qty := old(Contra(side))[i].remaining - rest.remaining;
        rest == old(Contra(side))[i].(remaining := rest.remaining, visible := old(Contra(side))[i].visible - qty) ==>
          && Contra(side) == LoweredAt(old(Contra(side)), i, qty, old(now))
          && now == if Reloads(old(Contra(side))[i], qty) then old(now) + 1 else old(now)
    {
      var list := Contra(side);
      if rest.remaining == 0 {
        SetContra(side, list[..i] + list[i + 1..]);
      } else if rest.visible == 0 && rest.display > 0 {
        now := now + 1;
        SetContra(side, list[..i] + list[i + 1..]
            + [rest.(visible := Min(rest.display, rest.remaining), timestamp := now)]);
      } else {
        SetContra(side, list[i := rest]);
      }
    }

    // Matching on the list gives what matching by levels gives, whichever levels hold the same orders.
    method MatchAgainst(inc0: Order, ghost s0: State, ghost base: nat) returns (inc: Order)
      requires Ok(s0) && Agree(s0, Flat(inc0, Contra(inc0.side), pending, now)) && tid == base + |pending|
      modifies this
      ensures Agree(Matched(s0, base), Flat(inc, Contra(inc0.side), pending, now)) && tid == base + |pending|
      ensures if inc0.side == Buy then bids == old(bids) else asks == old(asks)
    {
      hide Same, Matched, Step, Agree, Ok, LoweredAt, BestAt;
      inc := inc0;
      ghost var s := s0;
      TakerKept(s, Flat(inc, Contra(inc.side), pending, now));
      while inc.remaining > 0
        invariant Ok(s) && Agree(s, Flat(inc, Contra(inc.side), pending, now)) && tid == base + |pending|
        invariant inc.side == inc0.side && inc.remaining >= 0 && (inc.group != 0 ==> inc.policy != NoPolicy)
        invariant Matched(s, base) == Matched(s0, base) && s.trades == pending
        invariant if inc0.side == Buy then bids == old(bids) else asks == old(asks)
        decreases s.inc.remaining, Measure(s)
      {
        ghost var f := Flat(inc, Contra(inc.side), pending, now);
        var i := BestIndex(inc, Contra(inc.side));
        if i == -1 {
          NoneLeft(s, f);
          break;
        }
        StepAgrees(s, f, i, tid);
        MatchedStep(s, base);
        ghost var t := Step(s, tid);
        var rest := Contra(inc.side)[i];
        if Conflict(inc, rest) {
          var done;
          inc, done := HandleStp(inc, i);
        } else {
          var fq := Min(inc.remaining, rest.visible);
          pending := pending + [Trade(tid, rest.price, fq, inc.id, rest.id, inc.side, now)];
          tid := tid + 1;
          inc := inc.(remaining := inc.remaining - fq);
          Settle(inc.side, i, rest.(visible := rest.visible - fq, remaining := rest.remaining - fq));
        }
        s := t;
        TakerKept(s, Flat(inc, Contra(inc.side), pending, now));
      }
      TakerKept(s, Flat(inc, Contra(inc.side), pending, now));
      MatchedOver(s, base, Flat(inc, Contra(inc.side), pending, now));
    }
  }
}
