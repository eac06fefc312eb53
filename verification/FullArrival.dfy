/** What one order does to the book when it arrives, apart from the stops its trades set off,
    and what a run of such arrivals does. */
module FullArrival {
  import opened FullTypes
  import opened FullMatch
  import opened FullLaws
  import opened FullBook
  import PreChecks

  datatype Snapshot = Snapshot(bids: seq<Level>, asks: seq<Level>, trades: seq<Trade>, now: nat, tid: nat) {
    function Contra(side: Side): seq<Level> {
      if side == Buy then asks else bids
    }

    function WithContra(side: Side, ls: seq<Level>): Snapshot {
      if side == Buy then this.(asks := ls) else this.(bids := ls)
    }
  }

  function View(o: Order, p: Snapshot): State {
    State(o, p.Contra(o.side), p.trades, p.now, [])
  }

  // The taker after matching, and what it leaves.
  ghost function Met(o: Order, p: Snapshot): (Order, Snapshot) {
    if Ok(View(o, p)) && p.tid >= |p.trades| then
      var t := Matched(View(o, p), p.tid - |p.trades|);
      (t.inc, p.WithContra(o.side, t.levels).(trades := t.trades, now := t.now, tid := p.tid - |p.trades| + |t.trades|))
    else (o, p)
  }

  lemma MetIs(o: Order, p: Snapshot, t: State)
    requires Ok(View(o, p)) && p.tid >= |p.trades| && t == Matched(View(o, p), p.tid - |p.trades|)
    ensures Met(o, p) == (t.inc,
        p.WithContra(o.side, t.levels).(trades := t.trades, now := t.now, tid := p.tid - |p.trades| + |t.trades|))
  {
  }

  // The order at the back of its price.
  function Rest(o: Order, p: Snapshot): Snapshot {
    var side := Other(o.side);
    p.WithContra(side, Insert(side, p.Contra(side), o.(visible := Shown(o.display, o.remaining))))
  }

  // Only a limit order rests, and only what is left of it.
  function Disposed(o: Order, traded: bool, p: Snapshot): Snapshot {
    if o.status != Cancelled && o.remaining > 0 && o.kind == Limit && o.tif != Ioc then
      Rest(o.(status := if traded then PartiallyFilled else New), p)
    else p
  }

  lemma DisposedNone(o: Order, traded: bool, p: Snapshot)
    ensures o.status == Cancelled ==> Disposed(o, traded, p) == p
  {
  }

  // The order past its checks; a market-to-limit order goes on at the price of its first trade.
  ghost function Carried(o: Order, p: Snapshot): Snapshot {
    var m := Met(o, p);
    var r, q := m.0, m.1;
    var traded := |q.trades| > |p.trades|;
    if o.kind == MarketToLimit then
      if !traded then q
      else
        var l := r.(price := q.trades[|p.trades|].price, kind := Limit, minQty := 0);
        if l.remaining > 0 && l.status != Cancelled then var n := Met(l, q);
            Disposed(n.0, true, n.1) else Disposed(l, true, q)
    else Disposed(if traded then r.(minQty := 0) else r, traded, q)
  }

  predicate Crossing(o: Order, p: Snapshot) {
    if o.side == Buy then p.asks != [] && o.price >= p.asks[0].price else p.bids != [] && o.price <= p.bids[0].price
  }

  // Fill-or-kill and minimum quantity go by what is shown.
  predicate Killed(o: Order, p: Snapshot) {
    var shown := PreChecks.Avail(o, p.Contra(o.side));
    (o.tif == Fok && shown < o.quantity) || (0 < o.minQty && shown < o.minQty)
  }

  ghost function Arrive(o: Order, p: Snapshot): Snapshot {
    if o.postOnly then (if Crossing(o, p) then p else Rest(o.(status := New), p))
    else if Killed(o, p) then p
    else Carried(o, p)
  }

  // ---- a run of arrivals ----

  ghost function Arrivals(os: seq<Order>, p: Snapshot): Snapshot {
    if os == [] then p else Arrivals(os[1..], Arrive(os[0], p))
  }

  // The stops that fired, as the orders they turned into.
  function AllReleased(stops: seq<Order>): (os: seq<Order>)
    ensures |os| == |stops| && forall i {:trigger os[i]} :: 0 <= i < |os| ==> os[i] == Released(stops[i])
  {
    seq(|stops|, i requires 0 <= i < |stops| => Released(stops[i]))
  }

  // What the fired stops made of the book, one after the other.
  ghost function Fired(stops: seq<Order>, p: Snapshot): Snapshot {
    Arrivals(AllReleased(stops), p)
  }

  lemma {:induction false} ArrivalsAppend(a: seq<Order>, b: seq<Order>, p: Snapshot)
    ensures Arrivals(a + b, p) == Arrivals(b, Arrivals(a, p))
  {
    hide Arrive;
    if a == [] {
      assert a + b == b;
    } else {
      assert (a + b)[1..] == a[1..] + b;
      ArrivalsAppend(a[1..], b, Arrive(a[0], p));
    }
  }

  lemma FiredNone(p: Snapshot)
    ensures Fired([], p) == p
  {
  }

  lemma FiredMore(a: seq<Order>, b: seq<Order>, p: Snapshot)
    ensures Fired(a + b, p) == Fired(b, Fired(a, p))
  {
    assert AllReleased(a + b) == AllReleased(a) + AllReleased(b);
    ArrivalsAppend(AllReleased(a), AllReleased(b), p);
  }

  // One stop arrives, and then those its trades set off.
  lemma FiredOne(s: Order, b: seq<Order>, p: Snapshot)
    ensures Fired([s] + b, p) == Fired(b, Arrive(Released(s), p))
  {
    hide Arrive, Released;
    assert AllReleased([s] + b) == [Released(s)] + AllReleased(b);
  }

  // ---- what an arrival can do ----

  // One of these trades is at a price that fires the stop.
  predicate HitBy(o: Order, ts: seq<Trade>) {
    exists j {:trigger ts[j]} :: 0 <= j < |ts|
        && if o.side == Buy then ts[j].price >= o.stopPrice else ts[j].price <= o.stopPrice
  }

  // A trade made before it fires, by the order that arrived from p0 or by a stop that fired earlier, sets off each.
  ghost predicate SetOff(p0: Snapshot, fired: seq<Order>) {
    forall i {:trigger fired[i]} :: 0 <= i < |fired| ==> HitBy(fired[i], Fired(fired[..i], p0).trades)
  }

  lemma SetOffMore(p0: Snapshot, a: seq<Order>, b: seq<Order>)
    requires SetOff(p0, a) && SetOff(Fired(a, p0), b)
    ensures SetOff(p0, a + b)
  {
    hide Fired, HitBy;
    forall i | 0 <= i < |a + b| ensures HitBy((a + b)[i], Fired((a + b)[..i], p0).trades) {
      if i < |a| {
        assert (a + b)[..i] == a[..i] && (a + b)[i] == a[i];
      } else {
        assert (a + b)[..i] == a + b[..i - |a|] && (a + b)[i] == b[i - |a|];
        FiredMore(a, b[..i - |a|], p0);
      }
    }
  }

  lemma SetOffOne(o: Order, p: Snapshot, k: nat)
    requires k < |p.trades| && Fires(o, p.trades[k].price)
    ensures SetOff(p, [o])
  {
    FiredNone(p);
    assert [o][..0] == [];
  }

  // ---- stops leave one by one ----

  // These stops and no others have fired: the book is what their arrivals make of it, and the rest are still pending.
  ghost predicate Loosed(p0: Snapshot, stops0: seq<Order>, fired: seq<Order>, p: Snapshot, stops: seq<Order>) {
    p == Fired(fired, p0) && multiset(stops0) == multiset(stops) + multiset(fired) && SetOff(p0, fired)
  }

  lemma LoosedNone(p: Snapshot, stops: seq<Order>)
    ensures Loosed(p, stops, [], p, stops)
  {
    FiredNone(p);
  }

  lemma LoosedOn(p0: Snapshot, s0: seq<Order>, a: seq<Order>, p1: Snapshot, s1: seq<Order>, b: seq<Order>,
          p2: Snapshot, s2: seq<Order>)
    requires Loosed(p0, s0, a, p1, s1) && Loosed(p1, s1, b, p2, s2)
    ensures Loosed(p0, s0, a + b, p2, s2)
  {
    hide Fired, SetOff;
    FiredMore(a, b, p0);
    SetOffMore(p0, a, b);
  }

  // The same with `trig` taken out already and waiting.
  ghost predicate Loosing(p0: Snapshot, stops0: seq<Order>, fired: seq<Order>, p: Snapshot, stops: seq<Order>,
          trig: seq<Order>) {
    p == Fired(fired, p0) && multiset(stops0) == multiset(stops) + multiset(fired) + multiset(trig)
        && SetOff(p0, fired)
  }

  lemma LoosingOne(p0: Snapshot, s0: seq<Order>, a: seq<Order>, p1: Snapshot, s1: seq<Order>, trig: seq<Order>,
          i: nat, b: seq<Order>, p2: Snapshot, s2: seq<Order>, k: nat)
    requires i < |trig| && Loosing(p0, s0, a, p1, s1, trig[i..]) && Loosed(Arrive(Released(trig[i]), p1), s1, b, p2, s2)
    requires k < |p1.trades| && Fires(trig[i], p1.trades[k].price)
    ensures Loosing(p0, s0, a + ([trig[i]] + b), p2, s2, trig[i + 1..])
  {
    hide Fired, SetOff, Arrive, Released, Fires;
    assert trig[i..] == [trig[i]] + trig[i + 1..];
    FiredOne(trig[i], b, p1);
    FiredMore(a, [trig[i]] + b, p0);
    FiredOne(trig[i], [], p1);
    FiredNone(Arrive(Released(trig[i]), p1));
    assert [trig[i]] + [] == [trig[i]];
    SetOffOne(trig[i], p1, k);
    SetOffMore(p1, [trig[i]], b);
    SetOffMore(p0, a, [trig[i]] + b);
  }

  lemma LoosingAll(p0: Snapshot, s0: seq<Order>, a: seq<Order>, p: Snapshot, s: seq<Order>)
    ensures Loosing(p0, s0, a, p, s, []) ==> Loosed(p0, s0, a, p, s)
  {
  }

  lemma LoosingStart(p: Snapshot, s0: seq<Order>, s: seq<Order>, trig: seq<Order>)
    requires multiset(s0) == multiset(s) + multiset(trig)
    ensures Loosing(p, s0, [], p, s, trig)
  {
    FiredNone(p);
  }
}
