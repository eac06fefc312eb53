/** The full-feature engine: the pipeline of one order, and the cascade of stops its trades set off. */
module FullEngine {
  import opened FullTypes
  import opened FullMatch
  import opened FullLaws
  import opened FullBook
  import opened FullArrival
  import opened FullCascade
  import opened FullQueues
  import opened FullStops
  import opened FullTerms
  import opened FullCalls
  import PreChecks

  // The levels without a first one that has been emptied but not yet dropped.
  function Trim(ls: seq<Level>): seq<Level> {
    if ls != [] && ls[0].queue == [] then ls[1..] else ls
  }

  lemma TrimWith(ls: seq<Level>, q: seq<Order>)
    requires ls != []
    ensures Trim([ls[0].(queue := q)] + ls[1..]) == WithQueue(ls, q)
    ensures ls[0].queue != [] ==> Trim(ls) == ls
  {
    assert ([ls[0].(queue := q)] + ls[1..])[1..] == ls[1..];
  }

  lemma TrimFull(ls: seq<Level>)
    requires ls != [] && ls[0].queue != []
    ensures Trim(ls) == ls
  {
  }

  // One order leaves the index.
  lemma IndexLess(idx: set<nat>, ids: multiset<nat>, id: nat)
    requires ids + multiset{id} <= multiset(idx)
    ensures id in idx && ids <= multiset(idx - {id}) && multiset(idx - {id}) + multiset{id} == multiset(idx)
    ensures |idx - {id}| == |idx| - 1
  {
    assert (ids + multiset{id})[id] <= multiset(idx)[id];
    forall x ensures ids[x] <= multiset(idx - {id})[x] {
      assert (ids + multiset{id})[x] <= multiset(idx)[x];
    }
  }

  ghost predicate Priced(trades: seq<Trade>) {
    forall i {:trigger trades[i]} :: 0 <= i < |trades| ==> trades[i].price > 0
  }

  /** Where a matching began. */
  datatype Begin = Begin(s0: State, base: nat, idx: set<nat>, freed: nat, made: seq<Trade>, levels: nat,
      other: seq<Level>)

  // A step with an own order leaves the taker's price and side, and does not trade.
  lemma StepSame(s: State, tid: nat)
    requires s.levels != [] && s.levels[0].queue != [] && Conflict(s.inc, s.levels[0].queue[0])
    ensures var t := Step(s, tid);
      && t.inc.side == s.inc.side && t.inc.price == s.inc.price && t.trades == s.trades
  {
  }

  // Orders that leave the index one after the other add up.
  lemma GoneOn(all: set<nat>, idx0: set<nat>, idx: set<nat>, gone0: seq<nat>, gone: seq<nat>)
    requires multiset(idx0) + multiset(gone0) == multiset(all) && gone0 <= gone
    requires multiset(idx) + multiset(gone[|gone0|..]) == multiset(idx0)
    ensures multiset(idx) + multiset(gone) == multiset(all)
  {
    assert gone == gone0 + gone[|gone0|..];
  }

  lemma MadeOn(made0: seq<Trade>, first: seq<Trade>, t: seq<Trade>, x: Trade)
    requires first <= t
    ensures first <= t + [x] && made0 + t[|first|..] + [x] == made0 + (t + [x])[|first|..]
  {
    assert (t + [x])[|first|..] == t[|first|..] + [x];
  }

  // A step with anyone else's order is a trade.
  lemma StepOther(s: State, tid: nat)
    requires s.levels != [] && s.levels[0].queue != [] && !Conflict(s.inc, s.levels[0].queue[0])
    ensures var (q, t) := (s.levels[0].queue, Step(s, tid));
      var qty := Min(s.inc.remaining, q[0].visible);
      && t.inc == s.inc.(remaining := s.inc.remaining - qty)
          && t.levels == WithQueue(s.levels, Lowered(q, qty, s.now, PartiallyFilled))
      && t.trades == s.trades + [Trade(tid, q[0].price, qty, s.inc.id, q[0].id, s.inc.side, s.now)]
      && t.now == (if Reloads(q[0], qty) then s.now + 1 else s.now)
      && t.gone == if q[0].remaining == qty then s.gone + [q[0].id] else s.gone
  {
  }

  lemma HeadShown(s: State)
    requires Ok(s) && s.levels != [] && s.levels[0].queue != []
    ensures 0 < s.levels[0].queue[0].visible <= s.levels[0].queue[0].remaining
  {
    assert LevelOk(s.levels[0]) && RestingOk(s.levels[0].price, s.levels[0].queue[0]);
  }

  lemma MadeCount(made: seq<Trade>, tid: nat)
    requires Numbered(made, tid)
    ensures tid == |made| + 1
  {
  }

  // New trades continue the numbering.
  lemma MadeMore(made0: seq<Trade>, tid0: nat, made: seq<Trade>, tid: nat, trades0: seq<Trade>, trades: seq<Trade>,
          t: State, s: State, base: nat)
    requires Numbered(made0, tid0) && trades0 <= trades && tid == tid0 + |trades| - |trades0|
    requires made == made0 + trades[|trades0|..]
    requires TradesFrom(s, t, base) && s.trades == trades0 && t.trades == trades && base + |trades0| == tid0
    ensures Numbered(made, tid)
  {
    forall i | 0 <= i < |made| ensures made[i].id == i + 1 {
      if i >= |made0| { assert made[i] == trades[|trades0| + i - |made0|]; }
    }
  }

  // What has left the book has left the index.
  lemma {:induction false} IndexMatched(idx0: set<nat>, idx: set<nat>, gone: multiset<nat>, bids0: seq<Level>,
          asks0: seq<Level>, bids: seq<Level>, asks: seq<Level>, stops: seq<Order>, flying: multiset<nat>)
    requires IndexOk(idx0, bids0, asks0, stops, flying) && multiset(idx) + gone == multiset(idx0)
    requires (bids == bids0 && IdsIn(asks) + gone == IdsIn(asks0))
        || (asks == asks0 && IdsIn(bids) + gone == IdsIn(bids0))
    ensures IndexOk(idx, bids, asks, stops, flying)
  {
    hide IdsIn, IdsOf;
    var b, a, b0, a0, s := IdsIn(bids), IdsIn(asks), IdsIn(bids0), IdsIn(asks0), IdsOf(stops);
    forall x ensures multiset(idx)[x] == (b + a + s + flying)[x] {
      assert (multiset(idx) + gone)[x] == multiset(idx0)[x];
      if bids == bids0 && a + gone == a0 { assert (a + gone)[x] == a0[x]; } else { assert (b + gone)[x] == b0[x]; }
      assert multiset(idx0)[x] == (b0 + a0 + s + flying)[x];
    }
  }

  lemma IndexErase(idx: set<nat>, bids: seq<Level>, asks: seq<Level>, stops: seq<Order>, flying: multiset<nat>, id: nat)
    requires IndexOk(idx, bids, asks, stops, flying + multiset{id})
    ensures id in idx && IndexOk(idx - {id}, bids, asks, stops, flying) && |idx - {id}| == |idx| - 1
  {
    var ids := IdsIn(bids) + IdsIn(asks) + IdsOf(stops) + flying;
    assert ids + multiset{id} == multiset(idx);
    IndexLess(idx, ids, id);
    forall x ensures multiset(idx - {id})[x] == ids[x] {
      assert (multiset(idx - {id}) + multiset{id})[x] == (ids + multiset{id})[x];
    }
  }

  // From in flight to the book.
  lemma {:induction false} IndexInsert(idx: set<nat>, bids0: seq<Level>, asks0: seq<Level>, bids: seq<Level>,
          asks: seq<Level>, stops: seq<Order>, flying: multiset<nat>, id: nat)
    requires IndexOk(idx, bids0, asks0, stops, flying + multiset{id})
    requires (bids == bids0 && IdsIn(asks) == IdsIn(asks0) + multiset{id})
        || (asks == asks0 && IdsIn(bids) == IdsIn(bids0) + multiset{id})
    ensures IndexOk(idx, bids, asks, stops, flying)
  {
  }

  // The trades and all trades ever made have grown by the same trades.
  ghost predicate More(t0: seq<Trade>, t: seq<Trade>, m0: seq<Trade>, m: seq<Trade>) {
    t0 <= t && m == m0 + t[|t0|..]
  }

  // The listener has been told of exactly these trades more, each once.
  ghost predicate Told(d0: seq<Trade>, d: seq<Trade>, owed: seq<Trade>) {
    d0 <= d && multiset(d) == multiset(d0) + multiset(owed)
  }

  lemma MoreNone(t: seq<Trade>, m: seq<Trade>)
    ensures More(t, t, m, m)
  {
    assert t[|t|..] == [] && m + [] == m;
  }

  lemma MoreGrows(t0: seq<Trade>, t: seq<Trade>, m0: seq<Trade>, m: seq<Trade>)
    requires More(t0, t, m0, m)
    ensures t0 <= t
  {
  }

  lemma MoreOn(t0: seq<Trade>, t1: seq<Trade>, t2: seq<Trade>, m0: seq<Trade>, m1: seq<Trade>, m2: seq<Trade>)
    requires More(t0, t1, m0, m1) && More(t1, t2, m1, m2)
    ensures More(t0, t2, m0, m2)
  {
    assert t2[|t0|..] == t1[|t0|..] + t2[|t1|..];
  }

  lemma ToldNone(d: seq<Trade>)
    ensures Told(d, d, [])
  {
  }

  // The i-th trade has been told, and then those of the cascade it set off.
  lemma ToldOn(d0: seq<Trade>, d: seq<Trade>, d1: seq<Trade>, d2: seq<Trade>, t: seq<Trade>, t2: seq<Trade>,
          start: nat, i: nat, end: nat)
    requires start <= i < end <= |t| && t <= t2
    requires Told(d0, d, t[start..i] + t[end..]) && d1 == d + [t[i]] && Told(d1, d2, t2[|t|..])
    ensures Told(d0, d2, t2[start..i + 1] + t2[end..])
  {
    assert t2[start..i + 1] == t[start..i] + [t[i]] && t2[end..] == t[end..] + t2[|t|..];
  }

  lemma ToldMore(d0: seq<Trade>, d: seq<Trade>, d1: seq<Trade>, n: nat, t: seq<Trade>, t1: seq<Trade>)
    requires n <= |t| && t <= t1 && Told(d0, d, t[n..]) && Told(d, d1, t1[|t|..])
    ensures Told(d0, d1, t1[n..])
  {
    assert t1[n..] == t[n..] + t1[|t|..];
  }

  lemma NoIds()
    ensures IdsOf([]) == multiset{}
  {
  }

  lemma {:induction false} IdsMore(q: seq<Order>, o: Order)
    ensures IdsOf(q + [o]) == IdsOf(q) + multiset{o.id} && multiset(q + [o]) == multiset(q) + multiset{o}
  {
    IdsAppend(q, [o]);
    assert IdsOf([o]) == multiset{o.id};
  }

  lemma NextFlying(flying: multiset<nat>, trig: seq<Order>, i: nat)
    requires i < |trig|
    ensures flying + IdsOf(trig[i..]) == flying + IdsOf(trig[i + 1..]) + multiset{Released(trig[i]).id}
  {
    assert trig[i..][1..] == trig[i + 1..];
  }

  // A stop that fires is ready to be matched.
  lemma ReleasedOk(o: Order)
    requires StopOk(o)
    ensures ActiveOk(Released(o)) && Released(o).id == o.id
  {
  }

  lemma InFlight(idx: set<nat>, bids: seq<Level>, asks: seq<Level>, stops: seq<Order>, others: multiset<nat>, id: nat)
    ensures IndexOk(idx, bids, asks, stops, others + multiset{id}) ==> id in idx
  {
    if IndexOk(idx, bids, asks, stops, others + multiset{id}) {
      assert id in multiset(idx);
    }
  }

  lemma NoneFlying(id: nat)
    ensures multiset{} + multiset{id} == multiset{id}
  {
  }

  lemma AllTold(d0: seq<Trade>, d: seq<Trade>, m0: seq<Trade>, m: seq<Trade>, t: seq<Trade>)
    requires (Told(d0, d, t[0..]) && m == m0 + t[0..]) || (d == d0 && m == m0)
    requires multiset(d0) == multiset(m0)
    ensures multiset(d) == multiset(m)
  {
  }

  lemma IndexStop(idx: set<nat>, bids: seq<Level>, asks: seq<Level>, stops: seq<Order>, o: Order)
    requires IndexOk(idx, bids, asks, stops, multiset{o.id})
    ensures IndexOk(idx, bids, asks, stops + [o], multiset{})
  {
    IdsAppend(stops, [o]);
    assert IdsOf([o]) == multiset{o.id};
  }

  lemma IndexAdd(idx: set<nat>, bids: seq<Level>, asks: seq<Level>, stops: seq<Order>, id: nat)
    requires IndexOk(idx, bids, asks, stops, multiset{}) && id !in idx
    ensures IndexOk(idx + {id}, bids, asks, stops, multiset{id}) && |idx + {id}| == |idx| + 1
  {
    assert multiset(idx + {id}) == multiset(idx) + multiset{id};
  }

  // From the book into flight.
  lemma {:induction false} IndexTake(idx: set<nat>, bids0: seq<Level>, asks0: seq<Level>, bids: seq<Level>,
          asks: seq<Level>, stops: seq<Order>, flying: multiset<nat>, id: nat)
    requires IndexOk(idx, bids0, asks0, stops, flying)
    requires (bids == bids0 && IdsIn(asks0) == IdsIn(asks) + multiset{id})
        || (asks == asks0 && IdsIn(bids0) == IdsIn(bids) + multiset{id})
    ensures IndexOk(idx, bids, asks, stops, flying + multiset{id})
  {
  }

  // An indexed id is in exactly one place.
  lemma {:induction false} IndexOne(idx: set<nat>, bids: seq<Level>, asks: seq<Level>, stops: seq<Order>, id: nat)
    requires IndexOk(idx, bids, asks, stops, multiset{}) && id in idx
    ensures IdsIn(bids)[id] + IdsIn(asks)[id] + IdsOf(stops)[id] == 1
  {
    hide IdsIn, IdsOf;
    assert multiset(idx)[id] == 1;
    assert (IdsIn(bids) + IdsIn(asks) + IdsOf(stops) + multiset{})[id] == 1;
  }

  lemma {:induction false} IndexOut(idx: set<nat>, bids: seq<Level>, asks: seq<Level>, stops: seq<Order>, id: nat)
    requires IndexOk(idx, bids, asks, stops, multiset{}) && id !in idx
    ensures !OnSide(bids, id) && !OnSide(asks, id)
  {
    OnSideIds(bids, id);
    OnSideIds(asks, id);
    assert multiset(idx)[id] == 0;
    assert (IdsIn(bids) + IdsIn(asks) + IdsOf(stops) + multiset{})[id] == 0;
  }

  lemma {:induction false} AmongAt(q: seq<Order>, id: nat)
    ensures Among(q, id) <==> exists i {:trigger q[i]} :: 0 <= i < |q| && q[i].id == id
  {
    if q != [] {
      AmongAt(q[1..], id);
      if Among(q[1..], id) { var i :| 0 <= i < |q| - 1 && q[1..][i].id == id; assert q[i + 1].id == id; }
      if exists i {:trigger q[i]} :: 0 < i < |q| && q[i].id == id {
        var i :| 0 < i < |q| && q[i].id == id;
        assert q[1..][i - 1].id == id;
      }
    }
  }

  // The stop of this id has gone, and the last stop is in its place.
  ghost predicate Withdrawn(stops0: seq<Order>, id: nat, stops: seq<Order>) {
    exists i: nat {:trigger stops0[i]} :: i < |stops0| && stops0[i].id == id && stops == SwapOut(stops0, i)
  }

  lemma NonePriced()
    ensures Priced([])
  {
  }

  // A side with the same ids.
  lemma IndexSame(idx: set<nat>, bids: seq<Level>, asks: seq<Level>, r: seq<Level>, stops: seq<Order>, side: Side)
    requires IndexOk(idx, bids, asks, stops, multiset{}) && IdsIn(r) == IdsIn(if side == Buy then bids else asks)
    ensures IndexOk(idx, if side == Buy then r else bids, if side == Buy then asks else r, stops, multiset{})
  {
  }

  // An expired order is on exactly one side.
  lemma {:induction false} ExpiredPlace(idx: set<nat>, bids: seq<Level>, asks: seq<Level>, stops: seq<Order>, t: nat,
          id: nat)
    requires IndexOk(idx, bids, asks, stops, multiset{})
    requires id in multiset(ExpiredIn(bids, t)) + multiset(ExpiredIn(asks, t))
    ensures id in idx
    ensures if OnSide(bids, id) then id in multiset(ExpiredIn(bids, t)) && IdsIn(bids)[id] == 1
        else id in multiset(ExpiredIn(asks, t)) && IdsIn(asks)[id] == 1
  {
    ExpiredBelowIn(bids, t);
    ExpiredBelowIn(asks, t);
    OnSideIds(bids, id);
    OnSideIds(asks, id);
    hide IdsIn, IdsOf, ExpiredIn;
    assert multiset(idx)[id] == (IdsIn(bids) + IdsIn(asks) + IdsOf(stops) + multiset{})[id];
    assert multiset(ExpiredIn(bids, t))[id] <= IdsIn(bids)[id] && multiset(ExpiredIn(asks, t))[id] <= IdsIn(asks)[id];
  }

  lemma OneLess(a: multiset<nat>, b: multiset<nat>, id: nat)
    requires a + multiset{id} == b + multiset{id}
    ensures a == b
  {
    forall x ensures a[x] == b[x] { assert (a + multiset{id})[x] == (b + multiset{id})[x]; }
  }

  lemma NextDue(exp: seq<nat>, k: nat)
    requires k < |exp|
    ensures multiset(exp[k..]) == multiset(exp[k + 1..]) + multiset{exp[k]}
    ensures multiset(exp[..k + 1]) == multiset(exp[..k]) + multiset{exp[k]}
  {
    assert exp[k..] == [exp[k]] + exp[k + 1..] && exp[..k + 1] == exp[..k] + [exp[k]];
  }

  lemma SameMembers(q: seq<Order>, r: seq<Order>)
    requires multiset(q) == multiset(r)
    ensures |q| == |r| && forall i {:trigger r[i]} :: 0 <= i < |r| ==> r[i] in q
  {
    assert |multiset(q)| == |multiset(r)|;
    forall i | 0 <= i < |r| ensures r[i] in q { assert r[i] in multiset(r); }
  }

  lemma FollowsIds(s: State, t: State, base: nat)
    requires Follows(s, t, base) && s.gone == []
    ensures IdsIn(t.levels) + multiset(t.gone) == IdsIn(s.levels) && SameTaker(s.inc, t.inc) && TradesFrom(s, t, base)
  {
    assert multiset(s.gone) == multiset{};
  }

  // No pending stop would fire at the price of any of these trades.
  ghost predicate Quiet(stops: seq<Order>, ts: seq<Trade>) {
    forall i, j {:trigger stops[i], ts[j]} :: 0 <= i < |stops| && 0 <= j < |ts| ==>
        if stops[i].side == Buy then ts[j].price < stops[i].stopPrice else ts[j].price > stops[i].stopPrice
  }

  ghost predicate NoneFires(stops: seq<Order>, px: int) {
    forall i {:trigger stops[i]} :: 0 <= i < |stops| ==>
        if stops[i].side == Buy then px < stops[i].stopPrice else px > stops[i].stopPrice
  }

  // The scan takes the stops that fire and no others; all are those that were pending.
  lemma {:induction false} ScanDone(stops0: seq<Order>, px: int)
    requires StopsOk(stops0)
    ensures var trig, stops := ByTime(Taken(stops0, 0, px)), Left(stops0, 0, px);
      && multiset(stops0) == multiset(stops) + multiset(trig) && |stops0| == |stops| + |trig|
      && Fewer(stops0, stops) && NoneFires(stops, px)
      && (forall i {:trigger trig[i]} :: 0 <= i < |trig| ==>
           StopOk(trig[i]) && Fires(trig[i], px) && trig[i] in stops0)
  {
    hide StopOk, Taken, Left, ByTime;
    var taken, stops := Taken(stops0, 0, px), Left(stops0, 0, px);
    var trig := ByTime(taken);
    TakenIs(stops0, 0, px);
    ByTimeIs(taken);
    SameMembers(taken, trig);
    assert |multiset(stops0)| == |multiset(stops) + multiset(trig)|;
    forall i | 0 <= i < |stops| ensures !Fires(stops[i], px) && stops[i] in stops0 {
      assert stops[i] in stops && stops[i] in multiset(stops);
      assert stops[i] in multiset(stops0);
    }
    forall i | 0 <= i < |trig| ensures StopOk(trig[i]) && Fires(trig[i], px) && trig[i] in stops0 {
      assert trig[i] in taken && trig[i] in multiset(taken);
      assert trig[i] in multiset(stops0);
      var k :| 0 <= k < |stops0| && stops0[k] == trig[i];
    }
  }

  // With so few stops pending that the depth limit is out of reach, none is left that fires at these trades:
  // each level of nesting has used up a stop.
  ghost predicate QuietBelow(depth: nat, pending: nat, stops: seq<Order>, ts: seq<Trade>) {
    depth + pending <= MAX_CASCADE ==> Quiet(stops, ts)
  }

  // The i-th trade has been told, and then those of the cascade it set off.
  lemma QuietOn(stops: seq<Order>, t: seq<Trade>, t2: seq<Trade>, start: nat, i: nat, end: nat)
    requires start <= i < end <= |t| && t <= t2
    requires Quiet(stops, t[start..i] + t[end..]) && Quiet(stops, [t[i]] + t2[|t|..])
    ensures Quiet(stops, t2[start..i + 1] + t2[end..])
  {
    var a, b, c := t[start..i] + t[end..], [t[i]] + t2[|t|..], t2[start..i + 1] + t2[end..];
    forall k | 0 <= k < |c| ensures c[k] in a || c[k] in b {
      if k < i - start { assert c[k] == a[k]; }
      else if k == i - start { assert c[k] == b[0]; }
      else if end + k - (i + 1 - start) < |t| { assert c[k] == a[k - 1]; }
      else { assert c[k] == b[end + k - (i + 1 - start) - |t| + 1]; }
    }
    QuietIn(stops, a, b, c);
  }

  lemma QuietTold(depth: nat, pending: nat, was: seq<Order>, stops: seq<Order>, t: seq<Trade>, t2: seq<Trade>,
          start: nat, i: nat, end: nat)
    requires start <= i < end <= |t| && t <= t2 && Fewer(was, stops) && |was| <= pending
    requires QuietBelow(depth, pending, was, t[start..i] + t[end..])
    requires QuietBelow(depth, |was|, stops, [t[i]] + t2[|t|..])
    ensures QuietBelow(depth, pending, stops, t2[start..i + 1] + t2[end..])
  {
    hide Quiet, Fewer;
    if depth + pending <= MAX_CASCADE {
      QuietFewer(was, stops, t[start..i] + t[end..]);
      QuietOn(stops, t, t2, start, i, end);
    }
  }

  /** What the delivery of trades works on. */
  datatype Moment = Moment(p: Snapshot, stops: seq<Order>, made: seq<Trade>, delivered: seq<Trade>)

  // From m0 to m the trades from `start` up to the i-th have been told, with all that came of it.
  ghost predicate Telling(m0: Moment, m: Moment, start: nat, i: nat, depth: nat, fired: seq<Order>) {
    var (was, now, end) := (m0.p.trades, m.p.trades, |m0.p.trades|);
    && start <= i <= end <= |now| && was <= now && More(was, now, m0.made, m.made)
    && Told(m0.delivered, m.delivered, now[start..i] + now[end..])
    && Fewer(m0.stops, m.stops) && (depth < MAX_CASCADE ==> Quiet(m.stops, was[start..i]))
    && Loosed(m0.p, m0.stops, fired, m.p, m.stops)
    && |m.stops| <= |m0.stops| && QuietBelow(depth, |m0.stops|, m.stops, now[start..i] + now[end..])
    && Cascade(was[start..], depth, m0.p, m0.stops) ==
        Cascade(was[i..], depth, m.p, m.stops).Behind(fired, Since(m0.delivered, m.delivered))
  }

  lemma TellingNone(m: Moment, start: nat, depth: nat)
    requires start <= |m.p.trades|
    ensures Telling(m, m, start, start, depth, [])
  {
    var t := m.p.trades;
    assert t[|t|..] == [] && t[start..start] + [] == [];
    BehindTwice(Cascade(t[start..], depth, m.p, m.stops), [], [], [], []);
    SinceOn(m.delivered, m.delivered, m.delivered);
    LoosedNone(m.p, m.stops);
    NoneQuiet(m.stops);
    ToldNone(m.delivered);
    MoreNone(t, m.made);
  }

  lemma {:induction false} CascadeFrom(m0: Moment, m: Moment, start: nat, i: nat, depth: nat, fired: seq<Order>,
          d2: seq<Trade>, c: Fallout)
    requires start <= i < |m0.p.trades| && m0.delivered <= m.delivered
    requires var ts := m0.p.trades; var d1 := m.delivered + [ts[i]];
      && Cascade(ts[start..], depth, m0.p, m0.stops) ==
          Cascade(ts[i..], depth, m.p, m.stops).Behind(fired, Since(m0.delivered, m.delivered))
      && d1 <= d2 && c.told == Since(d1, d2) && c == TurnOf(ts[i].price, depth, m.p, m.stops)
    ensures var ts := m0.p.trades;
      Cascade(ts[start..], depth, m0.p, m0.stops) ==
          Cascade(ts[i + 1..], depth, c.p, c.stops).Behind(fired + c.fired, Since(m0.delivered, d2))
  {
    hide Cascade, TurnOf;
    var ts, d1 := m0.p.trades, m.delivered + [m0.p.trades[i]];
    CascadeOn(Cascade(ts[start..], depth, m0.p, m0.stops), ts, i, depth, m.p, m.stops, fired,
      Since(m0.delivered, m.delivered), c);
    assert Since(m0.delivered, d2) == Since(m0.delivered, m.delivered) + ([ts[i]] + Since(d1, d2));
  }

  lemma {:induction false} TellingDelivered(m0: Moment, m: Moment, m2: Moment, start: nat, i: nat, depth: nat,
          fired: seq<Order>)
    requires Telling(m0, m, start, i, depth, fired) && i < |m0.p.trades|
    requires m.p.trades <= m2.p.trades && Told(m.delivered + [m.p.trades[i]], m2.delivered, m2.p.trades[|m.p.trades|..])
    ensures m0.delivered <= m.delivered && m.delivered + [m0.p.trades[i]] <= m2.delivered
  {
    hide More, Quiet, QuietBelow, Loosed, Fewer, Cascade;
  }

  // The i-th trade is told as well.
  lemma {:induction false} TellingMore(m0: Moment, m: Moment, m2: Moment, start: nat, i: nat, depth: nat,
          fired: seq<Order>,
          more: seq<Order>)
    requires Telling(m0, m, start, i, depth, fired) && i < |m0.p.trades|
    requires More(m.p.trades, m2.p.trades, m.made, m2.made) && m.p.trades <= m2.p.trades
    requires Told(m.delivered + [m.p.trades[i]], m2.delivered, m2.p.trades[|m.p.trades|..])
    requires Fewer(m.stops, m2.stops)
    requires depth < MAX_CASCADE ==> NoneFires(m2.stops, m.p.trades[i].price)
    requires Loosed(m.p, m.stops, more, m2.p, m2.stops)
    requires QuietBelow(depth, |m.stops|, m2.stops, [m.p.trades[i]] + m2.p.trades[|m.p.trades|..])
    requires Fallout(m2.p, m2.stops, more, Since(m.delivered + [m.p.trades[i]], m2.delivered)) ==
        TurnOf(m.p.trades[i].price, depth, m.p, m.stops)
    ensures Telling(m0, m2, start, i + 1, depth, fired + more)
  {
    hide More, Told, Quiet, QuietBelow, Fires, Loosed, Fewer, Cascade, TurnOf, Since;
    var t0, t, t2, end := m0.p.trades, m.p.trades, m2.p.trades, |m0.p.trades|;
    TellingDelivered(m0, m, m2, start, i, depth, fired);
    CascadeFrom(m0, m, start, i, depth, fired, m2.delivered,
      Fallout(m2.p, m2.stops, more, Since(m.delivered + [m.p.trades[i]], m2.delivered)));
    assert t0[start..i + 1] == t0[start..i] + [t[i]];
    if depth < MAX_CASCADE {
      QuietFewer(m.stops, m2.stops, t0[start..i]);
      QuietMore(m2.stops, t0[start..i], t[i]);
    }
    LoosedFewer(m.p, m.stops, more, m2.p, m2.stops);
    QuietTold(depth, |m0.stops|, m.stops, m2.stops, t, t2, start, i, end);
    FewerAgain(m0.stops, m.stops, m2.stops);
    LoosedOn(m0.p, m0.stops, fired, m.p, m.stops, more, m2.p, m2.stops);
    ToldOn(m0.delivered, m.delivered, m.delivered + [t[i]], m2.delivered, t, t2, start, i, end);
    MoreOn(t0, t, t2, m0.made, m.made, m2.made);
  }

  lemma {:induction false} TellingAll(m0: Moment, m: Moment, start: nat, depth: nat, fired: seq<Order>)
    requires Telling(m0, m, start, |m0.p.trades|, depth, fired)
    ensures More(m0.p.trades, m.p.trades, m0.made, m.made) && Told(m0.delivered, m.delivered, m.p.trades[start..])
    ensures Fewer(m0.stops, m.stops) && (depth < MAX_CASCADE ==> Quiet(m.stops, m0.p.trades[start..]))
    ensures Loosed(m0.p, m0.stops, fired, m.p, m.stops)
    ensures QuietBelow(depth, |m0.stops|, m.stops, m.p.trades[start..])
    ensures Cascade(m0.p.trades[start..], depth, m0.p, m0.stops) ==
        Fallout(m.p, m.stops, fired, Since(m0.delivered, m.delivered))
  {
    hide More, Told, Quiet, QuietBelow, Loosed, Fewer;
    var (was, now, end) := (m0.p.trades, m.p.trades, |m0.p.trades|);
    assert was[end..] == [];
    CascadeOver(depth, m.p, m.stops, fired, Since(m0.delivered, m.delivered));
    assert now[start..] == now[start..end] + now[end..] && was[start..end] == was[start..];
  }

  // From m0 to m the first i of the triggered stops have arrived, with all that came of it.
  ghost predicate Loosening(m0: Moment, m: Moment, trig: seq<Order>, i: nat, px: int, depth: nat, fired: seq<Order>) {
    var (was, now, end) := (m0.p.trades, m.p.trades, |m0.p.trades|);
    && i <= |trig| && depth < MAX_CASCADE && was <= now && More(was, now, m0.made, m.made)
    && Told(m0.delivered, m.delivered, now[end..])
    && Fewer(m0.stops, m.stops) && NoneFires(m.stops, px) && |m.stops| + |trig| <= |m0.stops|
    && Loosing(m0.p, m0.stops, fired, m.p, m.stops, trig[i..])
    && QuietBelow(depth, |m0.stops|, m.stops, now[end..])
    && Turn(px, depth, m0.p, m0.stops) ==
        Loosen(trig[i..], depth, m.p, m.stops).Behind(fired, Since(m0.delivered, m.delivered))
  }

  lemma {:induction false} LooseningNone(m: Moment, px: int, depth: nat)
    requires depth < MAX_CASCADE
    ensures More(m.p.trades, m.p.trades, m.made, m.made)
    ensures Told(m.delivered, m.delivered, m.p.trades[|m.p.trades|..])
    ensures Loosed(m.p, m.stops, [], m.p, m.stops)
    ensures QuietBelow(depth, |m.stops|, m.stops, m.p.trades[|m.p.trades|..])
    ensures Fewer(m.stops, m.stops)
    ensures m.stops == [] ==> Turn(px, depth, m.p, m.stops) == Fallout(m.p, m.stops, [], [])
    ensures Since(m.delivered, m.delivered) == []
  {
    var t := m.p.trades;
    assert t[|t|..] == [];
    LoosedNone(m.p, m.stops);
    NoneQuiet(m.stops);
    ToldNone(m.delivered);
    MoreNone(t, m.made);
    LoosenNone(depth, m.p);
  }

  lemma {:induction false} LooseningStart(m0: Moment, m: Moment, trig: seq<Order>, px: int, depth: nat)
    requires depth < MAX_CASCADE && m == m0.(stops := m.stops) && |trig| + |m.stops| <= |m0.stops|
    requires Fewer(m0.stops, m.stops) && NoneFires(m.stops, px)
    requires multiset(m0.stops) == multiset(m.stops) + multiset(trig)
    requires trig == ByTime(Taken(m0.stops, 0, px)) && m.stops == Left(m0.stops, 0, px)
    ensures Loosening(m0, m, trig, 0, px, depth, [])
  {
    var t := m.p.trades;
    assert t[|t|..] == [] && trig[0..] == trig;
    LoosingStart(m.p, m0.stops, m.stops, trig);
    hide Fewer, Loosing, Fires, Loosen, Quiet, Taken, Left, ByTime;
    NoneQuiet(m.stops);
    ToldNone(m.delivered);
    MoreNone(t, m.made);
    BehindTwice(Loosen(trig, depth, m.p, m.stops), [], [], [], []);
    SinceOn(m.delivered, m.delivered, m.delivered);
  }

  lemma {:induction false} LooseningDelivered(m0: Moment, m: Moment, m2: Moment, trig: seq<Order>, i: nat, px: int,
          depth: nat, fired: seq<Order>)
    requires Loosening(m0, m, trig, i, px, depth, fired) && m.p.trades <= m2.p.trades
    requires Told(m.delivered, m2.delivered, m2.p.trades[|m.p.trades|..])
    ensures m0.delivered <= m.delivered <= m2.delivered
  {
    hide More, Quiet, QuietBelow, Loosing, Fewer, Loosen, Turn, NoneFires;
  }

  // The next triggered stop has arrived, and set off what it would.
  lemma {:induction false} LooseningMore(m0: Moment, m: Moment, m2: Moment, trig: seq<Order>, i: nat, px: int,
          depth: nat,
          fired: seq<Order>, own: seq<Trade>, more: seq<Order>, at: nat)
    requires Loosening(m0, m, trig, i, px, depth, fired) && i < |trig|
    requires at < |m0.p.trades| && m0.p.trades[at].price == px && Fires(trig[i], px)
    requires More(m.p.trades, m2.p.trades, m.made, m2.made)
    requires Told(m.delivered, m2.delivered, m2.p.trades[|m.p.trades|..])
    requires m.p.trades + own <= m2.p.trades && Fewer(m.stops, m2.stops)
    requires trig[i] in m0.stops
    requires Arrive(Released(trig[i]), m.p).trades == m.p.trades + own
    requires Loosed(Arrive(Released(trig[i]), m.p), m.stops, more, m2.p, m2.stops)
    requires Fallout(m2.p, m2.stops, more, Since(m.delivered, m2.delivered)) ==
        Cascade(own, depth + 1, Arrive(Released(trig[i]), m.p), m.stops)
    requires QuietBelow(depth + 1, |m.stops|, m2.stops, m2.p.trades[|m.p.trades|..])
    ensures m.p.trades <= m2.p.trades && Loosening(m0, m2, trig, i + 1, px, depth, fired + ([trig[i]] + more))
  {
    hide Arrive, Released, Fires, More, Told, Quiet, Loosed, Loosing, Fewer, Cascade, Loosen, Turn,
        Since, NoneFires;
    var n, t, t2 := |m0.p.trades|, m.p.trades, m2.p.trades;
    var q := Arrive(Released(trig[i]), m.p);
    assert t <= t2 && t[at].price == px;
    LoosingOne(m0.p, m0.stops, fired, m.p, m.stops, trig, i, more, m2.p, m2.stops, at);
    SinceIs(t, q.trades, own);
    LooseningDelivered(m0, m, m2, trig, i, px, depth, fired);
    LoosenOn(Turn(px, depth, m0.p, m0.stops), trig, i, depth, m.p, m.stops, fired,
      Since(m0.delivered, m.delivered), own, Fallout(m2.p, m2.stops, more, Since(m.delivered, m2.delivered)));
    SinceOn(m0.delivered, m.delivered, m2.delivered);
    LoosedFewer(q, m.stops, more, m2.p, m2.stops);
    if depth + |m0.stops| <= MAX_CASCADE {
      QuietFewer(m.stops, m2.stops, t[n..]);
      QuietJoin(m2.stops, n, t, t2);
    }
    FewerAgain(m0.stops, m.stops, m2.stops);
    FewerQuiet(m.stops, m2.stops, px);
    ToldMore(m0.delivered, m.delivered, m2.delivered, n, t, t2);
    MoreOn(m0.p.trades, t, t2, m0.made, m.made, m2.made);
  }

  lemma {:induction false} LooseningAll(m0: Moment, m: Moment, trig: seq<Order>, px: int, depth: nat, fired: seq<Order>)
    requires Loosening(m0, m, trig, |trig|, px, depth, fired)
    ensures More(m0.p.trades, m.p.trades, m0.made, m.made)
    ensures Told(m0.delivered, m.delivered, m.p.trades[|m0.p.trades|..])
    ensures Fewer(m0.stops, m.stops)
    ensures NoneFires(m.stops, px)
    ensures Loosed(m0.p, m0.stops, fired, m.p, m.stops)
    ensures QuietBelow(depth, |m0.stops|, m.stops, m.p.trades[|m0.p.trades|..])
    ensures Fallout(m.p, m.stops, fired, Since(m0.delivered, m.delivered)) == Turn(px, depth, m0.p, m0.stops)
  {
    hide More, Told, Quiet, Loosed, Fewer, Loosing, Turn;
    assert trig[|trig|..] == [];
    LoosingAll(m0.p, m0.stops, fired, m.p, m.stops);
    LoosenOver(depth, m.p, m.stops, fired, Since(m0.delivered, m.delivered));
  }

  lemma QuietIn(stops: seq<Order>, a: seq<Trade>, b: seq<Trade>, c: seq<Trade>)
    requires Quiet(stops, a) && Quiet(stops, b) && forall k {:trigger c[k]} :: 0 <= k < |c| ==> c[k] in a || c[k] in b
    ensures Quiet(stops, c)
  {
    forall i, j | 0 <= i < |stops| && 0 <= j < |c| ensures !Fires(stops[i], c[j].price) {
      if c[j] in a { var k :| 0 <= k < |a| && a[k] == c[j]; } else { var k :| 0 <= k < |b| && b[k] == c[j]; }
    }
  }

  lemma QuietJoin(stops: seq<Order>, n: nat, t: seq<Trade>, t1: seq<Trade>)
    requires n <= |t| && t <= t1 && Quiet(stops, t[n..]) && Quiet(stops, t1[|t|..])
    ensures Quiet(stops, t1[n..])
  {
    var a, b, c := t[n..], t1[|t|..], t1[n..];
    forall k | 0 <= k < |c| ensures c[k] in a || c[k] in b {
      if k < |a| { assert c[k] == a[k]; } else { assert c[k] == b[k - |a|]; }
    }
    QuietIn(stops, a, b, c);
  }

  lemma QuietFirst(stops: seq<Order>, t: Trade, ts: seq<Trade>)
    requires Quiet(stops, ts) && NoneFires(stops, t.price)
    ensures Quiet(stops, [t] + ts)
  {
  }

  lemma LoosedFewer(p0: Snapshot, stops0: seq<Order>, fired: seq<Order>, p: Snapshot, stops: seq<Order>)
    requires Loosed(p0, stops0, fired, p, stops)
    ensures |stops0| == |stops| + |fired|
  {
    assert |multiset(stops0)| == |multiset(stops) + multiset(fired)|;
  }

  // Every stop pending now was pending then.
  ghost predicate Fewer(stops0: seq<Order>, stops: seq<Order>) {
    forall i {:trigger stops[i]} :: 0 <= i < |stops| ==> stops[i] in stops0
  }

  lemma FewerAgain(a: seq<Order>, b: seq<Order>, c: seq<Order>)
    requires Fewer(a, b) && Fewer(b, c)
    ensures Fewer(a, c)
  {
    forall i | 0 <= i < |c| ensures c[i] in a {
      assert c[i] in b;
      var j :| 0 <= j < |b| && b[j] == c[i];
    }
  }

  // Stops that were quiet stay so as others leave.
  lemma QuietFewer(a: seq<Order>, b: seq<Order>, ts: seq<Trade>)
    requires Fewer(a, b) && Quiet(a, ts)
    ensures Quiet(b, ts)
  {
    forall i, j | 0 <= i < |b| && 0 <= j < |ts| ensures !Fires(b[i], ts[j].price) {
      assert b[i] in a;
      var k :| 0 <= k < |a| && a[k] == b[i];
      assert !Fires(a[k], ts[j].price);
    }
  }

  lemma FewerQuiet(a: seq<Order>, b: seq<Order>, px: int)
    requires Fewer(a, b) && NoneFires(a, px)
    ensures NoneFires(b, px)
  {
    forall i | 0 <= i < |b| ensures !Fires(b[i], px) {
      assert b[i] in a;
      var k :| 0 <= k < |a| && a[k] == b[i];
    }
  }

  lemma NoneQuiet(stops: seq<Order>)
    ensures Quiet(stops, []) && Fewer(stops, stops)
  {
  }

  lemma QuietMore(stops: seq<Order>, ts: seq<Trade>, t: Trade)
    requires Quiet(stops, ts) && NoneFires(stops, t.price)
    ensures Quiet(stops, ts + [t])
  {
  }

  // Everything a whole matching guarantees to the pipeline.
  lemma {:induction false} MatchFacts(bids: seq<Level>, asks: seq<Level>, s: State, base: nat)
    requires BookOk(bids, asks) && TakerOk(s.inc) && s.gone == [] && Priced(s.trades)
    requires s.levels == if s.inc.side == Buy then asks else bids
    ensures Ok(s) && LevelsOk(s.inc.side, s.levels)
    ensures var t := Matched(s, base);
      && (if s.inc.side == Buy then BookOk(bids, t.levels) else BookOk(t.levels, asks))
      && IdsIn(t.levels) + multiset(t.gone) == IdsIn(s.levels) && Priced(t.trades) && TradesFrom(s, t, base)
    ensures var t := Matched(s, base); SameTaker(s.inc, t.inc) && t.inc.side == s.inc.side
    ensures var t := Matched(s, base); t.inc.status == Cancelled || t.inc.remaining == 0 || NoCross(t.inc, t.levels)
    ensures var t := Matched(s, base);
        s.inc.remaining <= PreChecks.Avail(s.inc, s.levels) ==> t.inc.remaining == 0 || t.inc.status == Cancelled
    ensures var t := Matched(s, base);
      0 < s.inc.minQty <= PreChecks.Avail(s.inc, s.levels) ==>
          t.inc.remaining == 0 || t.inc.status == Cancelled || |t.trades| > |s.trades|
  {
    BookMatched(bids, asks, s, base);
    MatchedFollows(s, base, Other(s.inc.side));
    MatchedPrices(s, base, Other(s.inc.side), 0);
    hide BookOk, AllSettled;
    FollowsIds(s, Matched(s, base), base);
    if s.inc.remaining <= PreChecks.Avail(s.inc, s.levels) { PreChecks.EnoughShown(s, base); }
    if 0 < s.inc.minQty <= PreChecks.Avail(s.inc, s.levels) { PreChecks.MinQtyMet(s, base); }
  }

  lemma {:induction false} IndexHolds(idx: set<nat>, bids: seq<Level>, asks: seq<Level>, stops: seq<Order>,
          flying: multiset<nat>)
    requires IndexOk(idx, bids, asks, stops, flying)
    ensures IdsIn(bids) <= multiset(idx) && IdsIn(asks) <= multiset(idx)
  {
    hide IdsIn, IdsOf;
  }

  lemma LeaveIndex(idx0: set<nat>, idx: set<nat>, gone: seq<nat>)
    requires multiset(idx) + multiset(gone) == multiset(idx0)
    ensures |idx| + |gone| == |idx0|
  {
    assert |multiset(idx) + multiset(gone)| == |multiset(idx0)|;
  }

  class FullEngine {
    var bids: seq<Level>
    var asks: seq<Level>
    var idx: set<nat>
    var stops: seq<Order>
    var trades: seq<Trade>
    var now: nat
    var tid: nat
    var lastPx: int
    var ordersMade: nat
    var ordersFreed: nat
    var levelsMade: nat
    var levelsFreed: nat
    // What the listener has been told.
    var delivered: seq<Trade>
    // Every trade made so far, in order.
    ghost var made: seq<Trade>

    function Contra(side: Side): seq<Level>
      reads `bids, `asks
    {
      if side == Buy then asks else bids
    }

    // Book, trades, clock and numbering as a value.
    ghost function Snap(): Snapshot
      reads `bids, `asks, `trades, `now, `tid
    {
      Snapshot(bids, asks, trades, now, tid)
    }

    ghost function This(): Moment
      reads this
    {
      Moment(Snap(), stops, made, delivered)
    }

    method SetContra(side: Side, ls: seq<Level>)
      modifies `bids, `asks
      ensures Contra(side) == ls && Contra(Other(side)) == old(Contra(Other(side)))
    {
      if side == Buy { asks := ls; } else { bids := ls; }
    }

    // The matching under way, as a value.
    ghost function View(inc: Order, gone: seq<nat>): State
      reads `bids, `asks, `trades, `now
    {
      State(inc, Trim(Contra(inc.side)), trades, now, gone)
    }

    // The first contra order leaves the book and the index, and is freed.
    method RemoveHead(side: Side)
      requires Contra(side) != [] && Contra(side)[0].queue != [] && IdsIn(Trim(Contra(side))) <= multiset(idx)
      modifies `bids, `asks, `idx, `ordersFreed
      ensures |Contra(side)| == |old(Contra(side))| && Contra(side)[0].price == old(Contra(side))[0].price
      ensures Trim(Contra(side)) == WithQueue(old(Contra(side)), old(Contra(side))[0].queue[1..])
      ensures Contra(Other(side)) == old(Contra(Other(side))) && IdsIn(Trim(Contra(side))) <= multiset(idx)
      ensures multiset(idx) + multiset{old(Contra(side))[0].queue[0].id} == multiset(old(idx))
      ensures ordersFreed == old(ordersFreed) + 1 && |idx| == |old(idx)| - 1
    {
      var ls := Contra(side);
      var q := ls[0].queue;
      HeadIds(ls);
      WithQueueIds(ls, q[1..]);
      IndexLess(idx, IdsIn(WithQueue(ls, q[1..])), q[0].id);
      SetContra(side, [ls[0].(queue := q[1..])] + ls[1..]);
      idx := idx - {q[0].id};
      ordersFreed := ordersFreed + 1;
    }

    // The first contra order has become `rest`: it goes, reloads behind its level, or stays in place.
    method Settle(side: Side, rest: Order, after: Status, ghost qty: int)
      requires Contra(side) != [] && Contra(side)[0].queue != [] && IdsIn(Trim(Contra(side))) <= multiset(idx)
      requires var o := Contra(side)[0].queue[0]; rest == o.(remaining := o.remaining - qty, visible := o.visible - qty)
      modifies `bids, `asks, `idx, `ordersFreed, `now
      ensures |Contra(side)| == |old(Contra(side))| && Contra(side)[0].price == old(Contra(side))[0].price
      ensures Trim(Contra(side)) ==
          WithQueue(old(Contra(side)), Lowered(old(Contra(side))[0].queue, qty, old(now), after))
      ensures Contra(Other(side)) == old(Contra(Other(side))) && IdsIn(Trim(Contra(side))) <= multiset(idx)
      ensures var o := old(Contra(side))[0].queue[0];
        && multiset(idx) + (if o.remaining == qty then multiset{o.id} else multiset{}) == multiset(old(idx))
        && ordersFreed + |idx| == old(ordersFreed) + |old(idx)|
        && now == if Reloads(o, qty) then old(now) + 1 else old(now)
    {
      hide IdsIn, IdsOf, WithQueue, Trim;
      var q := Contra(side)[0].queue;
      LoweredIds(q, qty, now, after);
      if rest.remaining == 0 {
        RemoveHead(side);
      } else if rest.visible == 0 && rest.display > 0 {
        now := now + 1;
        PutQueue(side, q[1..] + [rest.(visible := Min(rest.display, rest.remaining), timestamp := now)]);
      } else {
        PutQueue(side, [rest.(status := after)] + q[1..]);
      }
    }

    // The first contra queue is rewritten with the same orders in it.
    method PutQueue(side: Side, q: seq<Order>)
      requires Contra(side) != [] && Contra(side)[0].queue != [] && q != [] && IdsOf(q) == IdsOf(Contra(side)[0].queue)
      modifies `bids, `asks
      ensures |Contra(side)| == |old(Contra(side))| && Contra(side)[0].price == old(Contra(side))[0].price
      ensures Trim(Contra(side)) == WithQueue(old(Contra(side)), q)
      ensures IdsIn(Trim(Contra(side))) == IdsIn(Trim(old(Contra(side))))
      ensures Contra(Other(side)) == old(Contra(Other(side)))
    {
      var ls := Contra(side);
      HeadIds(ls);
      WithQueueIds(ls, q);
      TrimWith(ls, q);
      hide IdsIn, IdsOf, WithQueue, Trim;
      SetContra(side, [ls[0].(queue := q)] + ls[1..]);
    }

    // The taker meets an order of its own group.
    method HandleStp(inc0: Order, ghost gone0: seq<nat>) returns (inc: Order, ghost gone: seq<nat>)
      requires Contra(inc0.side) != [] && Contra(inc0.side)[0].queue != []
      requires IdsIn(Trim(Contra(inc0.side))) <= multiset(idx)
      requires Conflict(inc0, Contra(inc0.side)[0].queue[0])
      modifies `bids, `asks, `idx, `ordersFreed, `now
      ensures inc.side == inc0.side && |Contra(inc.side)| == |old(Contra(inc0.side))|
      ensures Contra(inc.side)[0].price == old(Contra(inc0.side))[0].price
      ensures View(inc, gone) == Step(State(inc0, old(Contra(inc0.side)), trades, old(now), gone0), tid)
      ensures Kept(old(idx), old(ordersFreed), gone0, gone) && IdsIn(Trim(Contra(inc.side))) <= multiset(idx)
      ensures Contra(Other(inc.side)) == old(Contra(Other(inc.side)))
    {
      hide IdsIn;
      inc, gone := inc0, gone0;
      var rest := Contra(inc.side)[0].queue[0];
      match inc.policy {
        case CancelNewest =>
          inc := inc.(status := Cancelled);
        case CancelOldest =>
          RemoveHead(inc.side);
          gone := gone + [rest.id];
        case CancelBoth =>
          inc := inc.(status := Cancelled);
          RemoveHead(inc.side);
          gone := gone + [rest.id];
        case Decrement =>
          var rq := Min(inc.remaining, rest.visible);
          inc := inc.(remaining := inc.remaining - rq);
          gone := if rest.remaining == rq then gone + [rest.id] else gone;
          inc := inc.(visible := Shown(inc.display, inc.remaining));
          if inc.remaining == 0 { inc := inc.(status := Cancelled); }
          Settle(inc.side, rest.(remaining := rest.remaining - rq, visible := rest.visible - rq), rest.status, rq);
        case NoPolicy =>
      }
    }

    // Since then exactly the orders in `gone` beyond those in `was` have left the index.
    ghost predicate Kept(idx0: set<nat>, freed0: nat, was: seq<nat>, gone: seq<nat>)
      reads this
    {
      && was <= gone && multiset(idx) + multiset(gone[|was|..]) == multiset(idx0)
      && ordersFreed + |idx| == freed0 + |idx0|
    }

    // Matching that began as b.s0 has come to `s`, with everything else accounted for.
    ghost predicate During(b: Begin, inc: Order, gone: seq<nat>, s: State)
      reads this
    {
      && View(inc, gone) == s && Ok(s) && Ok(b.s0) && inc.side == b.s0.inc.side
          && Matched(s, b.base) == Matched(b.s0, b.base)
      && tid == b.base + |trades| && b.base > 0 && b.s0.trades <= trades && made == b.made + trades[|b.s0.trades|..]
      && multiset(idx) + multiset(gone) == multiset(b.idx) && ordersFreed + |idx| == b.freed + |b.idx|
      && IdsIn(s.levels) <= multiset(idx)
      && levelsFreed + |Contra(inc.side)| == b.levels && Contra(Other(inc.side)) == b.other
    }

    // What is left of a level after its turn.
    ghost predicate AtLevel(inc: Order)
      reads `bids, `asks
    {
      Contra(inc.side) != [] && CanMatch(inc, Contra(inc.side)[0].price) && inc.status != Cancelled
    }

    // An emptied level is dropped.
    method DropLevel(ghost b: Begin, inc: Order, ghost gone: seq<nat>, ghost s: State)
      requires During(b, inc, gone, s) && Contra(inc.side) != [] && Contra(inc.side)[0].queue == []
      modifies `bids, `asks, `levelsFreed
      ensures During(b, inc, gone, s) && Contra(inc.side) == s.levels
    {
      hide IdsIn, Matched, Kept;
      SetContra(inc.side, Contra(inc.side)[1..]);
      levelsFreed := levelsFreed + 1;
      if s.levels != [] { assert LevelOk(s.levels[0]); }
    }

    // One turn of the inner loop with an order of the taker's own group.
    method MeetOwn(ghost b: Begin, inc0: Order, ghost gone0: seq<nat>, ghost s0: State)
      returns (inc: Order, ghost gone: seq<nat>, ghost s: State)
      requires During(b, inc0, gone0, s0) && AtLevel(inc0) && inc0.remaining > 0 && Contra(inc0.side)[0].queue != []
      requires Conflict(inc0, Contra(inc0.side)[0].queue[0])
      modifies `bids, `asks, `idx, `ordersFreed, `now
      ensures During(b, inc, gone, s) && Contra(inc.side) != [] && CanMatch(inc, Contra(inc.side)[0].price)
      ensures inc.remaining < inc0.remaining || (inc.remaining == inc0.remaining && Measure(s) < Measure(s0))
    {
      hide IdsIn, Matched, Measure, Ok;
      MatchedStep(s0, b.base);
      StepSame(s0, tid);
      inc, gone := HandleStp(inc0, gone0);
      s := Step(s0, tid);
      GoneOn(b.idx, old(idx), idx, gone0, gone);
    }

    // The taker trades with the order at the head of the best level.
    method TakeFill(inc0: Order, ghost gone0: seq<nat>) returns (inc: Order, ghost gone: seq<nat>)
      requires Contra(inc0.side) != [] && Contra(inc0.side)[0].queue != []
      requires IdsIn(Trim(Contra(inc0.side))) <= multiset(idx)
      requires !Conflict(inc0, Contra(inc0.side)[0].queue[0])
      modifies `bids, `asks, `idx, `ordersFreed, `now, `trades, `tid, `made
      ensures View(inc, gone) == Step(old(View(inc0, gone0)), old(tid))
      ensures |trades| == |old(trades)| + 1 && trades == old(trades) + [trades[|old(trades)|]]
      ensures made == old(made) + [trades[|old(trades)|]] && tid == old(tid) + 1
      ensures |Contra(inc0.side)| == |old(Contra(inc0.side))|
      ensures Contra(inc0.side)[0].price == old(Contra(inc0.side))[0].price
      ensures Contra(Other(inc0.side)) == old(Contra(Other(inc0.side)))
      ensures IdsIn(Trim(Contra(inc0.side))) <= multiset(idx) && Kept(old(idx), old(ordersFreed), gone0, gone)
    {
      hide IdsIn, IdsOf, Lowered, Trim, WithQueue, Reloads, Step, Conflict;
      inc := inc0;
      var rest := Contra(inc.side)[0].queue[0];
      var fq := Min(inc.remaining, rest.visible);
      trades := trades + [Trade(tid, rest.price, fq, inc.id, rest.id, inc.side, now)];
      made := made + [trades[|trades| - 1]];
      tid := tid + 1;
      inc := inc.(remaining := inc.remaining - fq);
      gone := if rest.remaining == fq then gone0 + [rest.id] else gone0;
      TrimFull(Contra(inc.side));
      StepOther(old(View(inc0, gone0)), old(tid));
      Settle(inc.side, rest.(visible := rest.visible - fq, remaining := rest.remaining - fq), PartiallyFilled, fq);
    }

    // One turn of the inner loop that trades.
    method MeetOther(ghost b: Begin, inc0: Order, ghost gone0: seq<nat>, ghost s0: State)
      returns (inc: Order, ghost gone: seq<nat>, ghost s: State)
      requires During(b, inc0, gone0, s0) && AtLevel(inc0) && inc0.remaining > 0 && Contra(inc0.side)[0].queue != []
      requires !Conflict(inc0, Contra(inc0.side)[0].queue[0])
      modifies `bids, `asks, `idx, `ordersFreed, `now, `trades, `tid, `made
      ensures During(b, inc, gone, s) && AtLevel(inc)
      ensures inc.remaining < inc0.remaining
    {
      hide IdsIn, Matched, Measure, Ok, Step, Conflict, Lowered, WithQueue, Reloads;
      MatchedStep(s0, b.base);
      HeadShown(s0);
      StepOther(s0, b.base + |s0.trades|);
      inc, gone := TakeFill(inc0, gone0);
      s := Step(s0, b.base + |s0.trades|);
      GoneOn(b.idx, old(idx), idx, gone0, gone);
      MadeOn(b.made, b.s0.trades, old(trades), trades[|old(trades)|]);
    }

    // Matches the taker against the other side, level by level from the best price.
    method MatchAgainst(inc0: Order) returns (inc: Order, ghost gone: seq<nat>)
      requires TakerOk(inc0) && LevelsOk(inc0.side, Contra(inc0.side)) && inc0.status != Cancelled
      requires IdsIn(Contra(inc0.side)) <= multiset(idx) && tid > |trades|
      modifies `bids, `asks, `idx, `ordersFreed, `now, `trades, `tid, `made, `levelsFreed
      ensures var t := Matched(State(inc0, old(Contra(inc0.side)), old(trades), old(now), []),
          old(tid) - |old(trades)|);
        inc == t.inc && Contra(inc0.side) == t.levels && trades == t.trades && now == t.now && gone == t.gone
      ensures Contra(Other(inc0.side)) == old(Contra(Other(inc0.side)))
      ensures old(trades) <= trades && tid == old(tid) + |trades| - |old(trades)|
      ensures made == old(made) + trades[|old(trades)|..]
      ensures multiset(idx) + multiset(gone) == multiset(old(idx))
      ensures ordersFreed + |idx| == old(ordersFreed) + |old(idx)|
      ensures levelsFreed + |Contra(inc0.side)| == old(levelsFreed) + |old(Contra(inc0.side))|
    {
      hide IdsIn, Measure, Matched, Step;
      inc, gone := inc0, [];
      if Contra(inc.side) != [] { assert LevelOk(Contra(inc.side)[0]); }
      ghost var s := View(inc, gone);
      ghost var b := Begin(s, tid - |trades|, idx, ordersFreed, made, levelsFreed
          + |Contra(inc.side)|, Contra(Other(inc.side)));
      while inc.remaining > 0 && Contra(inc.side) != []
        invariant During(b, inc, gone, s) && Contra(inc.side) == s.levels && inc.status != Cancelled
        decreases s.inc.remaining, Measure(s)
      {
        if !CanMatch(inc, Contra(inc.side)[0].price) { break; }
        ghost var was := s;
        assert LevelOk(Contra(inc.side)[0]);
        while inc.remaining > 0 && Contra(inc.side)[0].queue != []
          invariant During(b, inc, gone, s) && AtLevel(inc)
          invariant s == was ==> Contra(inc.side)[0].queue != []
          invariant s == was || inc.remaining < was.inc.remaining
              || (inc.remaining == was.inc.remaining && Measure(s) < Measure(was))
          decreases s.inc.remaining, Measure(s)
        {
          if Conflict(inc, Contra(inc.side)[0].queue[0]) {
            inc, gone, s := MeetOwn(b, inc, gone, s);
            if inc.status == Cancelled || inc.remaining == 0 {
              if Contra(inc.side)[0].queue == [] { DropLevel(b, inc, gone, s); }
              MatchedNone(s, b.base);
              return;
            }
            continue;
          }
          inc, gone, s := MeetOther(b, inc, gone, s);
        }
        if Contra(inc.side)[0].queue == [] { DropLevel(b, inc, gone, s); }
      }
      MatchedNone(s, b.base);
    }

    // What holds whenever control is outside matching: `flying` are the orders being worked on.
    ghost predicate Inv(flying: multiset<nat>)
      reads this
    {
      && BookOk(bids, asks) && StopsOk(stops) && IndexOk(idx, bids, asks, stops, flying)
      && Numbered(made, tid) && LastOk(delivered, lastPx) && |trades| <= |made| && Priced(trades)
      && ordersMade == ordersFreed + |idx| && levelsMade == levelsFreed + |bids| + |asks|
    }

    // The parts that what arrives relies on.
    lemma InvParts(flying: multiset<nat>)
      requires Inv(flying)
      ensures BookOk(bids, asks) && StopsOk(stops) && tid >= |trades|
    {
    }

    // What a call leaves alone apart from the book.
    twostate predicate OnlyTrades()
      reads this
    {
      && stops == old(stops) && delivered == old(delivered) && lastPx == old(lastPx)
      && old(trades) <= trades && made == old(made) + trades[|old(trades)|..]
    }

    constructor ()
      ensures Inv(multiset{}) && bids == [] && asks == [] && stops == [] && delivered == [] && made == []
    {
      bids, asks, idx, stops, trades, now, tid, lastPx := [], [], {}, [], [], 0, 1, 0;
      ordersMade, ordersFreed, levelsMade, levelsFreed := 0, 0, 0, 0;
      delivered, made := [], [];
    }

    // Matches against the other side of the book.
    method MatchOrd(o: Order, ghost flying: multiset<nat>) returns (r: Order)
      requires Inv(flying) && TakerOk(o) && o.status != Cancelled
      modifies this
      ensures Inv(flying) && OnlyTrades() && SameTaker(o, r)
      ensures r.status == Cancelled || r.remaining == 0 || NoCross(r, Contra(r.side))
      ensures (r, Snap()) == Met(o, old(Snap()))
      ensures o.remaining <= PreChecks.Avail(o, old(Contra(o.side))) ==> r.remaining == 0 || r.status == Cancelled
      ensures 0 < o.minQty <= PreChecks.Avail(o, old(Contra(o.side))) ==>
          r.remaining == 0 || r.status == Cancelled || |trades| > |old(trades)|
    {
      hide IdsIn, Numbered, LastOk, Matched, PreChecks.Avail, BookOk, StopsOk, IndexOk, Priced, LevelsOk, SameTaker,
          TradesFrom, NoCross, Met;
      ghost var s, base := State(o, Contra(o.side), trades, now, []), tid - |trades|;
      MadeCount(made, tid);
      MatchFacts(bids, asks, s, base);
      MetIs(o, Snap(), Matched(s, base));
      IndexHolds(idx, bids, asks, stops, flying);
      ghost var gone;
      r, gone := MatchAgainst(o);
      MadeMore(old(made), old(tid), made, tid, old(trades), trades, Matched(s, base), s, base);
      LeaveIndex(old(idx), idx, gone);
      IndexMatched(old(idx), idx, multiset(gone), old(bids), old(asks), bids, asks, stops, flying);
    }

    // ---- resting, leaving ----

    // An order leaves the index, and its memory with it.
    method Erase(id: nat, ghost flying: multiset<nat>)
      requires Inv(flying + multiset{id})
      modifies `idx, `ordersFreed
      ensures Inv(flying) && idx == old(idx) - {id}
    {
      IndexErase(idx, bids, asks, stops, flying, id);
      idx := idx - {id};
      ordersFreed := ordersFreed + 1;
    }

    // The order goes to the back of its price on its own side.
    method InsertOrder(o: Order, ghost flying: multiset<nat>) returns (r: Order)
      requires Inv(flying + multiset{o.id}) && o.kind == Limit && o.price > 0 && o.remaining > 0 && o.display >= 0
      requires o.tif != Ioc && o.tif != Fok && o.minQty == 0 && (o.status == New || o.status == PartiallyFilled)
      requires (o.group != 0 ==> o.policy != NoPolicy) && NoCross(o, Contra(o.side))
      modifies `bids, `asks, `levelsMade
      ensures Inv(flying) && r == o.(visible := Shown(o.display, o.remaining))
      ensures Contra(Other(o.side)) == Insert(Other(o.side), old(Contra(Other(o.side))), r)
      ensures JoinsBack(old(Contra(Other(o.side))), Contra(Other(o.side)), r)
      ensures Contra(o.side) == old(Contra(o.side))
      ensures Snap() == Rest(o, old(Snap()))
    {
      hide IdsIn, Numbered, LastOk, Insert, BookOk, StopsOk, IndexOk, Priced, HasPrice, JoinsBack, LevelsOk;
      r := o.(visible := Shown(o.display, o.remaining));
      var side := Other(o.side);
      var ls := Contra(side);
      BookInserted(bids, asks, r);
      SideOk(bids, asks, side);
      InsertJoins(side, ls, r);
      if !HasPrice(ls, r.price) { levelsMade := levelsMade + 1; }
      SetContra(side, Insert(side, ls, r));
      IndexInsert(idx, old(bids), old(asks), bids, asks, stops, flying, o.id);
    }

    // What becomes of an order that has been matched and not cancelled.
    method Dispose(o: Order, hasTrades: bool, ghost flying: multiset<nat>) returns (r: Order, ghost rested: bool)
      requires Inv(flying + multiset{o.id}) && o.status != Cancelled && o.remaining >= 0
      requires o.tif == Fok ==> o.remaining == 0
      requires (o.kind == Limit || o.kind == Market) && (o.kind == Limit ==> o.price > 0)
      requires o.display >= 0 && (o.group != 0 ==> o.policy != NoPolicy)
      requires o.remaining > 0 ==> NoCross(o, Contra(o.side)) && o.minQty == 0
      modifies `bids, `asks, `levelsMade
      ensures Inv(if rested then flying else flying + multiset{o.id}) && r.id == o.id
      ensures rested <==> o.remaining > 0 && o.kind == Limit && o.tif != Ioc
      ensures r.status == if o.remaining == 0 then Filled else if !rested then Cancelled
          else if hasTrades then PartiallyFilled else New
      ensures rested ==>
          Contra(Other(o.side)) == Insert(Other(o.side), old(Contra(Other(o.side))), r)
          && r == o.(visible := Shown(o.display, o.remaining), status := r.status)
      ensures !rested ==> bids == old(bids) && asks == old(asks)
      ensures Snap() == Disposed(o, hasTrades, old(Snap()))
    {
      r, rested := o, false;
      if o.remaining == 0 { return o.(status := Filled), false; }
      match o.tif {
        case Ioc => return o.(status := Cancelled), false;
        case Fok => assert false;
        case _ =>
          if o.kind == Market { return o.(status := Cancelled), false; }
          r := InsertOrder(o.(status := if hasTrades then PartiallyFilled else New), flying);
          rested := true;
      }
    }

    // ---- the cascade ----

    // Whether a level on the other side would be crossed.
    function WouldCross(o: Order): bool
      reads `bids, `asks
    {
      if o.side == Buy then asks != [] && o.price >= asks[0].price else bids != [] && o.price <= bids[0].price
    }

    method FokCheck(o: Order) returns (ok: bool)
      requires BookOk(bids, asks) && o.quantity > 0
      ensures ok <==> PreChecks.Avail(o, Contra(o.side)) >= o.quantity
    {
      var avail := PreChecks.AvailQty(o, Contra(o.side), o.quantity);
      ok := avail >= o.quantity;
    }

    method MinQtyCheck(o: Order) returns (ok: bool)
      requires BookOk(bids, asks) && o.minQty > 0
      ensures ok <==> PreChecks.Avail(o, Contra(o.side)) >= o.minQty
    {
      var avail := PreChecks.AvailQty(o, Contra(o.side), o.minQty);
      ok := avail >= o.minQty;
    }

    // Matching and disposal of an order that has passed its checks.
    method Execute(o: Order, ghost others: multiset<nat>) returns (r: Order, ghost rested: bool)
      requires Inv(others + multiset{o.id}) && ActiveOk(o) && !o.postOnly
      requires o.tif == Fok ==> o.quantity <= PreChecks.Avail(o, Contra(o.side))
      requires o.minQty > 0 ==> o.minQty <= PreChecks.Avail(o, Contra(o.side))
      modifies this
      ensures Inv(if rested then others else others + multiset{o.id}) && OnlyTrades() && r.id == o.id
      ensures rested <==> !(r.status == Filled || r.status == Cancelled)
      ensures Snap() == Carried(o, old(Snap()))
    {
      hide BookOk, StopsOk, IndexOk, Numbered, LastOk, PreChecks.Avail, Met, Insert, Disposed;
      ghost var flying := others + multiset{o.id};
      var ts := |trades|;
      var price := o.price;
      r := MatchOrd(o, flying);
      var hasTrades := |trades| > ts;
      rested := false;
      if o.kind == MarketToLimit {
        if !hasTrades { return r.(status := Cancelled), false; }
        r := r.(price := trades[ts].price, kind := Limit, minQty := 0);
        if r.remaining > 0 && r.status != Cancelled {
          ghost var t1 := trades;
          r := MatchOrd(r, flying);
        }
        DisposedNone(r, true, Snap());
        if r.status != Cancelled { r, rested := Dispose(r, true, others); }
      } else {
        if r.minQty > 0 && hasTrades { r := r.(minQty := 0); }
        DisposedNone(r, hasTrades, Snap());
        if r.status != Cancelled { r, rested := Dispose(r, hasTrades, others); }
      }
    }

    // One stop that fires moves to the triggered ones, and the last stop takes its place.
    method TakeOne(i: nat, trig0: seq<Order>, ghost flying: multiset<nat>) returns (trig: seq<Order>)
      requires i < |stops| && StopsOk(stops) && IndexOk(idx, bids, asks, stops, flying + IdsOf(trig0))
      modifies `stops
      ensures trig == trig0 + [old(stops)[i]] && stops == SwapOut(old(stops), i)
      ensures multiset(stops) + multiset(trig) == multiset(old(stops)) + multiset(trig0)
      ensures StopsOk(stops) && IndexOk(idx, bids, asks, stops, flying + IdsOf(trig))
    {
      hide IdsIn, IdsOf, StopOk;
      var s := stops[i];
      SwapOutIds(stops, i);
      SwapOutAt(stops, i);
      SwapOutAll(stops, i);
      IdsMore(trig0, s);
      trig := trig0 + [s];
      stops := stops[i := stops[|stops| - 1]][..|stops| - 1];
    }

    // The stops that fire at this price are taken out, earliest first.
    method TakeFired(px: int, ghost flying: multiset<nat>) returns (trig: seq<Order>)
      requires Inv(flying)
      modifies `stops
      ensures Inv(flying + IdsOf(trig)) && |trig| + |stops| == |old(stops)| && TimeSorted(trig)
      ensures forall i {:trigger trig[i]} :: 0 <= i < |trig| ==>
          StopOk(trig[i]) && Fires(trig[i], px) && trig[i] in old(stops)
      ensures Fewer(old(stops), stops) && NoneFires(stops, px)
      ensures multiset(old(stops)) == multiset(stops) + multiset(trig)
      ensures trig == ByTime(Taken(old(stops), 0, px)) && stops == Left(old(stops), 0, px)
    {
      hide BookOk, Numbered, LastOk, IdsIn, IdsOf, StopOk, Fires, SwapOut, Taken, Left, ByTime, NoneFires, Fewer,
          TimeSorted;
      ghost var all := Taken(stops, 0, px);
      assert [] + all == all;
      trig := [];
      var i := 0;
      NoIds();
      assert flying + multiset{} == flying;
      while i < |stops|
        invariant 0 <= i <= |stops| && |trig| + |stops| == |old(stops)| && StopsOk(stops)
        invariant IndexOk(idx, bids, asks, stops, flying + IdsOf(trig))
        invariant all == trig + Taken(stops, i, px)
        invariant Left(old(stops), 0, px) == Left(stops, i, px)
        decreases |stops| - i
      {
        ScanStep(stops, i, px);
        if Fires(stops[i], px) {
          ghost var rest := Taken(SwapOut(stops, i), i, px);
          assert trig + ([stops[i]] + rest) == (trig + [stops[i]]) + rest;
          SwapOutAt(stops, i);
          trig := TakeOne(i, trig, flying);
        } else {
          i := i + 1;
        }
      }
      ScanStep(stops, i, px);
      assert trig + [] == trig;
      ScanDone(old(stops), px);
      ByTimeIs(trig);
      trig := ByTime(trig);
    }

    method Deliver(t: Trade, ghost flying: multiset<nat>)
      requires Inv(flying)
      modifies `delivered, `lastPx
      ensures Inv(flying) && delivered == old(delivered) + [t]
    {
      hide BookOk, StopsOk, IndexOk, Numbered, Priced;
      delivered := delivered + [t];
      lastPx := t.price;
    }

    // Delivers one trade, and lets it set off the stops it fires.
    method Tell(i: nat, depth: nat, ghost flying: multiset<nat>) returns (ghost fired: seq<Order>)
      requires Inv(flying) && i < |trades| && depth <= MAX_CASCADE
      modifies this
      ensures Inv(flying) && More(old(trades), trades, old(made), made) && old(trades) <= trades
      ensures Told(old(delivered) + [old(trades)[i]], delivered, trades[|old(trades)|..])
      ensures Fewer(old(stops), stops)
      ensures depth < MAX_CASCADE ==> NoneFires(stops, old(trades)[i].price)
      ensures Loosed(old(Snap()), old(stops), fired, Snap(), stops)
      ensures QuietBelow(depth, |old(stops)|, stops, [old(trades)[i]] + trades[|old(trades)|..])
      ensures Fallout(Snap(), stops, fired, Since(old(delivered) + [old(trades)[i]], delivered)) ==
          TurnOf(old(trades)[i].price, depth, old(Snap()), old(stops))
      decreases MAX_CASCADE - depth, 1
    {
      hide Inv, More, Told, Fires, Loosed, Fewer, Turn;
      fired := [];
      LoosedNone(Snap(), stops);
      NoneQuiet(stops);
      assert trades[|trades|..] == [];
      Deliver(trades[i], flying);
      ToldNone(delivered);
      MoreNone(trades, made);
      ghost var m := made;
      if depth < MAX_CASCADE {
        fired := EvalStops(trades[i].price, depth, flying, i);
        MoreGrows(old(trades), trades, m, made);
        if depth + |old(stops)| <= MAX_CASCADE { QuietFirst(stops, old(trades)[i], trades[|old(trades)|..]); }
      }
      MoreGrows(old(trades), trades, m, made);
    }

    // Delivers the trades from `start` on, and lets each set off the stops it fires.
    method EmitAndTrigger(start: nat, depth: nat, ghost flying: multiset<nat>) returns (ghost fired: seq<Order>)
      requires Inv(flying) && start <= |trades| && depth <= MAX_CASCADE
      modifies this
      ensures Inv(flying) && More(old(trades), trades, old(made), made)
      ensures Told(old(delivered), delivered, trades[start..])
      ensures Fewer(old(stops), stops) && (depth < MAX_CASCADE ==> Quiet(stops, old(trades)[start..]))
      ensures Loosed(old(Snap()), old(stops), fired, Snap(), stops)
      ensures QuietBelow(depth, |old(stops)|, stops, trades[start..])
      ensures Fallout(Snap(), stops, fired, Since(old(delivered), delivered)) ==
          Cascade(old(trades)[start..], depth, old(Snap()), old(stops))
      decreases MAX_CASCADE - depth, 2
    {
      hide Inv, More, Told, Quiet, QuietBelow, Fires, Loosed, Fewer, Telling, Turn, Cascade;
      fired := [];
      var end := |trades|;
      var i := start;
      ghost var m0 := This();
      TellingNone(m0, start, depth);
      while i < end
        invariant start <= i <= end <= |trades| && Inv(flying)
        invariant Telling(m0, This(), start, i, depth, fired)
      {
        ghost var m := This();
        ghost var more := Tell(i, depth, flying);
        TellingMore(m0, m, This(), start, i, depth, fired, more);
        fired := fired + more;
        i := i + 1;
      }
      TellingAll(m0, This(), start, depth, fired);
    }

    // Lets the stops that fire at this price loose, one after the other.
    method EvalStops(px: int, depth: nat, ghost flying: multiset<nat>, ghost at: nat)
      returns (ghost fired: seq<Order>)
      requires Inv(flying) && depth < MAX_CASCADE && at < |trades| && trades[at].price == px
      modifies this
      ensures Inv(flying) && More(old(trades), trades, old(made), made)
      ensures Told(old(delivered), delivered, trades[|old(trades)|..])
      ensures Fewer(old(stops), stops) && NoneFires(stops, px)
      ensures Loosed(old(Snap()), old(stops), fired, Snap(), stops)
      ensures Fallout(Snap(), stops, fired, Since(old(delivered), delivered)) ==
          Turn(px, depth, old(Snap()), old(stops))
      ensures AllServed(old(Snap()), fired)
      ensures QuietBelow(depth, |old(stops)|, stops, trades[|old(trades)|..])
      decreases MAX_CASCADE - depth, 0
    {
      hide Inv, IdsOf, StopOk, ActiveOk, Quiet, Loosed, Loosing, Arrive, Released, Fires, More, Told,
          Fewer, Cascade, Turn, QuietBelow, Loosening, Taken, Left, ByTime, BookOk, StopsOk, AllServed;
      fired := [];
      ghost var m0 := This();
      LooseningNone(m0, px, depth);
      InvParts(flying);
      NoneServed(m0.p);
      if stops == [] { return; }
      var trig := TakeFired(px, flying);
      var i := 0;
      assert trig[0..] == trig;
      LooseningStart(m0, This(), trig, px, depth);
      while i < |trig|
        invariant 0 <= i <= |trig| && Inv(flying + IdsOf(trig[i..]))
        invariant old(trades) <= trades && Loosening(m0, This(), trig, i, px, depth, fired)
      {
        ghost var m := This();
        ReleasedOk(trig[i]);
        NextFlying(flying, trig, i);
        ghost var own, more := ProcessActive(Released(trig[i]), depth + 1, flying + IdsOf(trig[i + 1..]));
        LooseningMore(m0, m, This(), trig, i, px, depth, fired, own, more, at);
        fired := fired + ([trig[i]] + more);
        i := i + 1;
      }
      NoIds();
      assert trig[|trig|..] == [] && flying + multiset{} == flying;
      LooseningAll(m0, This(), trig, px, depth, fired);
      FiredOk(m0.p, m0.stops, fired, This().p, stops);
      FiredServed(m0.p, fired);
    }

    // Post-only orders and failed checks end here; `done` if so.
    method Screen(o: Order, ghost others: multiset<nat>) returns (done: bool)
      requires Inv(others + multiset{o.id}) && ActiveOk(o)
      modifies `bids, `asks, `levelsMade, `idx, `ordersFreed
      ensures done ==> Inv(others) && Snap() == Arrive(o, old(Snap())) && trades == old(trades)
      ensures !done ==>
          Inv(others + multiset{o.id}) && Snap() == old(Snap()) && !o.postOnly
          && Arrive(o, Snap()) == Carried(o, Snap())
      ensures !done && o.tif == Fok ==> o.quantity <= PreChecks.Avail(o, Contra(o.side))
      ensures !done && o.minQty > 0 ==> o.minQty <= PreChecks.Avail(o, Contra(o.side))
    {
      hide StopsOk, IndexOk, Numbered, LastOk, IdsOf, PreChecks.Avail, Carried, Rest;
      done := true;
      if o.postOnly {
        if WouldCross(o) {
          Erase(o.id, others);
        } else {
          var posted := InsertOrder(o.(status := New), others);
        }
        return;
      }
      if o.tif == Fok {
        var ok := FokCheck(o);
        if !ok { Erase(o.id, others); return; }
      }
      if o.minQty > 0 {
        var ok := MinQtyCheck(o);
        if !ok { Erase(o.id, others); return; }
      }
      done := false;
    }

    // The pipeline of one order that is not a stop: post-only, pre-checks, matching, disposal, cascade.
    method ProcessActive(o: Order, depth: nat, ghost others: multiset<nat>)
      returns (ghost own: seq<Trade>, ghost fired: seq<Order>)
      requires Inv(others + multiset{o.id}) && ActiveOk(o) && depth <= MAX_CASCADE
      modifies this
      ensures Inv(others) && More(old(trades), trades, old(made), made)
      ensures Told(old(delivered), delivered, trades[|old(trades)|..])
      ensures old(trades) + own <= trades && Fewer(old(stops), stops)
      ensures (depth < MAX_CASCADE ==> Quiet(stops, own))
      ensures Arrive(o, old(Snap())).trades == old(trades) + own
      ensures Loosed(Arrive(o, old(Snap())), old(stops), fired, Snap(), stops)
      ensures Fallout(Snap(), stops, fired, Since(old(delivered), delivered)) ==
          Cascade(own, depth, Arrive(o, old(Snap())), old(stops))
      ensures ToldInTurn(own, Since(old(delivered), delivered))
      ensures OrderServed(o, old(Snap()), Arrive(o, old(Snap()))) && AllServed(Arrive(o, old(Snap())), fired)
      ensures QuietBelow(depth, |old(stops)|, stops, trades[|old(trades)|..])
      decreases MAX_CASCADE - depth, 3
    {
      hide StopsOk, IndexOk, Numbered, LastOk, IdsOf, PreChecks.Avail, Quiet, Loosed, Arrive, Carried,
          ActiveOk, BookOk, Cascade, OrderServed, AllServed, ToldInTurn;
      own, fired := [], [];
      ghost var p0 := Snap();
      InvParts(others + multiset{o.id});
      OrderArrives(o, p0);
      NoneServed(Arrive(o, p0));
      CascadeInTurn([], depth, p0, stops);
      CascadeNone(depth, p0, stops);
      LoosedNone(Arrive(o, Snap()), stops);
      CascadeNone(depth, Arrive(o, Snap()), stops);
      NoneQuiet(stops);
      assert old(trades) + own == old(trades);
      MoreNone(trades, made);
      ToldNone(delivered);
      assert trades[|trades|..] == [];
      var done := Screen(o, others);
      if done { return; }
      var ts := |trades|;
      var r;
      ghost var rested;
      r, rested := Execute(o, others);
      ghost var t, m := trades, made;
      own := trades[ts..];
      assert old(trades) + own == trades;
      fired := EmitAndTrigger(ts, depth, if rested then others else others + multiset{o.id});
      LoosedServed(o, p0, old(stops), fired, Snap(), stops);
      CascadeInTurn(own, depth, Arrive(o, p0), old(stops));
      MoreOn(old(trades), t, trades, old(made), m, made);
      if o.id !in idx { InFlight(idx, bids, asks, stops, others, o.id); return; }
      if r.status == Filled || r.status == Cancelled { Erase(o.id, others); }
    }

    // ---- calls from outside ----

    // Between calls nothing is in flight, and every trade ever made has been delivered, each once.
    ghost predicate Idle()
      reads this
    {
      Inv(multiset{}) && multiset(delivered) == multiset(made)
    }

    // The number of trades told of is the number made.
    lemma TradeCount()
      requires Idle()
      ensures |delivered| == |made| == tid - 1
      ensures lastPx == if delivered == [] then 0 else delivered[|delivered| - 1].price
    {
      assert |multiset(delivered)| == |multiset(made)|;
    }

    function TriggersNow(o: Order): bool
      reads `lastPx
    {
      lastPx != 0 && Fires(o, lastPx)
    }

    // A stop waits unless its price has been reached; anything else is processed at once.
    method Process(o: Order) returns (ghost own: seq<Trade>, ghost fired: seq<Order>)
      requires Inv(multiset{o.id}) && trades == [] && multiset(delivered) == multiset(made)
      requires if o.kind == StopLimit || o.kind == StopMarket then StopOk(o) else ActiveOk(o)
      modifies this
      ensures Idle() && own <= trades && Quiet(stops, own)
      ensures Handled(o, old(lastPx), old(Snap()), old(stops), own, fired, Since(old(delivered), delivered),
          Snap(), stops)
      ensures QuietBelow(0, |old(stops)|, stops, trades) && Told(old(delivered), delivered, trades)
    {
      hide BookOk, IndexOk, Numbered, LastOk, StopOk, ActiveOk, Quiet, Told, Fewer, Loosed, Arrive,
          Cascade;
      own, fired := [], [];
      assert trades[|own|..] == [];
      ToldNone(delivered);
      NoneFlying(o.id);
      if o.kind == StopLimit || o.kind == StopMarket {
        if TriggersNow(o) {
          ReleasedOk(o);
          own, fired := ProcessActive(Released(o), 0, multiset{});
          assert [] + own == own;
        } else {
          IndexStop(idx, bids, asks, stops, o);
          stops := stops + [o];
          NoneQuiet(stops);
        }
      } else {
        own, fired := ProcessActive(o, 0, multiset{});
        assert [] + own == own;
      }
      assert trades[0..] == trades;
      AllTold(old(delivered), delivered, old(made), made, trades);
    }

    // Submits an order: refused for its id or for the first rule it breaks, or else it waits as a stop or arrives
    // from the book before the call to q, and its trades `own` set off the stops in `fired`.
    method SubmitOrder(x: Input)
      returns (refusal: string, ghost q: Snapshot, ghost own: seq<Trade>, ghost fired: seq<Order>)
      requires Idle()
      modifies this
      ensures Idle()
      ensures refusal == if x.id in old(idx) then "DUPLICATE_ORDER_ID"
          else Refusal(NewOrder(x, old(now) + 1), old(now) + 1)
      ensures refusal == "" <==> x.id !in old(idx) && WellFormed(x, old(now) + 1)
      ensures refusal != "" ==>
          && bids == old(bids) && asks == old(asks) && idx == old(idx) && stops == old(stops) && made == old(made)
          && delivered == old(delivered)
      ensures refusal == "" ==>
        Submitted(x, old(now) + 1, old(lastPx), Snapshot(old(bids), old(asks), [], old(now) + 1, old(tid)),
            old(stops), q, own, fired, Since(old(delivered), delivered), Snap(), stops)
      ensures refusal == "" ==>
          OthersOnly(old(stops), own, trades, x.id) && Told(old(delivered), delivered, trades) && Quiet(stops, own)
      ensures refusal == "" && |old(stops)| <= 10 ==> Quiet(stops, trades)
    {
      hide BookOk, Numbered, LastOk, Refusal, IdsIn, IdsOf, ActiveOk, StopOk, Quiet, Handled, Submitted, OthersOnly,
          Arrive,
          Arriving, StopsOk, IndexOk,
          WellFormed, Told;
      q, own, fired := Snap(), [], [];
      InvParts(multiset{});
      if x.id in idx { return "DUPLICATE_ORDER_ID", q, own, fired; }
      ordersMade := ordersMade + 1;
      now := now + 1;
      var o := NewOrder(x, now);
      refusal := Refusal(o, now);
      ghost var k := RefusalFirst(x, now);
      if refusal != "" {
        ordersFreed := ordersFreed + 1;
        return;
      }
      AdmittedOk(x, now);
      IndexAdd(idx, bids, asks, stops, o.id);
      idx := idx + {o.id};
      trades := [];
      ghost var p0 := Snap();
      own, fired := Process(o);
      q := Arrive(Arriving(o), p0);
      HandledServed(x, p0.now, old(lastPx), p0, old(stops), own, fired, Since(old(delivered), delivered), Snap(),
          stops);
      SubmittedTrades(old(idx), old(bids), old(asks), x, p0.now, old(lastPx), p0, old(stops), q, own, fired,
        Since(old(delivered), delivered), Snap(), stops);
    }

    // Takes an order off its level, and the level off its side if it was the last.
    method TakeOff(side: Side, id: nat, ghost flying: multiset<nat>) returns (o: Order)
      requires Inv(flying) && OnSide(Contra(Other(side)), id)
      modifies `bids, `asks, `levelsFreed
      ensures Inv(flying + multiset{id}) && o == Get(old(Contra(Other(side))), id) && o.id == id && Settled(side, o)
      ensures IcebergOk(o)
      ensures Contra(Other(side)) == Remove(old(Contra(Other(side))), id) && Contra(side) == old(Contra(side))
      ensures TakenOut(o, old(Contra(Other(side))), Contra(Other(side)))
    {
      hide LevelsOk, TakenOut, BookOk, Numbered, LastOk, IdsIn, IdsOf, Settled, StopsOk, Priced, IndexOk, Remove,
          IcebergOk;
      var ls := Contra(Other(side));
      BookRemove(bids, asks, side, id);
      SideOk(bids, asks, Other(side));
      RemoveTakes(Other(side), ls, id);
      o := Get(ls, id);
      SetContra(Other(side), Remove(ls, id));
      levelsFreed := levelsFreed + (|ls| - |Remove(ls, id)|);
      IndexTake(idx, old(bids), old(asks), bids, asks, stops, flying, id);
    }

    // The indexed order of this id, wherever it is.
    function Lookup(id: nat): Order
      requires OnSide(bids, id) || OnSide(asks, id) || Among(stops, id)
      reads `bids, `asks, `stops
    {
      if OnSide(bids, id) then Get(bids, id) else if OnSide(asks, id) then Get(asks, id) else Pick(stops, id)
    }

    // Every indexed order is on the book or pending, and open: new or partially filled.
    lemma {:induction false} Indexed(id: nat)
      requires Inv(multiset{}) && id in idx
      ensures (OnSide(bids, id) || OnSide(asks, id) || Among(stops, id)) && !(OnSide(bids, id) && OnSide(asks, id))
      ensures Lookup(id).id == id && Lookup(id).status in {New, PartiallyFilled}
    {
      hide Numbered, LastOk, IdsIn, IdsOf, Priced, Remove;
      OnSideIds(bids, id);
      OnSideIds(asks, id);
      AmongIds(stops, id);
      IndexOne(idx, bids, asks, stops, id);
      if OnSide(bids, id) {
        BookRemove(bids, asks, Buy, id);
      } else if OnSide(asks, id) {
        BookRemove(bids, asks, Sell, id);
      }
    }

    // Cancels a resting order or a pending stop.
    method CancelOrder(id: nat) returns (ok: bool)
      requires Idle()
      modifies this
      ensures Idle() && (ok <==> id in old(idx)) && idx == old(idx) - {id}
      ensures delivered == old(delivered) && made == old(made) && now == old(now)
      ensures if ok && !OnSide(old(bids), id) && !OnSide(old(asks), id) then Withdrawn(old(stops), id, stops)
          else stops == old(stops)
      ensures if ok && OnSide(old(bids), id) then TakenOut(Get(old(bids), id), old(bids), bids) else bids == old(bids)
      ensures if ok && OnSide(old(asks), id) then TakenOut(Get(old(asks), id), old(asks), asks) else asks == old(asks)
      ensures !OnSide(bids, id) && !OnSide(asks, id)
    {
      hide BookOk, Numbered, LastOk, IdsIn, IdsOf, StopsOk, Remove, Priced, IndexOk, Lookup, Withdrawn, TakenOut, Get;
      if id !in idx { assert idx == idx - {id}; IndexOut(idx, bids, asks, stops, id); return false; }
      Indexed(id);
      if Lookup(id).status != New && Lookup(id).status != PartiallyFilled { assert false; }
      NoneFlying(id);
      if OnSide(bids, id) {
        var o := TakeOff(Buy, id, multiset{});
      } else if OnSide(asks, id) {
        var o := TakeOff(Sell, id, multiset{});
      } else {
        RemoveStop(id);
      }
      Erase(id, multiset{});
      IndexOut(idx, bids, asks, stops, id);
      ok := true;
    }

    // A pending stop goes, and the last one takes its place.
    method RemoveStop(id: nat)
      requires Inv(multiset{}) && Among(stops, id)
      modifies `stops
      ensures Inv(multiset{id}) && Withdrawn(old(stops), id, stops)
    {
      hide BookOk, Numbered, LastOk, IdsIn, IdsOf, StopOk, SwapOut;
      var i := 0;
      AmongAt(stops, id);
      while stops[i].id != id
        invariant 0 <= i < |stops| && forall j {:trigger stops[j]} :: 0 <= j < i ==> stops[j].id != id
        decreases |stops| - i
      {
        i := i + 1;
      }
      SwapOutIds(stops, i);
      SwapOutAt(stops, i);
      stops := SwapOut(stops, i);
    }

    // An order that is in flight arrives, outside any cascade.
    method ArriveAgain(o: Order) returns (ghost fired: seq<Order>)
      requires Inv(multiset{o.id}) && ActiveOk(o) && trades == [] && multiset(delivered) == multiset(made)
      modifies this
      ensures Idle() && Told(old(delivered), delivered, trades)
      ensures var q := Arrive(o, old(Snap()));
          Followed(q, q.trades, old(stops), fired, Since(old(delivered), delivered), Snap(), stops)
    {
      hide BookOk, Numbered, LastOk, IdsIn, IdsOf, StopsOk, IndexOk, ActiveOk, Loosed, Arrive, Cascade, Quiet, Told;
      NoneFlying(o.id);
      ghost var own;
      own, fired := ProcessActive(o, 0, multiset{});
      assert [] + own == own && trades[0..] == trades;
      AllTold(old(delivered), delivered, old(made), made, trades);
    }

    // A resting order leaves its place, and the book at p, and arrives anew, leaving q.
    method Requeue(side: Side, id: nat, newPx: int, newQty: int)
      returns (ghost p: Snapshot, ghost q: Snapshot, ghost fired: seq<Order>)
      requires Idle() && OnSide(Contra(Other(side)), id)
      requires Requeues(Get(Contra(Other(side)), id), newPx, newQty)
      modifies this
      ensures Idle() && Told(old(delivered), delivered, trades)
      ensures Get(old(Contra(Other(side))), id).side == side
      ensures Amended(Get(old(Contra(Other(side))), id), newPx, newQty, old(Snap()), old(stops), p, q, fired,
          Since(old(delivered), delivered), Snap(), stops)
    {
      hide BookOk, Numbered, LastOk, IdsIn, IdsOf, StopOk, Remove, Priced, IndexOk, StopsOk, Loosed, Arrive, Cascade,
          Followed, Told, TakenOut, CutTo, ArrivesAnew, AllServed, Get, IcebergOk, ActiveOk;
      ghost var o0, s0 := Get(Contra(Other(side)), id), stops;
      var o := TakeOff(side, id, multiset{});
      if newPx > 0 { o := o.(price := newPx); }
      if newQty > 0 { o := o.(remaining := newQty); }
      now := now + 1;
      o := o.(timestamp := now, visible := Shown(o.display, o.remaining));
      trades := [];
      NonePriced();
      NoneFlying(id);
      p := Snap();
      InvParts(multiset{id});
      RequeuedServed(o0, newPx, newQty, now, p);
      q := Arrive(o, p);
      fired := ArriveAgain(o);
      FollowedLoosed(q, q.trades, s0, fired, Since(old(delivered), delivered), Snap(), stops);
      LoosedServed(o, p, s0, fired, Snap(), stops);
    }

    // Amends a resting order: less quantity keeps its place; a new price or more quantity is a new arrival.
    method AmendOrder(id: nat, newPx: int, newQty: int)
      returns (ok: bool, ghost p: Snapshot, ghost q: Snapshot, ghost fired: seq<Order>)
      requires Idle()
      modifies this
      ensures Idle() && (ok <==> OnSide(old(bids), id) || OnSide(old(asks), id))
      ensures !ok ==> Snap() == old(Snap()) && stops == old(stops) && delivered == old(delivered)
      ensures ok ==> var o := Get(if OnSide(old(bids), id) then old(bids) else old(asks), id);
        && o.id == id && o.side == (if OnSide(old(bids), id) then Buy else Sell)
        && Amended(o, newPx, newQty, old(Snap()), old(stops), p, q, fired, Since(old(delivered), delivered), Snap(),
            stops)
      ensures delivered == old(delivered) || Told(old(delivered), delivered, trades)
    {
      hide BookOk, Numbered, LastOk, IdsIn, IdsOf, StopOk, Remove, Priced, IndexOk, StopsOk, Told, Followed, Arrive,
          TakenOut, ArrivesAnew, AllServed, CutTo, Get, RewriteIn, Lookup;
      p, q, fired := Snap(), Snap(), [];
      if id !in idx { IndexOut(idx, bids, asks, stops, id); return false, p, q, fired; }
      Indexed(id);
      if Lookup(id).status != New && Lookup(id).status != PartiallyFilled { assert false; }
      if !OnSide(bids, id) && !OnSide(asks, id) { return false, p, q, fired; }
      ok := true;
      NoneFlying(id);
      SinceOn(delivered, delivered, delivered);
      var side := if OnSide(bids, id) then Buy else Sell;
      var o := Get(Contra(Other(side)), id);
      var pxChg := newPx > 0 && newPx != o.price;
      var qtyUp := newQty > 0 && newQty > o.remaining;
      var qtyDn := newQty > 0 && newQty < o.remaining;
      BookRemove(bids, asks, side, id);
      if qtyDn && !pxChg {
        Lessen(side, id, newQty);
      } else if pxChg || qtyUp {
        p, q, fired := Requeue(side, id, newPx, newQty);
      }
    }

    // Less of a resting order remains, and no more than that is shown.
    method Lessen(side: Side, id: nat, newQty: int)
      requires Idle() && OnSide(Contra(Other(side)), id) && 0 < newQty < Get(Contra(Other(side)), id).remaining
      modifies `bids, `asks
      ensures Idle() && Contra(side) == old(Contra(side))
      ensures CutTo(Get(old(Contra(Other(side))), id), newQty, old(Contra(Other(side))), Contra(Other(side)))
    {
      hide BookOk, Numbered, LastOk, IdsIn, IdsOf, StopOk, Priced, IndexOk, StopsOk, CutTo, Get, RewriteIn, LevelsOk;
      var o := Get(Contra(Other(side)), id);
      BookRemove(bids, asks, side, id);
      var less := o.(remaining := newQty, visible := Min(o.visible, newQty));
      SideOk(bids, asks, Other(side));
      RewriteCuts(Other(side), Contra(Other(side)), id, less, newQty);
      BookRewrite(bids, asks, less);
      IndexSame(idx, bids, asks, RewriteIn(Contra(Other(side)), less), stops, side);
      SetContra(Other(side), RewriteIn(Contra(Other(side)), less));
    }

    // The resting orders whose time has come.
    ghost function Due(t: nat): multiset<nat>
      reads `bids, `asks
    {
      multiset(ExpiredIn(bids, t)) + multiset(ExpiredIn(asks, t))
    }

    // One expired resting order leaves.
    method ExpireOne(id: nat, t: nat)
      requires Inv(multiset{}) && id in Due(t)
      modifies `bids, `asks, `levelsFreed, `idx, `ordersFreed
      ensures Inv(multiset{}) && multiset(idx) + multiset{id} == multiset(old(idx))
      ensures old(Due(t)) == Due(t) + multiset{id}
      ensures LiveIn(bids, t) == LiveIn(old(bids), t) && LiveIn(asks, t) == LiveIn(old(asks), t)
    {
      hide BookOk, Numbered, LastOk, IdsIn, IdsOf, Remove, Priced, StopsOk, ExpiredIn, LiveIn, IndexOk;
      NoneFlying(id);
      ExpiredPlace(idx, bids, asks, stops, t, id);
      var o;
      if OnSide(bids, id) {
        RemoveExpired(bids, t, id);
        RemoveLive(bids, t, id);
        o := TakeOff(Buy, id, multiset{});
      } else {
        RemoveExpired(asks, t, id);
        RemoveLive(asks, t, id);
        o := TakeOff(Sell, id, multiset{});
      }
      Erase(id, multiset{});
    }

    // One stop leaves, and the last stop takes its place.
    method ExpireStop(i: nat, t: nat)
      requires Inv(multiset{}) && i < |stops| && Expires(stops[i], t)
      modifies `stops, `idx, `ordersFreed
      ensures Inv(multiset{}) && multiset(idx) + multiset{old(stops)[i].id} == multiset(old(idx))
      ensures stops == SwapOut(old(stops), i)
      ensures multiset(ExpiredOf(old(stops), t)) == multiset(ExpiredOf(stops, t)) + multiset{old(stops)[i].id}
      ensures multiset(LiveOf(stops, t)) == multiset(LiveOf(old(stops), t))
    {
      hide BookOk, Numbered, LastOk, IdsIn, IdsOf, Priced, ExpiredOf, SwapOut, LiveOf;
      var id := stops[i].id;
      NoneFlying(id);
      SwapLive(stops, i, t);
      ExpiredSwap(stops, i, t);
      SwapOutIds(stops, i);
      SwapOutAt(stops, i);
      stops := SwapOut(stops, i);
      Erase(id, multiset{});
    }

    // Every resting order whose time has come leaves.
    method ExpireResting(t: nat)
      requires Inv(multiset{})
      modifies `bids, `asks, `levelsFreed, `idx, `ordersFreed
      ensures Inv(multiset{}) && ExpiredIn(bids, t) == [] && ExpiredIn(asks, t) == []
      ensures multiset(idx) + (multiset(ExpiredIn(old(bids), t)) + multiset(ExpiredIn(old(asks), t))) ==
          multiset(old(idx))
      ensures bids == LiveIn(old(bids), t) && asks == LiveIn(old(asks), t)
    {
      hide Inv, ExpiredIn, LiveIn, Due;
      var exp := ExpiredIn(bids, t) + ExpiredIn(asks, t);
      var k := 0;
      DueIs(t);
      while k < |exp|
        invariant 0 <= k <= |exp| && Inv(multiset{}) && Due(t) == multiset(exp[k..])
        invariant multiset(idx) + multiset(exp[..k]) == multiset(old(idx))
        invariant LiveIn(bids, t) == LiveIn(old(bids), t) && LiveIn(asks, t) == LiveIn(old(asks), t)
      {
        NextDue(exp, k);
        ExpireOne(exp[k], t);
        OneLess(Due(t), multiset(exp[k + 1..]), exp[k]);
        k := k + 1;
      }
      assert exp[k..] == [] && exp[..k] == exp;
      NoneDue(t);
      AllStay(t);
    }

    // Every order and stop whose time has come leaves; the others stay as and where they are,
    // except that pending stops may change places.
    method ExpireOrders(t: nat)
      requires Idle()
      modifies this
      ensures Idle() && delivered == old(delivered) && made == old(made) && lastPx == old(lastPx)
      ensures bids == LiveIn(old(bids), t) && asks == LiveIn(old(asks), t)
      ensures multiset(stops) == multiset(LiveOf(old(stops), t))
      ensures ExpiredIn(bids, t) == [] && ExpiredIn(asks, t) == [] && ExpiredOf(stops, t) == []
      ensures multiset(idx) + multiset(ExpiredIn(old(bids), t)) + multiset(ExpiredIn(old(asks), t))
          + multiset(ExpiredOf(old(stops), t)) == multiset(old(idx))
    {
      hide Inv, ExpiredIn, ExpiredOf, IdsIn, IdsOf, LiveIn, LiveOf;
      ExpireResting(t);
      ExpireStops(t);
    }

    lemma {:induction false} DueIs(t: nat)
      ensures var exp := ExpiredIn(bids, t) + ExpiredIn(asks, t);
          Due(t) == multiset(exp) && exp[0..] == exp && exp[..0] == []
    {
    }

    lemma {:induction false} NoneDue(t: nat)
      requires Due(t) == multiset{}
      ensures ExpiredIn(bids, t) == [] && ExpiredIn(asks, t) == []
    {
      assert |multiset(ExpiredIn(bids, t))| + |multiset(ExpiredIn(asks, t))| == |Due(t)|;
    }

    lemma {:induction false} AllStay(t: nat)
      requires Inv(multiset{}) && ExpiredIn(bids, t) == [] && ExpiredIn(asks, t) == []
      ensures LiveIn(bids, t) == bids && LiveIn(asks, t) == asks
    {
      hide LiveIn, ExpiredIn;
      AllLive(Sell, bids, t);
      AllLive(Buy, asks, t);
    }

    // Every stop whose time has come leaves.
    method ExpireStops(t: nat)
      requires Inv(multiset{})
      modifies `stops, `idx, `ordersFreed
      ensures Inv(multiset{}) && ExpiredOf(stops, t) == [] && multiset(stops) == multiset(LiveOf(old(stops), t))
      ensures multiset(idx) + multiset(ExpiredOf(old(stops), t)) == multiset(old(idx))
    {
      hide Inv, ExpiredOf, SwapOut, LiveOf;
      ghost var gone: seq<nat> := [];
      var i := 0;
      while i < |stops|
        invariant 0 <= i <= |stops| && Inv(multiset{})
        invariant multiset(idx) + multiset(gone) == multiset(old(idx))
        invariant multiset(ExpiredOf(stops, t)) + multiset(gone) == multiset(ExpiredOf(old(stops), t))
        invariant forall j {:trigger stops[j]} :: 0 <= j < i ==> !Expires(stops[j], t)
        invariant multiset(LiveOf(stops, t)) == multiset(LiveOf(old(stops), t))
        decreases |stops| - i
      {
        if Expires(stops[i], t) {
          SwapOutAt(stops, i);
          gone := gone + [stops[i].id];
          ExpireStop(i, t);
        } else {
          i := i + 1;
        }
      }
      NoneExpired(stops, t);
      AllLiveOf(stops, t);
    }
  }
}
