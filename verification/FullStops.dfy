/** What the stops that fire in one call do: each arrives as it was submitted,
    on the book the earlier ones have left. */
module FullStops {
  import opened FullTypes
  import opened FullMatch
  import opened FullLaws
  import opened FullBook
  import opened FullArrival
  import opened FullTerms
  import opened ArrivalLaws
  import PreChecks

  // Each stop is served on its own terms, where those before it have left the book.
  ghost predicate AllServed(q: Snapshot, fired: seq<Order>) {
    forall i {:trigger fired[i]} :: 0 <= i < |fired| ==>
        StopServed(fired[i], Fired(fired[..i], q), Fired(fired[..i + 1], q))
  }

  lemma NoneServed(q: Snapshot)
    ensures AllServed(q, [])
  {
  }

  lemma FiredLast(a: seq<Order>, s: Order, q: Snapshot)
    ensures Fired(a + [s], q) == Arrive(Released(s), Fired(a, q))
  {
    FiredMore(a, [s], q);
    FiredOne(s, [], Fired(a, q));
    assert [s] + [] == [s];
    FiredNone(Arrive(Released(s), Fired(a, q)));
  }

  lemma {:induction false} FiredServed(q: Snapshot, fired: seq<Order>)
    requires BookOk(q.bids, q.asks) && q.tid >= |q.trades|
    requires forall i {:trigger fired[i]} :: 0 <= i < |fired| ==> StopOk(fired[i])
    ensures AllServed(q, fired)
    ensures var r := Fired(fired, q); BookOk(r.bids, r.asks) && r.tid >= |r.trades|
  {
    hide BookOk, StopOk, Arrive, StopServed, Fired;
    if fired == [] {
      FiredNone(q);
    } else {
      var n := |fired| - 1;
      var a, s := fired[..n], fired[n];
      assert fired == a + [s];
      FiredServed(q, a);
      StopArrives(s, Fired(a, q));
      FiredLast(a, s, q);
      ArriveKeeps(Released(s), Fired(a, q));
      forall i | 0 <= i < |fired| ensures StopServed(fired[i], Fired(fired[..i], q), Fired(fired[..i + 1], q)) {
        if i < n {
          assert fired[i] == a[i] && fired[..i] == a[..i] && fired[..i + 1] == a[..i + 1];
        } else {
          assert fired[..i + 1] == fired;
        }
      }
    }
  }

  // ---- the trades of a stop ----

  // A trade of this stop: on its side and, if it is a stop-limit order, within its price.
  predicate TradeOfStop(s: Order, t: Trade) {
    && t.aggressor == s.id && t.side == s.side && t.qty > 0
    && (s.kind == StopLimit && s.side == Buy ==> t.price <= s.price)
    && (s.kind == StopLimit && s.side == Sell ==> t.price >= s.price)
  }

  ghost predicate ByStop(stops: seq<Order>, t: Trade) {
    exists j {:trigger stops[j]} :: 0 <= j < |stops| && TradeOfStop(stops[j], t)
  }

  // What one aggressor has traded.
  function TradedBy(id: nat, ts: seq<Trade>): int {
    if ts == [] then 0 else (if ts[0].aggressor == id then ts[0].qty else 0) + TradedBy(id, ts[1..])
  }

  lemma {:induction false} TradedByAppend(id: nat, a: seq<Trade>, b: seq<Trade>)
    ensures TradedBy(id, a + b) == TradedBy(id, a) + TradedBy(id, b)
  {
    if a == [] {
      assert a + b == b;
    } else {
      assert (a + b)[1..] == a[1..] + b && (a + b)[0] == a[0];
      TradedByAppend(id, a[1..], b);
    }
  }

  lemma {:induction false} TradedByOne(id: nat, who: nat, ts: seq<Trade>)
    requires forall i {:trigger ts[i]} :: 0 <= i < |ts| ==> ts[i].aggressor == who
    ensures TradedBy(id, ts) == if id == who then PreChecks.Traded(ts) else 0
  {
    if ts != [] { TradedByOne(id, who, ts[1..]); }
  }

  // One arrival: its trades are its own, and no more than it was for.
  lemma {:induction false} StopTrades(s: Order, p: Snapshot, q: Snapshot, id: nat)
    requires StopServed(s, p, q) && s.remaining > 0
    ensures p.trades <= q.trades
    ensures forall i {:trigger q.trades[i]} :: |p.trades| <= i < |q.trades| ==> TradeOfStop(s, q.trades[i])
    ensures TradedBy(id, q.trades) <= TradedBy(id, p.trades) + if id == s.id then s.remaining else 0
  {
    var x := Input(s.id, s.side, if s.kind == StopLimit then Limit else Market, s.tif,
      if s.kind == StopLimit then s.price else 0, 0, s.remaining, s.minQty, s.display, s.postOnly, s.expire, s.group,
      s.policy);
    hide MatchedOn, ConditionsMet, PostedOnly, Passes, LevelsOk;
    assert TradesOn(x, p, q);
    forall i | |p.trades| <= i < |q.trades| ensures TradeOfStop(s, q.trades[i]) { assert TradeOn(x, p, q, i); }
    var ts := q.trades[|p.trades|..];
    forall i | 0 <= i < |ts| ensures ts[i].aggressor == s.id { assert ts[i] == q.trades[|p.trades| + i]; }
    assert q.trades == p.trades + ts;
    TradedByAppend(id, p.trades, ts);
    TradedByOne(id, s.id, ts);
    GotBelow(x, s.timestamp, p, q);
  }

  lemma GotBelow(x: Input, at: nat, p: Snapshot, q: Snapshot)
    requires Served(x, at, p, q) && x.quantity > 0
    ensures p.trades <= q.trades && 0 <= Got(p, q) <= x.quantity
  {
    assert p.trades[|p.trades|..] == [];
  }

  // Every trade after the first arrival is one of a stop that fired, and no stop trades more than it was for.
  lemma {:induction false} AllTrades(q: Snapshot, fired: seq<Order>, id: nat, most: int)
    requires AllServed(q, fired) && most >= 0
    requires forall i {:trigger fired[i]} :: 0 <= i < |fired| ==>
        fired[i].remaining > 0 && (fired[i].id == id ==> fired[i].remaining <= most)
    requires forall i, j {:trigger fired[i], fired[j]} :: 0 <= i < j < |fired| ==> fired[i].id != fired[j].id
    ensures var r := Fired(fired, q);
      && q.trades <= r.trades
      && (forall i {:trigger r.trades[i]} :: |q.trades| <= i < |r.trades| ==> ByStop(fired, r.trades[i]))
      && TradedBy(id, r.trades) <= TradedBy(id, q.trades) + most
      && ((forall i {:trigger fired[i]} :: 0 <= i < |fired| ==> fired[i].id != id) ==>
            TradedBy(id, r.trades) <= TradedBy(id, q.trades))
  {
    hide Fired, StopServed;
    if fired == [] {
      FiredNone(q);
    } else {
      var n := |fired| - 1;
      var a, s := fired[..n], fired[n];
      assert AllServed(q, a) by {
        forall i | 0 <= i < n ensures StopServed(a[i], Fired(a[..i], q), Fired(a[..i + 1], q)) {
          assert fired[i] == a[i] && fired[..i] == a[..i] && fired[..i + 1] == a[..i + 1];
        }
      }
      AllTrades(q, a, id, most);
      var p, r := Fired(a, q), Fired(fired, q);
      assert fired[..n + 1] == fired && StopServed(fired[n], Fired(fired[..n], q), Fired(fired[..n + 1], q));
      StopTrades(s, p, r, id);
      forall i | |q.trades| <= i < |r.trades| ensures ByStop(fired, r.trades[i]) {
        if i < |p.trades| {
          assert r.trades[i] == p.trades[i] && ByStop(a, p.trades[i]);
          var j :| 0 <= j < |a| && TradeOfStop(a[j], p.trades[i]);
          assert fired[j] == a[j];
        } else {
          assert TradeOfStop(fired[n], r.trades[i]);
        }
      }
    }
  }
}
