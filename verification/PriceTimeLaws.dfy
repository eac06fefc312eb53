/** What price-time matching guarantees, whatever the mode of self-trade prevention. */
module PriceTimeLaws {
  import opened Types
  import opened PriceTime

  // ---- the contra side after matching is a suffix of it before ----

  // `rest` is s without its first k orders, and with at most the next one reduced.
  predicate Consumed(s: seq<Order>, rest: seq<Order>, k: nat) {
    && k <= |s|
    && (rest == s[k..] || (k < |s| && rest != [] && rest[1..] == s[k + 1..]
          && 0 < rest[0].remaining < s[k].remaining && rest[0] == s[k].(remaining := rest[0].remaining)))
  }

  ghost predicate AllPositive(s: seq<Order>) {
    forall i {:trigger s[i]} :: 0 <= i < |s| ==> s[i].remaining > 0
  }

  lemma {:induction false} SuffixLaw(r: Request, rem: u64, s: seq<Order>) returns (k: nat)
    requires AllPositive(s)
    ensures Consumed(s, Match(r, rem, s).rest, k)
    decreases |s|, rem
  {
    if rem == 0 || s == [] || !Crosses(r, s[0].price) || (SelfTrade(r, s[0]) && r.stp == STP_CANCEL_NEW) {
      k := 0;
    } else if SelfTrade(r, s[0]) && r.stp == STP_CANCEL_BOTH {
      k := 1;
    } else if (SelfTrade(r, s[0]) && r.stp == STP_CANCEL_OLD) || rem >= s[0].remaining {
      var left := if SelfTrade(r, s[0]) && r.stp == STP_CANCEL_OLD then rem else rem - s[0].remaining;
      k := SuffixLaw(r, left, s[1..]);
      k := k + 1;
    } else {
      assert Match(r, 0, Reduce(s, rem)).rest == Reduce(s, rem);
      k := 0;
    }
  }

  // What is left of a request that accepts the best contra price has taken an order off the book.
  lemma {:induction false} OrderFrees(r: Request, rem: u64, s: seq<Order>)
    requires AllPositive(s) && rem > 0
    ensures |Match(r, rem, s).rest| <= |s|
    ensures s == [] || !Crosses(r, s[0].price) ==> Match(r, rem, s) == Matched(rem, s, [])
    ensures s != [] && Crosses(r, s[0].price) && Match(r, rem, s).rem > 0 ==> |Match(r, rem, s).rest| < |s|
  {
    var k := SuffixLaw(r, rem, s);
    if s != [] && Crosses(r, s[0].price) && !(SelfTrade(r, s[0]) && r.stp in {STP_CANCEL_NEW, STP_CANCEL_BOTH}) {
      if SelfTrade(r, s[0]) && r.stp == STP_CANCEL_OLD {
        k := SuffixLaw(r, rem, s[1..]);
      } else if s[0].remaining <= rem {
        k := SuffixLaw(r, rem - s[0].remaining, s[1..]);
      } else {
        assert Match(r, 0, Reduce(s, rem)).rem == 0;
      }
    }
  }

  // ---- trades ----

  function Traded(ts: seq<Trade>): nat {
    if ts == [] then 0 else ts[0].qty + Traded(ts[1..])
  }

  // Trade i is with the order at at[i], at that order's price, for all it has left unless it is the last trade.
  ghost predicate TradeWith(r: Request, s: seq<Order>, ts: seq<Trade>, at: seq<nat>, i: int)
    requires |at| == |ts| && 0 <= i < |ts|
  {
    && at[i] < |s| && ts[i].maker == s[at[i]].id && ts[i].taker == r.id && ts[i].price == s[at[i]].price
    && (r.otype != MARKET ==> if r.side == BUY then ts[i].price <= r.price else ts[i].price >= r.price)
    && (r.stp == STP_NONE || r.account == 0 || s[at[i]].account != r.account)
    && 0 < ts[i].qty <= s[at[i]].remaining && (i + 1 < |ts| ==> ts[i].qty == s[at[i]].remaining)
  }

  ghost predicate InOrder(at: seq<nat>) {
    forall i, j {:trigger at[i], at[j]} :: 0 <= i < j < |at| ==> at[i] < at[j]
  }

  // A trade with an order behind the first one is one of the side without it.
  lemma TradeBehind(r: Request, s: seq<Order>, ts: seq<Trade>, at: seq<nat>, i: nat, rest: seq<Trade>, a: seq<nat>,
          o: nat)
    requires s != [] && o <= i < |ts| == |at| && |a| == |rest| == |ts| - o
    requires ts[i] == rest[i - o] && at[i] == a[i - o] + 1 && TradeWith(r, s[1..], rest, a, i - o)
    ensures TradeWith(r, s, ts, at, i)
  {
    assert s[1..][a[i - o]] == s[at[i]];
  }

  lemma TradeFirst(r: Request, s: seq<Order>, ts: seq<Trade>, at: seq<nat>, qty: u64)
    requires s != [] && |ts| == |at| > 0 && at[0] == 0 && Crosses(r, s[0].price) && !SelfTrade(r, s[0])
    requires ts[0] == Trade(s[0].id, r.id, s[0].price, qty) && 0 < qty <= s[0].remaining
    requires |ts| > 1 ==> qty == s[0].remaining
    ensures TradeWith(r, s, ts, at, 0)
  {
  }

  // The trades are with resting orders at their own prices, best first and oldest first, each at most once; a buyer
  // pays no more than its price and a seller gets no less, unless the order is a market order; and a protected
  // account does not trade with itself.
  ghost predicate AllWith(r: Request, s: seq<Order>, ts: seq<Trade>, at: seq<nat>) {
    && |at| == |ts| && InOrder(at)
    && forall i {:trigger TradeWith(r, s, ts, at, i)} :: 0 <= i < |at| ==> TradeWith(r, s, ts, at, i)
  }

  // Makers are hit best price first and oldest first, each at most once, and never of the taker's own account.
  lemma {:induction false} TradesInPriority(r: Request, rem: u64, s: seq<Order>) returns (at: seq<nat>)
    requires AllPositive(s)
    ensures AllWith(r, s, Match(r, rem, s).trades, at)
    decreases |s|
  {
    at := [];
    if rem > 0 && s != [] && Crosses(r, s[0].price) {
      var self := SelfTrade(r, s[0]);
      if self && (r.stp == STP_CANCEL_NEW || r.stp == STP_CANCEL_BOTH) {
      } else if rem >= s[0].remaining || (self && r.stp == STP_CANCEL_OLD) {
        var left := if self && r.stp == STP_CANCEL_OLD then rem else rem - s[0].remaining;
        var a := TradesInPriority(r, left, s[1..]);
        MatchBehind(r, rem, s);
        at := PriorityBehind(r, s, Match(r, rem, s).trades, Match(r, left, s[1..]).trades, a);
      } else if !self {
        assert Match(r, 0, Reduce(s, rem)).trades == [];
        at := [0];
        TradeFirst(r, s, Match(r, rem, s).trades, at, rem);
      }
    }
  }

  lemma {:induction false} PriorityBehind(r: Request, s: seq<Order>, ts: seq<Trade>, rest: seq<Trade>, a: seq<nat>)
    returns (at: seq<nat>)
    requires AllPositive(s) && s != [] && Crosses(r, s[0].price) && AllWith(r, s[1..], rest, a)
    requires ts == (if SelfTrade(r, s[0]) then [] else [Trade(s[0].id, r.id, s[0].price, s[0].remaining)]) + rest
    ensures AllWith(r, s, ts, at)
  {
    hide TradeWith, Crosses, SelfTrade;
    var self := SelfTrade(r, s[0]);
    var o := if self then 0 else 1;
    at := if self then Later(a) else [0] + Later(a);
    if !self { TradeFirst(r, s, ts, at, s[0].remaining); }
    forall i | 0 <= i < |at| ensures TradeWith(r, s, ts, at, i) {
      if i >= o {
        var was := TradeWith(r, s[1..], rest, a, i - o);
        TradeBehind(r, s, ts, at, i, rest, a, o);
      }
    }
  }

  // Every place one further back.
  function Later(a: seq<nat>): (b: seq<nat>)
    ensures |b| == |a| && forall i {:trigger b[i]} :: 0 <= i < |a| ==> b[i] == a[i] + 1
  {
    seq(|a|, i requires 0 <= i < |a| => a[i] + 1)
  }

  // Past its first order matching goes on with the rest of the side.
  lemma {:induction false} MatchBehind(r: Request, rem: u64, s: seq<Order>)
    requires rem > 0 && s != [] && Crosses(r, s[0].price)
    requires rem >= s[0].remaining || (SelfTrade(r, s[0]) && r.stp == STP_CANCEL_OLD)
    requires SelfTrade(r, s[0]) ==> r.stp != STP_CANCEL_NEW && r.stp != STP_CANCEL_BOTH
    ensures var left := if SelfTrade(r, s[0]) && r.stp == STP_CANCEL_OLD then rem else rem - s[0].remaining;
      Match(r, rem, s).trades ==
      (if SelfTrade(r, s[0]) then [] else [Trade(s[0].id, r.id, s[0].price, s[0].remaining)])
      + Match(r, left, s[1..]).trades
  {
    var left := if SelfTrade(r, s[0]) && r.stp == STP_CANCEL_OLD then rem else rem - s[0].remaining;
    assert [] + Match(r, left, s[1..]).trades == Match(r, left, s[1..]).trades;
  }

  // ---- conservation ----

  // The quantity open on one side.
  function Open(s: seq<Order>): nat {
    if s == [] then 0 else s[0].remaining + Open(s[1..])
  }

  // The part of it that the request must not trade with.
  function Own(r: Request, s: seq<Order>): nat {
    if s == [] then 0 else (if SelfTrade(r, s[0]) then s[0].remaining else 0) + Own(r, s[1..])
  }

  // Trades account for all that other accounts lose.  The request's quantity is traded,
  // set off against its own resting orders, or left, unless a cancel mode cuts it short.
  lemma {:induction false} Conservation(r: Request, rem: u64, s: seq<Order>)
    ensures var m := Match(r, rem, s);
      && Own(r, m.rest) <= Own(r, s)
      && Open(s) - Own(r, s) == Traded(m.trades) + Open(m.rest) - Own(r, m.rest)
    ensures r.stp == STP_CANCEL_NEW ==> Own(r, Match(r, rem, s).rest) == Own(r, s)
    ensures r.stp == STP_CANCEL_OLD ==> rem == Traded(Match(r, rem, s).trades) + Match(r, rem, s).rem
    ensures r.stp !in {STP_CANCEL_NEW, STP_CANCEL_OLD, STP_CANCEL_BOTH} ==>
      rem == Traded(Match(r, rem, s).trades) + (Own(r, s) - Own(r, Match(r, rem, s).rest)) + Match(r, rem, s).rem
    decreases |s|, rem
  {
    if rem == 0 || s == [] || !Crosses(r, s[0].price) {
    } else if SelfTrade(r, s[0]) && (r.stp == STP_CANCEL_NEW || r.stp == STP_CANCEL_BOTH) {
    } else if SelfTrade(r, s[0]) && r.stp == STP_CANCEL_OLD {
      Conservation(r, rem, s[1..]);
    } else {
      Conservation(r, rem - Min(rem, s[0].remaining), Reduce(s, Min(rem, s[0].remaining)));
      ConservedFill(r, rem, s);
    }
  }

  // One fill takes the same from both sides.
  lemma {:induction false} ConservedFill(r: Request, rem: u64, s: seq<Order>)
    requires rem > 0 && s != [] && Crosses(r, s[0].price)
    requires SelfTrade(r, s[0]) ==> r.stp !in {STP_CANCEL_NEW, STP_CANCEL_OLD, STP_CANCEL_BOTH}
    ensures var fill := Min(rem, s[0].remaining);
      var m, n := Match(r, rem, s), Match(r, rem - fill, Reduce(s, fill));
      && m.rest == n.rest && m.rem == n.rem
      && Traded(m.trades) == (if SelfTrade(r, s[0]) then 0 else fill) + Traded(n.trades)
      && Open(Reduce(s, fill)) == Open(s) - fill
      && Own(r, Reduce(s, fill)) == Own(r, s) - if SelfTrade(r, s[0]) then fill else 0
  {
    hide Match, Traded, Open, Own, Reduce;
    TradedMore(r, rem, s);
    ReducedOpen(r, s, Min(rem, s[0].remaining));
  }

  lemma {:induction false} ReducedOpen(r: Request, s: seq<Order>, fill: u64)
    requires s != [] && fill <= s[0].remaining
    ensures Open(Reduce(s, fill)) == Open(s) - fill
    ensures Own(r, Reduce(s, fill)) == Own(r, s) - if SelfTrade(r, s[0]) then fill else 0
  {
    var t := Reduce(s, fill);
    if fill < s[0].remaining { assert t[1..] == s[1..]; }
  }

  // One of the request's own orders rests at a price it accepts.
  predicate OwnAhead(r: Request, s: seq<Order>) {
    s != [] && Crosses(r, s[0].price) && (SelfTrade(r, s[0]) || OwnAhead(r, s[1..]))
  }

  // What is open ahead of the first such order.
  function Before(r: Request, s: seq<Order>): nat {
    if s == [] || !Crosses(r, s[0].price) || SelfTrade(r, s[0]) then 0 else s[0].remaining + Before(r, s[1..])
  }

  // Cancel-new and cancel-both drop part of a request exactly if one of its own orders rests at a price
  // it accepts, behind less than the request asks for; otherwise all of it is traded or left.
  lemma {:induction false} CutShort(r: Request, rem: u64, s: seq<Order>)
    requires r.stp == STP_CANCEL_NEW || r.stp == STP_CANCEL_BOTH
    requires AllPositive(s)
    ensures var m := Match(r, rem, s); Traded(m.trades) + m.rem <= rem
    ensures var m := Match(r, rem, s); Traded(m.trades) + m.rem < rem <==> OwnAhead(r, s) && Before(r, s) < rem
    ensures var m := Match(r, rem, s);
        OwnAhead(r, s) && Before(r, s) < rem ==> Traded(m.trades) == Before(r, s) && m.rem == 0
    decreases |s|, rem
  {
    if rem == 0 || s == [] || !Crosses(r, s[0].price) || SelfTrade(r, s[0]) {
    } else if s[0].remaining <= rem {
      CutShort(r, rem - s[0].remaining, s[1..]);
      var next := Match(r, rem - s[0].remaining, s[1..]).trades;
      assert ([Trade(s[0].id, r.id, s[0].price, s[0].remaining)] + next)[1..] == next;
    } else {
      assert Match(r, 0, Reduce(s, rem)) == Matched(0, Reduce(s, rem), []);
      assert Traded([Trade(s[0].id, r.id, s[0].price, rem)]) == rem + Traded([]);
    }
  }

  // A buyer of 5 meets a stranger's 2 and then an order of its own: 2 are traded, none is left, 3 are dropped.
  lemma CutShortHappens(stp: u64)
    requires stp == STP_CANCEL_NEW || stp == STP_CANCEL_BOTH
    ensures var r := Request(9, 7, BUY, LIMIT, stp, 100, 5);
      var s := [Order(1, 8, SELL, 0, 99, 2, 2), Order(2, 7, SELL, 0, 100, 4, 4)];
      AllPositive(s) && Match(r, 5, s).trades == [Trade(1, 9, 99, 2)] && Match(r, 5, s).rem == 0
  {
    var r := Request(9, 7, BUY, LIMIT, stp, 100, 5);
    var s := [Order(1, 8, SELL, 0, 99, 2, 2), Order(2, 7, SELL, 0, 100, 4, 4)];
    assert Reduce(s, 2) == [s[1]];
    assert Match(r, 3, [s[1]]).trades == [];
  }

  // The first order of the request's own account.
  function FirstOwn(r: Request, s: seq<Order>): nat {
    if s == [] then 0 else if SelfTrade(r, s[0]) then s[0].remaining else FirstOwn(r, s[1..])
  }

  // Cancel-new leaves the request's own orders alone; cancel-both takes out the one that cuts it short.
  lemma {:induction false} CutShortOwn(r: Request, rem: u64, s: seq<Order>)
    requires r.stp == STP_CANCEL_NEW || r.stp == STP_CANCEL_BOTH
    requires AllPositive(s)
    ensures Own(r, Match(r, rem, s).rest) == Own(r, s)
        - if r.stp == STP_CANCEL_BOTH && OwnAhead(r, s) && Before(r, s) < rem then FirstOwn(r, s) else 0
    decreases |s|, rem
  {
    if rem == 0 || s == [] || !Crosses(r, s[0].price) || SelfTrade(r, s[0]) {
    } else if s[0].remaining <= rem {
      CutShortOwn(r, rem - s[0].remaining, s[1..]);
    } else {
      var t := Reduce(s, rem);
      assert Match(r, 0, t) == Matched(0, t, []) && t[1..] == s[1..];
    }
  }

  // ---- nothing is left on the table ----

  lemma {:induction false} Exhausted(r: Request, rem: u64, s: seq<Order>)
    ensures var m := Match(r, rem, s); m.rem > 0 ==> m.rest == [] || !Crosses(r, m.rest[0].price)
    decreases |s|, rem
  {
    if rem == 0 || s == [] || !Crosses(r, s[0].price) {
    } else if SelfTrade(r, s[0]) && (r.stp == STP_CANCEL_NEW || r.stp == STP_CANCEL_BOTH) {
    } else if SelfTrade(r, s[0]) && r.stp == STP_CANCEL_OLD {
      Exhausted(r, rem, s[1..]);
    } else {
      Exhausted(r, rem - Min(rem, s[0].remaining), Reduce(s, Min(rem, s[0].remaining)));
    }
  }

  // Matching a + b at once comes to the same as matching a, then b with what a has left.
  ghost predicate InParts(r: Request, a: u64, b: u64, s: seq<Order>)
    requires a + b < TWO64
  {
    var m, first := Match(r, a + b, s), Match(r, a, s);
    first.rem + b < TWO64 &&
    var second := Match(r, first.rem + b, first.rest);
    m.rest == second.rest && m.rem == second.rem && Traded(m.trades) == Traded(first.trades) + Traded(second.trades)
  }

  lemma {:induction false} MatchInParts(r: Request, a: u64, b: u64, s: seq<Order>)
    requires r.stp != STP_CANCEL_NEW && r.stp != STP_CANCEL_BOTH && a + b < TWO64
    ensures InParts(r, a, b, s)
    decreases |s|, a
  {
    hide Match, Traded, InParts;
    if a == 0 || s == [] || !Crosses(r, s[0].price) {
      PartsOfNone(r, a, b, s);
    } else if SelfTrade(r, s[0]) && r.stp == STP_CANCEL_OLD {
      MatchInParts(r, a, b, s[1..]);
      PartsSkip(r, a, b, s);
    } else if a >= s[0].remaining {
      MatchInParts(r, a - s[0].remaining, b, s[1..]);
      PartsFilled(r, a, b, s);
    } else {
      PartOfOne(r, a, b, s);
      PartsReduced(r, a, b, s);
    }
  }

  lemma PartsOfNone(r: Request, a: u64, b: u64, s: seq<Order>)
    requires a + b < TWO64 && (a == 0 || s == [] || !Crosses(r, s[0].price))
    ensures InParts(r, a, b, s)
  {
  }

  lemma PartsSkip(r: Request, a: u64, b: u64, s: seq<Order>)
    requires a + b < TWO64 && a > 0 && s != [] && Crosses(r, s[0].price) && SelfTrade(r, s[0])
    requires r.stp == STP_CANCEL_OLD && InParts(r, a, b, s[1..])
    ensures InParts(r, a, b, s)
  {
    assert Match(r, a, s) == Match(r, a, s[1..]) && Match(r, a + b, s) == Match(r, a + b, s[1..]);
    hide Match, Traded;
  }

  lemma PartsFilled(r: Request, a: u64, b: u64, s: seq<Order>)
    requires a + b < TWO64 && s != [] && Crosses(r, s[0].price) && 0 < a && s[0].remaining <= a
    requires InParts(r, a - s[0].remaining, b, s[1..])
    requires SelfTrade(r, s[0]) ==> r.stp !in {STP_CANCEL_NEW, STP_CANCEL_OLD, STP_CANCEL_BOTH}
    ensures InParts(r, a, b, s)
  {
    hide Match, Traded;
    FilledOne(r, a, s);
    FilledOne(r, a + b, s);
  }

  lemma {:induction false} PartsReduced(r: Request, a: u64, b: u64, s: seq<Order>)
    requires s != [] && 0 < a < s[0].remaining && a + b < TWO64 && Match(r, a, s).rem == 0
    requires Match(r, a, s).rest == Reduce(s, a)
    requires var m, second := Match(r, a + b, s), Match(r, b, Reduce(s, a));
      m.rest == second.rest && m.rem == second.rem
          && Traded(m.trades) == Traded(Match(r, a, s).trades) + Traded(second.trades)
    ensures InParts(r, a, b, s)
  {
    hide Match, Traded;
  }

  // The first order is filled whole.
  lemma FilledOne(r: Request, rem: u64, s: seq<Order>)
    requires s != [] && Crosses(r, s[0].price) && 0 < rem && s[0].remaining <= rem
    requires SelfTrade(r, s[0]) ==> r.stp !in {STP_CANCEL_NEW, STP_CANCEL_OLD, STP_CANCEL_BOTH}
    ensures var m, n := Match(r, rem, s), Match(r, rem - s[0].remaining, s[1..]);
      m.rem == n.rem && m.rest == n.rest
          && Traded(m.trades) == (if SelfTrade(r, s[0]) then 0 else s[0].remaining) + Traded(n.trades)
  {
    TradedMore(r, rem, s);
  }

  // The first part only reduces the first order.
  lemma {:induction false} PartOfOne(r: Request, a: u64, b: u64, s: seq<Order>)
    requires s != [] && Crosses(r, s[0].price) && 0 < a < s[0].remaining && a + b < TWO64
    requires SelfTrade(r, s[0]) ==> r.stp !in {STP_CANCEL_NEW, STP_CANCEL_OLD, STP_CANCEL_BOTH}
    ensures Match(r, a, s).rem == 0 && Match(r, a, s).rest == Reduce(s, a)
    ensures var m, second := Match(r, a + b, s), Match(r, b, Reduce(s, a));
      m.rest == second.rest && m.rem == second.rem
          && Traded(m.trades) == Traded(Match(r, a, s).trades) + Traded(second.trades)
  {
    hide Match, Traded, Reduce;
    var t := Reduce(s, a);
    ReduceTwice(s, a, Min(b, s[0].remaining - a));
    ReduceHead(s, a);
    MatchNothing(r, t);
    TradedNone();
    TradedMore(r, a, s);
    TradedMore(r, a + b, s);
    if b > 0 { TradedMore(r, b, t); }
  }

  lemma ReduceHead(s: seq<Order>, a: u64)
    requires s != [] && a < s[0].remaining
    ensures Reduce(s, a) != [] && Reduce(s, a)[0] == s[0].(remaining := s[0].remaining - a)
  {
  }

  lemma ReduceTwice(s: seq<Order>, a: u64, c: u64)
    requires s != [] && a < s[0].remaining && c <= s[0].remaining - a
    ensures Reduce(s, a) != [] && Reduce(s, a)[0].remaining == s[0].remaining - a
    ensures Reduce(Reduce(s, a), c) == Reduce(s, a + c)
  {
    assert Reduce(s, a)[1..] == s[1..];
  }

  lemma TradedNone()
    ensures Traded([]) == 0
  {
  }

  lemma {:induction false} MatchNothing(r: Request, s: seq<Order>)
    ensures Match(r, 0, s) == Matched(0, s, [])
  {
  }

  lemma TradedMore(r: Request, rem: u64, s: seq<Order>)
    requires rem > 0 && s != [] && Crosses(r, s[0].price)
    requires SelfTrade(r, s[0]) ==> r.stp !in {STP_CANCEL_NEW, STP_CANCEL_OLD, STP_CANCEL_BOTH}
    ensures var n := Match(r, rem - Min(rem, s[0].remaining), Reduce(s, Min(rem, s[0].remaining)));
      Match(r, rem, s).rem == n.rem && Match(r, rem, s).rest == n.rest
    ensures var fill := Min(rem, s[0].remaining);
      Traded(Match(r, rem, s).trades) ==
          (if SelfTrade(r, s[0]) then 0 else fill) + Traded(Match(r, rem - fill, Reduce(s, fill)).trades)
  {
    var fill := Min(rem, s[0].remaining);
    var next := Match(r, rem - fill, Reduce(s, fill)).trades;
    assert ([Trade(s[0].id, r.id, s[0].price, fill)] + next)[1..] == next;
  }
}
