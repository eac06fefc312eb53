/** What a request gets from either C engine, told from its own fields and the book before it. */
module RequestLaws {
  import opened Types
  import opened PriceTime
  import opened PriceTimeLaws
  import opened BookRuns

  // ---- when it stops ----

  // Nothing is left that it could trade with: no contra order, or the best one asks more than a buyer's price
  // or offers less than a seller's.
  predicate NothingWithin(r: Request, contra: seq<Order>) {
    || contra == []
    || (r.otype != MARKET && if r.side == BUY then contra[0].price > r.price else contra[0].price < r.price)
  }

  // ---- how much of it is left ----

  // Its quantity less what was traded and, if own orders are set off against it, what they lost; nothing if
  // an own order has cancelled it.
  function Left(r: Request, s: seq<Order>, rest: seq<Order>, ts: seq<Trade>): int {
    if (r.stp == STP_CANCEL_NEW || r.stp == STP_CANCEL_BOTH) && OwnAhead(r, s) && Before(r, s) < r.qty then 0
    else r.qty - Traded(ts) - if r.stp == STP_DECREMENT then Own(r, s) - Own(r, rest) else 0
  }

  lemma {:induction false} LeftIs(r: Request, s: seq<Order>)
    requires AllPositive(s) && r.stp <= STP_DECREMENT
    ensures var m := Match(r, r.qty, s); m.rem == Left(r, s, m.rest, m.trades)
  {
    Conservation(r, r.qty, s);
    var m := Match(r, r.qty, s);
    if r.stp == STP_CANCEL_NEW || r.stp == STP_CANCEL_BOTH { CutShort(r, r.qty, s); }
    if r.stp == STP_NONE { NoneOwn(r, s); NoneOwn(r, m.rest); }
  }

  lemma {:induction false} NoneOwn(r: Request, s: seq<Order>)
    requires r.stp == STP_NONE
    ensures Own(r, s) == 0
  {
    if s != [] { NoneOwn(r, s[1..]); }
  }

  // What the orders of its own account lose under the modes that cancel the request.
  predicate OwnLoses(r: Request, s: seq<Order>, rest: seq<Order>) {
    && (r.stp == STP_CANCEL_NEW ==> Own(r, rest) == Own(r, s))
    && (r.stp == STP_CANCEL_BOTH ==>
        Own(r, rest) == Own(r, s) - if OwnAhead(r, s) && Before(r, s) < r.qty then FirstOwn(r, s) else 0)
  }

  lemma {:induction false} OwnLost(r: Request, s: seq<Order>)
    requires AllPositive(s)
    ensures OwnLoses(r, s, Match(r, r.qty, s).rest)
  {
    if r.stp == STP_CANCEL_NEW || r.stp == STP_CANCEL_BOTH { CutShortOwn(r, r.qty, s); }
  }

  // ---- what rests of it ----

  // `quantity` of it has joined its side: behind every order of an equal or better price, ahead of all others.
  ghost predicate RestsAt(r: Request, quantity: int, own: seq<Order>, now: seq<Order>, k: nat) {
    && k <= |own| && |now| == |own| + 1
    && now[..k] == own[..k] && now[k + 1..] == own[k..]
    && now[k].id == r.id && now[k].account == r.account && now[k].side == r.side && now[k].stp == r.stp
    && now[k].price == r.price && now[k].qty == r.qty && now[k].remaining == quantity
    && (forall i {:trigger own[i]} :: 0 <= i < k ==>
        if r.side == BUY then own[i].price >= r.price else own[i].price <= r.price)
    && (k < |own| ==> if r.side == BUY then own[k].price < r.price else own[k].price > r.price)
  }

  lemma {:induction false} InsertRests(r: Request, rem: u64, own: seq<Order>) returns (k: nat)
    requires r.side == BUY || r.side == SELL
    ensures RestsAt(r, rem, own, Insert(r.side, Resting(r, rem), own), k)
  {
    k := InsertPlace(r.side, Resting(r, rem), own);
    var n := Insert(r.side, Resting(r, rem), own);
    hide Insert;
    assert n[..k] == own[..k] && n[k + 1..] == own[k..];
  }

  // What a request takes from the contra side s, leaving `rest` and trades ts: others lose what it trades, the side
  // is used up from its front, and it goes on until nothing of it is left or nothing is within its price.
  ghost predicate TakesFrom(r: Request, s: seq<Order>, rest: seq<Order>, ts: seq<Trade>) {
    var left := Left(r, s, rest, ts);
    && (exists at: seq<nat> {:trigger AllWith(r, s, ts, at)} :: AllWith(r, s, ts, at))
    && Open(s) - Own(r, s) == Traded(ts) + Open(rest) - Own(r, rest) && Traded(ts) + left <= r.qty && left >= 0
    && OwnLoses(r, s, rest)
    && (exists k: nat {:trigger Consumed(s, rest, k)} :: Consumed(s, rest, k))
    && (left > 0 ==> NothingWithin(r, rest))
  }

  // What is left of a limit or post-only order rests; otherwise its own side stays as it was.
  ghost predicate LeavesOwn(r: Request, left: int, own: seq<Order>, now: seq<Order>) {
    if left > 0 && (r.otype == LIMIT || r.otype == POST_ONLY)
    then exists k: nat {:trigger RestsAt(r, left, own, now, k)} :: RestsAt(r, left, own, now, k)
    else now == own
  }

  /** Everything an accepted request does to a book: what it trades and at what prices, what that takes from the
      contra side, when it stops, and what rests of it. */
  ghost predicate Executed(r: Request, b: Book, ts: seq<Trade>, c: Book) {
    var s, rest := b.Side(Contra(r.side)), c.Side(Contra(r.side));
    TakesFrom(r, s, rest, ts) && LeavesOwn(r, Left(r, s, rest, ts), b.Side(r.side), c.Side(r.side))
  }

  lemma {:induction false} MatchTakes(r: Request, s: seq<Order>)
    requires AllPositive(s) && (r.side == BUY || r.side == SELL) && r.stp <= STP_DECREMENT
    ensures TakesFrom(r, s, Match(r, r.qty, s).rest, Match(r, r.qty, s).trades)
  {
    hide Match, Own, Traded, Open, OwnAhead, Before, Left, NothingWithin, AllWith, OwnLoses, Consumed;
    var at := TradesInPriority(r, r.qty, s);
    OwnLost(r, s);
    LeftIs(r, s);
    Conservation(r, r.qty, s);
    TradedFits(r, s);
    var i := SuffixLaw(r, r.qty, s);
    LeftOutside(r, s);
  }

  // Both sides of the book after an accepted request.
  lemma {:induction false} ExecuteSides(b: Book, r: Request)
    requires r.side == BUY || r.side == SELL
    ensures var m := Match(r, r.qty, b.Side(Contra(r.side)));
      && Execute(b, r).trades == m.trades && Execute(b, r).book.Side(Contra(r.side)) == m.rest
      && LeavesOwn(r, m.rem, b.Side(r.side), Execute(b, r).book.Side(r.side))
  {
    hide Match, Insert, RestsAt;
    var m := Match(r, r.qty, b.Side(Contra(r.side)));
    if m.rem > 0 && Rests(r) {
      var k := InsertRests(r, m.rem, b.Side(r.side));
    }
  }

  // Either engine gives an accepted request just this.
  lemma {:induction false} ExecuteIs(cap: nat, b: Book, r: Request)
    requires Fits(cap, b) && (r.side == BUY || r.side == SELL) && r.stp <= STP_DECREMENT
    ensures Executed(r, b, Execute(b, r).trades, Execute(b, r).book)
  {
    hide Match, Fits, Execute, TakesFrom, LeavesOwn, Left;
    var s := b.Side(Contra(r.side));
    PositiveSide(cap, b, Contra(r.side));
    MatchTakes(r, s);
    LeftIs(r, s);
    ExecuteSides(b, r);
  }

  lemma {:induction false} LeftOutside(r: Request, s: seq<Order>)
    requires r.side == BUY || r.side == SELL
    ensures Match(r, r.qty, s).rem > 0 ==> NothingWithin(r, Match(r, r.qty, s).rest)
  {
    Exhausted(r, r.qty, s);
    hide Match;
  }

  // No more is traded than was asked for.
  lemma {:induction false} TradedFits(r: Request, s: seq<Order>)
    requires AllPositive(s)
    ensures Traded(Match(r, r.qty, s).trades) + Match(r, r.qty, s).rem <= r.qty
  {
    Conservation(r, r.qty, s);
    if r.stp == STP_CANCEL_NEW || r.stp == STP_CANCEL_BOTH { CutShort(r, r.qty, s); }
  }

  // ---- when it is taken ----

  // Its fields are those of a request: known side and mode, something to trade, and a price unless it needs none.
  predicate FieldsOk(cap: nat, r: Request) {
    && r.side <= 1 && r.stp <= 4 && 0 < r.qty && r.qty * (cap + 1) < TWO64 && (r.otype == MARKET || r.price > 0)
  }

  predicate InUse(b: Book, id: u64) {
    (exists i {:trigger b.bids[i]} :: 0 <= i < |b.bids| && b.bids[i].id == id)
    || (exists i {:trigger b.asks[i]} :: 0 <= i < |b.asks| && b.asks[i].id == id)
  }

  // At its price it would trade at once.
  predicate WouldTrade(b: Book, r: Request) {
    if r.side == BUY then b.asks != [] && b.asks[0].price <= r.price else b.bids != [] && b.bids[0].price >= r.price
  }

  lemma QuotientIs(q: nat, n: nat)
    requires n > 0
    ensures q <= (TWO64 - 1) / n <==> q * n < TWO64
  {
    var d := (TWO64 - 1) / n;
    assert d * n <= TWO64 - 1 < (d + 1) * n;
    if q <= d { ProductGrows(q, d, n); } else { ProductGrows(d + 1, q, n); }
  }

  // The generated matcher: the code of a refusal tells the first of the five checks that fails.
  lemma {:induction false} RefusalIs(cap: nat, b: Book, r: Request)
    ensures var code := Refusal(cap, b, r);
      && (code == BAD_TYPE <==> r.otype > 3)
      && (code == BAD_FIELD <==> r.otype <= 3 && !FieldsOk(cap, r))
      && (code == DUPLICATE <==> r.otype <= 3 && FieldsOk(cap, r) && InUse(b, r.id))
      && (code == NO_CAPACITY <==>
           r.otype <= 3 && FieldsOk(cap, r) && !InUse(b, r.id)
           && (r.otype == LIMIT || r.otype == POST_ONLY) && |b.bids| + |b.asks| >= cap)
      && (code == WOULD_CROSS <==>
           r.otype == POST_ONLY && FieldsOk(cap, r) && !InUse(b, r.id) && |b.bids| + |b.asks| < cap && WouldTrade(b, r))
      && (code == ACCEPTED <==>
           r.otype <= 3 && FieldsOk(cap, r) && !InUse(b, r.id)
           && (r.otype == LIMIT || r.otype == POST_ONLY ==> |b.bids| + |b.asks| < cap)
           && (r.otype == POST_ONLY ==> !WouldTrade(b, r)))
  {
    QuotientIs(r.qty, cap + 1);
    hide MaxQty;
  }

  // The handwritten engine makes the same checks but those of quantity and room.
  lemma {:induction false} AdmitsIs(b: Book, r: Request)
    ensures Admits(b, r) <==>
        r.otype <= 3 && FieldsOk(0, r) && !InUse(b, r.id) && (r.otype == POST_ONLY ==> !WouldTrade(b, r))
  {
  }
}
