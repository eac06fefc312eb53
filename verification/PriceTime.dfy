/** Price-time matching on plain lists: each side of the book is one list of
    resting orders, best price first and oldest first among equal prices. */
module PriceTime {
  import opened Types

  datatype Book = Book(bids: seq<Order>, asks: seq<Order>) {
    function Side(t: u64): seq<Order> {
      if t == BUY then bids else asks
    }

    function WithSide(t: u64, s: seq<Order>): Book {
      if t == BUY then this.(bids := s) else this.(asks := s)
    }
  }

  datatype Matched = Matched(rem: u64, rest: seq<Order>, trades: seq<Trade>)

  datatype Outcome = Outcome(code: u64, trades: seq<Trade>, book: Book)

  function Contra(t: u64): u64 {
    if t == BUY then SELL else BUY
  }

  // Price p has priority over price q on side t.
  predicate Better(t: u64, p: u64, q: u64) {
    if t == BUY then p > q else p < q
  }

  // The request accepts a contra order at this price.
  predicate Crosses(r: Request, price: u64) {
    r.otype == MARKET || if r.side == BUY then price <= r.price else r.price <= price
  }

  // The two orders share an account and the request has asked for protection.
  predicate SelfTrade(r: Request, o: Order) {
    r.account != 0 && r.account == o.account && r.stp != STP_NONE
  }

  // What is left of s when its first order is reduced by `fill`.
  function Reduce(s: seq<Order>, fill: u64): seq<Order>
    requires s != [] && fill <= s[0].remaining
  {
    if fill == s[0].remaining then s[1..] else [s[0].(remaining := s[0].remaining - fill)] + s[1..]
  }

  function Match(r: Request, rem: u64, s: seq<Order>): Matched
    decreases |s|, rem
  {
    if rem == 0 || s == [] || !Crosses(r, s[0].price) then
      Matched(rem, s, [])
    else if SelfTrade(r, s[0]) && r.stp == STP_CANCEL_NEW then
      Matched(0, s, [])
    else if SelfTrade(r, s[0]) && r.stp == STP_CANCEL_OLD then
      Match(r, rem, s[1..])
    else if SelfTrade(r, s[0]) && r.stp == STP_CANCEL_BOTH then
      Matched(0, s[1..], [])
    else
      var fill := Min(rem, s[0].remaining);
      var m := Match(r, rem - fill, Reduce(s, fill));
      if SelfTrade(r, s[0]) then m else m.(trades := [Trade(s[0].id, r.id, s[0].price, fill)] + m.trades)
  }

  lemma {:induction false} MatchLeaves(r: Request, rem: u64, s: seq<Order>)
    ensures Match(r, rem, s).rem <= rem
    decreases |s|, rem
  {
    if rem == 0 || s == [] || !Crosses(r, s[0].price) {
    } else if SelfTrade(r, s[0]) && (r.stp == STP_CANCEL_NEW || r.stp == STP_CANCEL_BOTH) {
    } else if SelfTrade(r, s[0]) && r.stp == STP_CANCEL_OLD {
      MatchLeaves(r, rem, s[1..]);
    } else {
      var fill := Min(rem, s[0].remaining);
      MatchLeaves(r, rem - fill, Reduce(s, fill));
    }
  }

  // A new order goes behind every order of equal or better price.
  function Insert(t: u64, o: Order, s: seq<Order>): seq<Order> {
    if s == [] || Better(t, o.price, s[0].price) then [o] + s else [s[0]] + Insert(t, o, s[1..])
  }

  // The largest quantity accepted, so that cap + 1 orders never overflow 64 bits.
  function MaxQty(cap: nat): nat {
    (TWO64 - 1) / (cap + 1)
  }

  predicate HasId(s: seq<Order>, id: u64) {
    exists i {:trigger s[i]} :: 0 <= i < |s| && s[i].id == id
  }

  predicate Rests(r: Request) {
    r.otype == LIMIT || r.otype == POST_ONLY
  }

  // The reason a request is refused, or ACCEPTED.
  function Refusal(cap: nat, b: Book, r: Request): u64 {
    if !(r.otype == LIMIT || r.otype == MARKET || r.otype == IOC || r.otype == POST_ONLY) then BAD_TYPE
    else if !(r.side == BUY || r.side == SELL) then BAD_FIELD
    else if !(r.stp <= STP_DECREMENT) then BAD_FIELD
    else if r.qty == 0 then BAD_FIELD
    else if r.otype != MARKET && r.price == 0 then BAD_FIELD
    else if MaxQty(cap) < r.qty then BAD_FIELD
    else if HasId(b.bids, r.id) || HasId(b.asks, r.id) then DUPLICATE
    else if Rests(r) && cap <= |b.bids| + |b.asks| then NO_CAPACITY
    else if r.otype == POST_ONLY && b.Side(Contra(r.side)) != []
        && Crosses(r, b.Side(Contra(r.side))[0].price) then WOULD_CROSS
    else ACCEPTED
  }

  // The contra side's best price suits the request.
  predicate CrossesBest(b: Book, r: Request) {
    b.Side(Contra(r.side)) != [] && Crosses(r, b.Side(Contra(r.side))[0].price)
  }

  // What is open at one price.
  function AtPrice(s: seq<Order>, price: u64): nat {
    if s == [] then 0 else (if s[0].price == price then s[0].remaining else 0) + AtPrice(s[1..], price)
  }

  function Resting(r: Request, rem: u64): Order {
    Order(r.id, r.account, r.side, r.stp, r.price, r.qty, rem)
  }

  function Execute(b: Book, r: Request): Outcome {
    var m := Match(r, r.qty, b.Side(Contra(r.side)));
    var b1 := b.WithSide(Contra(r.side), m.rest);
    Outcome(ACCEPTED, m.trades,
      if m.rem > 0 && Rests(r) then b1.WithSide(r.side, Insert(r.side, Resting(r, m.rem), b1.Side(r.side))) else b1)
  }

  function Process(cap: nat, b: Book, r: Request): Outcome {
    var code := Refusal(cap, b, r);
    if code != ACCEPTED then Outcome(code, [], b) else Execute(b, r)
  }

  lemma ProcessCases(cap: nat, b: Book, r: Request)
    ensures Refusal(cap, b, r) == ACCEPTED ==> Process(cap, b, r) == Execute(b, r)
    ensures Refusal(cap, b, r) != ACCEPTED ==> Process(cap, b, r) == Outcome(Refusal(cap, b, r), [], b)
  {
  }

  // s without its (only) order of this id.
  function Drop(s: seq<Order>, id: u64): seq<Order> {
    if s == [] then [] else if s[0].id == id then s[1..] else [s[0]] + Drop(s[1..], id)
  }

  function Cancel(b: Book, id: u64): Outcome {
    if HasId(b.bids, id) || HasId(b.asks, id) then Outcome(CANCELLED, [], Book(Drop(b.bids, id), Drop(b.asks, id)))
    else Outcome(UNKNOWN_ID, [], b)
  }

  lemma {:induction false} CancelCases(b: Book, id: u64)
    ensures if HasId(b.bids, id)
        || HasId(b.asks, id) then Cancel(b, id) == Outcome(CANCELLED, [], Book(Drop(b.bids, id), Drop(b.asks, id)))
        else Cancel(b, id) == Outcome(UNKNOWN_ID, [], b)
  {
  }

  // ---- the handwritten engine ----

  // What it checks before it matches: the fields, the id, and that a post-only order does not cross.
  predicate Admits(b: Book, r: Request) {
    && r.otype <= POST_ONLY && r.side <= SELL && r.stp <= STP_DECREMENT && r.qty > 0
        && (r.otype != MARKET ==> r.price > 0)
    && !HasId(b.bids, r.id) && !HasId(b.asks, r.id)
    && (r.otype == POST_ONLY ==> !CrossesBest(b, r))
  }

  // The prices orders rest at.
  function Prices(s: seq<Order>): set<u64> {
    set i {:trigger s[i]} | 0 <= i < |s| :: s[i].price
  }

  // A pool is used up: no order row is left, or a new price and no level row.
  predicate PoolsUsedUp(rows: nat, levels: nat, bids: seq<Order>, asks: seq<Order>, r: Request) {
    || rows <= |bids| + |asks|
    || (r.price !in Prices(if r.side == BUY then bids else asks) && levels <= |Prices(bids)| + |Prices(asks)|)
  }

  // No row is left for what would rest, and the request takes nothing off the book that would free one.
  predicate NoRow(rows: nat, levels: nat, b: Book, r: Request) {
    Rests(r) && !CrossesBest(b, r) && PoolsUsedUp(rows, levels, b.bids, b.asks, r)
  }

  datatype Verdict = Verdict(ok: bool, trades: seq<Trade>, book: Book)

  function Handwritten(rows: nat, levels: nat, b: Book, r: Request): Verdict {
    if Admits(b, r) && !NoRow(rows, levels, b, r) then
      var o := Execute(b, r);
      Verdict(true, o.trades, o.book)
    else Verdict(false, [], b)
  }

  // What rests of the request fits the total of its price in 64 bits.
  predicate PriceRoom(b: Book, r: Request) {
    var m := Match(r, r.qty, b.Side(Contra(r.side)));
    m.rem > 0 && Rests(r) ==> AtPrice(b.Side(r.side), r.price) + m.rem < TWO64
  }

  // The generated matcher refuses quantities and orders that the handwritten engine takes; neither matters here.
  predicate WithinLimits(cap: nat, b: Book, r: Request) {
    r.qty <= MaxQty(cap) && (Rests(r) ==> |b.bids| + |b.asks| < cap)
  }
}
