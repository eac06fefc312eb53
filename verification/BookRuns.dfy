/** What every run of requests and cancels keeps true of the book, and which of them undo each other. */
module BookRuns {
  import opened Lists
  import opened Types
  import opened PriceTime
  import opened PriceTimeLaws

  // A resting order of side t.
  predicate OrderFits(t: u64, o: Order) {
    o.side == t && o.price > 0 && 0 < o.remaining <= o.qty
  }

  // Best price first.
  predicate Sorted(t: u64, s: seq<Order>) {
    forall i, j {:trigger s[i], s[j]} :: 0 <= i < j < |s| ==> !Better(t, s[j].price, s[i].price)
  }

  predicate SideFits(t: u64, s: seq<Order>) {
    Sorted(t, s) && forall i {:trigger s[i]} :: 0 <= i < |s| ==> OrderFits(t, s[i])
  }

  predicate DistinctIds(s: seq<Order>) {
    forall i, j {:trigger s[i], s[j]} :: 0 <= i < j < |s| ==> s[i].id != s[j].id
  }

  // Every bid is below every ask.
  predicate Uncrossed(b: Book) {
    forall i, j {:trigger b.bids[i], b.asks[j]} :: 0 <= i < |b.bids| && 0 <= j < |b.asks| ==>
        b.bids[i].price < b.asks[j].price
  }

  predicate Fits(cap: nat, b: Book) {
    && SideFits(BUY, b.bids) && SideFits(SELL, b.asks)
    && DistinctIds(b.bids + b.asks) && Uncrossed(b) && |b.bids| + |b.asks| <= cap
  }

  // No order is larger than the generated matcher accepts.
  predicate CappedSide(cap: nat, s: seq<Order>) {
    forall i {:trigger s[i]} :: 0 <= i < |s| ==> s[i].remaining <= s[i].qty <= MaxQty(cap)
  }

  predicate Capped(cap: nat, b: Book) {
    CappedSide(cap, b.bids) && CappedSide(cap, b.asks)
  }

  // ---- a suffix keeps everything ----

  lemma ConsumedAt(s: seq<Order>, rest: seq<Order>, k: nat, i: nat)
    requires Consumed(s, rest, k) && i < |rest|
    ensures k + i < |s| && rest[i] == s[k + i].(remaining := rest[i].remaining)
    ensures rest[i].remaining == s[k + i].remaining || 0 < rest[i].remaining < s[k + i].remaining
  {
    if rest != s[k..] && i > 0 { assert rest[i] == rest[1..][i - 1]; }
  }

  lemma ConsumedFits(t: u64, s: seq<Order>, rest: seq<Order>, k: nat)
    requires SideFits(t, s) && Consumed(s, rest, k)
    ensures SideFits(t, rest) && |rest| <= |s|
  {
    forall i | 0 <= i < |rest| ensures OrderFits(t, rest[i]) { ConsumedAt(s, rest, k, i); }
    forall i, j | 0 <= i < j < |rest| ensures !Better(t, rest[j].price, rest[i].price) {
      ConsumedAt(s, rest, k, i);
      ConsumedAt(s, rest, k, j);
    }
  }

  // A list whose orders come from s, in s's order and with s's ids, repeats no id if s does not.
  lemma IdsFrom(s: seq<Order>, t: seq<Order>, at: seq<nat>)
    requires DistinctIds(s) && |at| == |t| && InOrder(at)
    requires forall i {:trigger at[i]} :: 0 <= i < |t| ==> at[i] < |s| && t[i].id == s[at[i]].id
    ensures DistinctIds(t)
  {
    forall i, j | 0 <= i < j < |t| ensures t[i].id != t[j].id { assert at[i] < at[j]; }
  }

  lemma ConsumedIds(p: seq<Order>, s: seq<Order>, q: seq<Order>, rest: seq<Order>, k: nat)
    requires DistinctIds(p + s + q) && Consumed(s, rest, k)
    ensures DistinctIds(p + rest + q)
  {
    var n, t := |p|, p + rest + q;
    var at := seq(|t|, i requires 0 <= i < |t| => if i < n then i else i + |s| - |rest|);
    forall i | 0 <= i < |t| ensures at[i] < |p + s + q| && t[i].id == (p + s + q)[at[i]].id {
      if n <= i < n + |rest| { ConsumedAt(s, rest, k, i - n); }
    }
    IdsFrom(p + s + q, t, at);
  }

  // Matching leaves the contra side in order and the book uncrossed.
  lemma {:induction false} MatchFits(cap: nat, b: Book, r: Request)
    requires Fits(cap, b) && (r.side == BUY || r.side == SELL)
    ensures Fits(cap, b.WithSide(Contra(r.side), Match(r, r.qty, b.Side(Contra(r.side))).rest))
    ensures |Match(r, r.qty, b.Side(Contra(r.side))).rest| <= |b.Side(Contra(r.side))|
  {
    hide Match, Consumed, Own, Traded;
    var t := Contra(r.side);
    var s := b.Side(t);
    var k := SuffixLaw(r, r.qty, s);
    var rest := Match(r, r.qty, s).rest;
    ConsumedFits(t, s, rest, k);
    if t == BUY {
      assert [] + b.bids + b.asks == b.bids + b.asks && [] + rest + b.asks == rest + b.asks;
      ConsumedIds([], s, b.asks, rest, k);
      forall i, j | 0 <= i < |rest| && 0 <= j < |b.asks| ensures rest[i].price < b.asks[j].price {
        ConsumedAt(s, rest, k, i);
      }
    } else {
      assert b.bids + b.asks + [] == b.bids + b.asks && b.bids + rest + [] == b.bids + rest;
      ConsumedIds(b.bids, s, [], rest, k);
      forall i, j | 0 <= i < |b.bids| && 0 <= j < |rest| ensures b.bids[i].price < rest[j].price {
        ConsumedAt(s, rest, k, j);
      }
    }
  }

  // ---- an order that rests ----

  // Where Insert puts the order: behind all of equal or better price, ahead of all worse.
  lemma {:induction false} InsertPlace(t: u64, o: Order, s: seq<Order>) returns (k: nat)
    ensures k <= |s| && Insert(t, o, s) == s[..k] + [o] + s[k..]
    ensures forall i {:trigger s[i]} :: 0 <= i < k ==> !Better(t, o.price, s[i].price)
    ensures k < |s| ==> Better(t, o.price, s[k].price)
  {
    if s == [] || Better(t, o.price, s[0].price) {
      k := 0;
    } else {
      k := InsertPlace(t, o, s[1..]);
      assert [s[0]] + (s[1..][..k] + [o] + s[1..][k..]) == s[..k + 1] + [o] + s[k + 1..];
      k := k + 1;
    }
  }

  lemma {:induction false} InsertFits(t: u64, o: Order, s: seq<Order>)
    requires SideFits(t, s) && OrderFits(t, o)
    ensures SideFits(t, Insert(t, o, s)) && |Insert(t, o, s)| == |s| + 1
  {
    var k := InsertPlace(t, o, s);
    var n := Insert(t, o, s);
    forall i | 0 <= i < |n| ensures n[i] == if i < k then s[i] else if i == k then o else s[i - 1] {}
    forall i, j | 0 <= i < j < |n| ensures !Better(t, n[j].price, n[i].price) {
      if i == k { assert !Better(t, s[j - 1].price, s[k].price); }
    }
  }

  lemma {:induction false} InsertIds(p: seq<Order>, s: seq<Order>, q: seq<Order>, t: u64, o: Order)
    requires DistinctIds(p + s + q) && !HasId(p, o.id) && !HasId(s, o.id) && !HasId(q, o.id)
    ensures DistinctIds(p + Insert(t, o, s) + q)
  {
    var k := InsertPlace(t, o, s);
    var n, all, m := p + Insert(t, o, s) + q, p + s + q, |p| + k;
    forall i | 0 <= i < |n| ensures n[i] == if i < m then all[i] else if i == m then o else all[i - 1] {}
    forall i | 0 <= i < |all| ensures all[i].id != o.id {
      if i < |p| {
        assert p[i].id != o.id;
      } else if i < |p| + |s| {
        assert s[i - |p|].id != o.id;
      } else {
        assert q[i - |p| - |s|].id != o.id;
      }
    }
    forall i, j | 0 <= i < j < |n| ensures n[i].id != n[j].id {
      if i != m && j != m { assert all[if i < m then i else i - 1].id != all[if j < m then j else j - 1].id; }
    }
  }

  lemma ConsumedNoId(s: seq<Order>, rest: seq<Order>, k: nat, id: u64)
    requires Consumed(s, rest, k) && !HasId(s, id)
    ensures !HasId(rest, id)
  {
    forall i | 0 <= i < |rest| ensures rest[i].id != id { ConsumedAt(s, rest, k, i); }
  }

  // The head of a sorted side decides for all of it.
  lemma NoneCross(r: Request, s: seq<Order>)
    requires SideFits(Contra(r.side), s) && (r.side == BUY || r.side == SELL) && (s == [] || !Crosses(r, s[0].price))
    ensures forall i {:trigger s[i]} :: 0 <= i < |s| ==> !Crosses(r, s[i].price)
  {
  }

  // An order at a price no contra order accepts leaves the book uncrossed.
  lemma {:induction false} RestingUncrossed(b: Book, t: u64, o: Order)
    requires Uncrossed(b) && (t == BUY || t == SELL)
    requires forall i {:trigger b.Side(Contra(t))[i]} :: 0 <= i < |b.Side(Contra(t))| ==>
        Better(t, b.Side(Contra(t))[i].price, o.price)
    ensures Uncrossed(b.WithSide(t, Insert(t, o, b.Side(t))))
  {
    var s := b.Side(t);
    var n := Insert(t, o, s);
    var k := InsertPlace(t, o, s);
    hide Insert;
    var e := b.WithSide(t, n);
    forall i, j | 0 <= i < |e.bids| && 0 <= j < |e.asks| ensures e.bids[i].price < e.asks[j].price {
      var x := if t == BUY then i else j;
      assert n[x] == if x < k then s[x] else if x == k then o else s[x - 1];
      assert b.Side(Contra(t)) == if t == BUY then b.asks else b.bids;
    }
  }

  lemma {:induction false} RestingIds(b: Book, t: u64, o: Order)
    requires DistinctIds(b.bids + b.asks) && !HasId(b.bids, o.id) && !HasId(b.asks, o.id) && (t == BUY || t == SELL)
    ensures var e := b.WithSide(t, Insert(t, o, b.Side(t))); DistinctIds(e.bids + e.asks)
  {
    var n := Insert(t, o, b.Side(t));
    if t == BUY {
      assert [] + b.bids + b.asks == b.bids + b.asks && [] + n + b.asks == n + b.asks;
      InsertIds([], b.bids, b.asks, t, o);
    } else {
      assert b.bids + b.asks + [] == b.bids + b.asks && b.bids + n + [] == b.bids + n;
      InsertIds(b.bids, b.asks, [], t, o);
    }
  }

  lemma RestingFits(cap: nat, b: Book, r: Request, rem: u64)
    requires Fits(cap, b) && (r.side == BUY || r.side == SELL) && Rests(r) && 0 < rem <= r.qty && r.price > 0
    requires !HasId(b.bids, r.id) && !HasId(b.asks, r.id) && |b.bids| + |b.asks| < cap
    requires var c := b.Side(Contra(r.side)); c == [] || !Crosses(r, c[0].price)
    ensures Fits(cap, b.WithSide(r.side, Insert(r.side, Resting(r, rem), b.Side(r.side))))
  {
    var o := Resting(r, rem);
    InsertFits(r.side, o, b.Side(r.side));
    NoneCross(r, b.Side(Contra(r.side)));
    hide Insert, HasId, Sorted, OrderFits;
    RestingUncrossed(b, r.side, o);
    RestingIds(b, r.side, o);
  }

  // ---- every call keeps the book fit ----

  // Matching and resting, with a row left for what rests.
  lemma {:induction false} ExecuteKeeps(cap: nat, b: Book, r: Request)
    requires Fits(cap, b) && (r.side == BUY || r.side == SELL) && (r.otype != MARKET ==> r.price > 0)
    requires !HasId(b.bids, r.id) && !HasId(b.asks, r.id)
    requires var m := Match(r, r.qty, b.Side(Contra(r.side)));
        m.rem > 0 && Rests(r) ==> |m.rest| + |b.Side(r.side)| < cap
    ensures Fits(cap, Execute(b, r).book)
  {
    hide Fits, Match, Insert;
    var t := Contra(r.side);
    var s := b.Side(t);
    var m := Match(r, r.qty, s);
    MatchFits(cap, b, r);
    if m.rem > 0 && Rests(r) {
      PositiveSide(cap, b, t);
      var k := SuffixLaw(r, r.qty, s);
      ConsumedNoId(s, m.rest, k, r.id);
      Exhausted(r, r.qty, s);
      MatchLeaves(r, r.qty, s);
      RestingFits(cap, b.WithSide(t, m.rest), r, m.rem);
    }
  }

  lemma ProcessKeeps(cap: nat, b: Book, r: Request)
    requires Fits(cap, b)
    ensures Fits(cap, Process(cap, b, r).book)
  {
    hide Fits, Match, Insert, MaxQty, HasId;
    if Refusal(cap, b, r) == ACCEPTED {
      MatchFits(cap, b, r);
      ExecuteKeeps(cap, b, r);
    }
  }

  lemma PositiveSide(cap: nat, b: Book, t: u64)
    requires Fits(cap, b)
    ensures AllPositive(b.Side(t))
  {
  }

  lemma {:induction false} DropPlace(s: seq<Order>, id: u64) returns (k: nat)
    ensures if HasId(s, id) then k < |s| && s[k].id == id && Drop(s, id) == Without(s, k)
        else k == |s| && Drop(s, id) == s
  {
    if s == [] {
      k := 0;
    } else if s[0].id == id {
      k := 0;
      assert Without(s, 0) == s[1..];
    } else {
      k := DropPlace(s[1..], id);
      forall i | 0 <= i < |s[1..]| ensures s[1..][i] == s[i + 1] {}
      if HasId(s, id) {
        var j :| 0 <= j < |s| && s[j].id == id;
        assert s[1..][j - 1].id == id;
        assert [s[0]] + Without(s[1..], k) == Without(s, k + 1);
      }
      k := k + 1;
    }
  }

  lemma {:induction false} DropFits(t: u64, s: seq<Order>, id: u64)
    requires SideFits(t, s)
    ensures SideFits(t, Drop(s, id)) && |Drop(s, id)| <= |s|
    ensures forall i {:trigger Drop(s, id)[i]} :: 0 <= i < |Drop(s, id)| ==> Drop(s, id)[i] in s
  {
    var k := DropPlace(s, id);
    var n := Drop(s, id);
    hide Drop;
    forall i | 0 <= i < |n| ensures n[i] == s[if i < k then i else i + 1] && n[i] in s {}
  }

  lemma WithoutIds(p: seq<Order>, s: seq<Order>, q: seq<Order>, k: nat)
    requires DistinctIds(p + s + q) && k < |s|
    ensures DistinctIds(p + Without(s, k) + q)
  {
    hide DistinctIds;
    var n, t := |p| + k, p + Without(s, k) + q;
    var at := seq(|t|, c requires 0 <= c < |t| => if c < n then c else c + 1);
    forall c | 0 <= c < |t| ensures at[c] < |p + s + q| && t[c] == (p + s + q)[at[c]] {}
    IdsFrom(p + s + q, t, at);
  }

  lemma {:induction false} DropIds(s: seq<Order>, t: seq<Order>, id: u64)
    requires DistinctIds(s + t)
    ensures DistinctIds(Drop(s, id) + Drop(t, id))
  {
    hide Drop, HasId, DistinctIds;
    var x, y := Drop(s, id), Drop(t, id);
    var i := DropPlace(s, id);
    assert [] + s + t == s + t && [] + x + t == x + t;
    if i < |s| { WithoutIds([], s, t, i); }
    var j := DropPlace(t, id);
    assert x + t + [] == x + t && x + y + [] == x + y;
    if j < |t| { WithoutIds(x, t, [], j); }
  }

  lemma CancelKeeps(cap: nat, b: Book, id: u64)
    requires Fits(cap, b)
    ensures Fits(cap, Cancel(b, id).book)
  {
    var x, y := Drop(b.bids, id), Drop(b.asks, id);
    DropFits(BUY, b.bids, id);
    DropFits(SELL, b.asks, id);
    DropIds(b.bids, b.asks, id);
    hide SideFits, DistinctIds;
    forall i, j | 0 <= i < |x| && 0 <= j < |y| ensures x[i].price < y[j].price {
      var c :| 0 <= c < |b.bids| && x[i] == b.bids[c];
      var d :| 0 <= d < |b.asks| && y[j] == b.asks[d];
    }
  }

  // The quantity cap of requests is one on resting orders.
  lemma ProcessCapped(cap: nat, b: Book, r: Request)
    requires Fits(cap, b) && Capped(cap, b)
    ensures Capped(cap, Process(cap, b, r).book)
  {
    hide Fits, Match, Insert, MaxQty, HasId;
    if Refusal(cap, b, r) == ACCEPTED {
      var t := Contra(r.side);
      var s := b.Side(t);
      var m := Match(r, r.qty, s);
      PositiveSide(cap, b, t);
      var k := SuffixLaw(r, r.qty, s);
      forall i | 0 <= i < |m.rest| ensures m.rest[i].remaining <= m.rest[i].qty <= MaxQty(cap) {
        ConsumedAt(s, m.rest, k, i);
      }
      MatchLeaves(r, r.qty, s);
      var c := b.WithSide(t, m.rest);
      var o, q := Resting(r, m.rem), c.Side(r.side);
      var j := InsertPlace(r.side, o, q);
      var n := Insert(r.side, o, q);
      forall i | 0 <= i < |n| ensures n[i].remaining <= n[i].qty <= MaxQty(cap) {
        assert n[i] == if i < j then q[i] else if i == j then o else q[i - 1];
      }
    }
  }

  lemma CancelCapped(cap: nat, b: Book, id: u64)
    requires Capped(cap, b)
    ensures Capped(cap, Cancel(b, id).book)
  {
    var i := DropPlace(b.bids, id);
    var j := DropPlace(b.asks, id);
  }

  // ---- what is open at a price ----

  lemma {:induction false} AtPriceBelow(cap: nat, s: seq<Order>, price: u64)
    requires CappedSide(cap, s)
    ensures AtPrice(s, price) <= |s| * MaxQty(cap)
  {
    if s != [] {
      hide MaxQty;
      assert s[0].remaining <= MaxQty(cap);
      AtPriceBelow(cap, s[1..], price);
      OneMore(|s[1..]|, MaxQty(cap));
    }
  }

  lemma OneMore(n: nat, x: nat)
    ensures (n + 1) * x == n * x + x
  {
  }

  lemma ProductGrows(a: nat, b: nat, c: nat)
    requires a <= b
    ensures a * c <= b * c
  {
  }

  lemma QuotientFits(a: nat, b: nat)
    requires b > 0
    ensures b * (a / b) <= a
  {
  }

  // Under the quantity cap there is room for one more order at any price, however full the book is.
  lemma {:induction false} PriceFits(cap: nat, s: seq<Order>, price: u64, qty: nat)
    requires CappedSide(cap, s) && |s| <= cap && qty <= MaxQty(cap)
    ensures AtPrice(s, price) + qty < TWO64
  {
    AtPriceBelow(cap, s, price);
    QuotientFits(TWO64 - 1, cap + 1);
    OneMore(|s|, MaxQty(cap));
    ProductGrows(|s| + 1, cap + 1, MaxQty(cap));
  }

  // ---- the handwritten engine ----

  // The book has a level row for every price.
  predicate Leveled(levels: nat, b: Book) {
    |Prices(b.bids)| + |Prices(b.asks)| <= levels
  }

  lemma ConsumedPrices(s: seq<Order>, rest: seq<Order>, k: nat)
    requires Consumed(s, rest, k)
    ensures Prices(rest) <= Prices(s)
  {
    forall i | 0 <= i < |rest| ensures rest[i].price in Prices(s) { ConsumedAt(s, rest, k, i); }
  }

  // A remainder of a request that accepts the best contra price has freed an order row and a level row: an
  // order has left the contra side, and so has a price.
  lemma {:induction false} RemainderFrees(r: Request, rem: u64, s: seq<Order>)
    requires SideFits(Contra(r.side), s) && (r.side == BUY || r.side == SELL) && rem > 0
    ensures |Match(r, rem, s).rest| <= |s| && Prices(Match(r, rem, s).rest) <= Prices(s)
    ensures s == [] || !Crosses(r, s[0].price) ==> Match(r, rem, s) == Matched(rem, s, [])
    ensures s != [] && Crosses(r, s[0].price) && Match(r, rem, s).rem > 0 ==>
        |Match(r, rem, s).rest| < |s| && |Prices(Match(r, rem, s).rest)| < |Prices(s)|
  {
    OrderFrees(r, rem, s);
    Exhausted(r, rem, s);
    var rest := Match(r, rem, s).rest;
    var k := SuffixLaw(r, rem, s);
    hide Match, Consumed;
    ConsumedPrices(s, rest, k);
    if s != [] && Crosses(r, s[0].price) && Match(r, rem, s).rem > 0 {
      ConsumedFits(Contra(r.side), s, rest, k);
      NoneCross(r, rest);
      assert s[0].price in Prices(s) && s[0].price !in Prices(rest);
      SubsetSize(Prices(rest), Prices(s) - {s[0].price});
    }
  }

  // Its result by its own conditions: what is left of a request rests if the rows for it are free once
  // matching is over.
  lemma {:induction false} HandwrittenIs(rows: nat, levels: nat, b: Book, r: Request)
    requires Fits(rows, b) && Leveled(levels, b) && Admits(b, r)
    ensures var s := b.Side(Contra(r.side)); var m := Match(r, r.qty, s); var c := b.WithSide(Contra(r.side), m.rest);
      && |m.rest| <= |s| && Leveled(levels, c)
      && (NoRow(rows, levels, b, r) <==> m.rem > 0 && Rests(r) && PoolsUsedUp(rows, levels, c.bids, c.asks, r))
      && (NoRow(rows, levels, b, r) ==> m.rest == s && m.trades == [])
  {
    hide Match, HasId;
    var s := b.Side(Contra(r.side));
    RemainderFrees(r, r.qty, s);
    hide Prices;
    SubsetSize(Prices(Match(r, r.qty, s).rest), Prices(s));
  }

  lemma {:induction false} InsertPrices(t: u64, o: Order, s: seq<Order>)
    ensures Prices(Insert(t, o, s)) == Prices(s) + {o.price}
  {
    var k := InsertPlace(t, o, s);
    var n := Insert(t, o, s);
    forall i | 0 <= i < |n| ensures n[i] == if i < k then s[i] else if i == k then o else s[i - 1] {}
    forall i | 0 <= i < |s| ensures s[i].price in Prices(n) { assert n[if i < k then i else i + 1] == s[i]; }
    assert n[k] == o;
    hide Insert;
  }

  // It keeps the book fit and its prices within the level rows, whatever the quantities.
  lemma HandwrittenKeeps(rows: nat, levels: nat, b: Book, r: Request)
    requires Fits(rows, b) && Leveled(levels, b)
    ensures Fits(rows, Handwritten(rows, levels, b, r).book) && Leveled(levels, Handwritten(rows, levels, b, r).book)
  {
    hide Fits, Match, Insert, Prices;
    if Admits(b, r) && !NoRow(rows, levels, b, r) {
      HandwrittenIs(rows, levels, b, r);
      ExecuteKeeps(rows, b, r);
      var m := Match(r, r.qty, b.Side(Contra(r.side)));
      InsertPrices(r.side, Resting(r, m.rem), b.Side(r.side));
      assert r.price in Prices(b.Side(r.side)) ==> Prices(b.Side(r.side)) + {r.price} == Prices(b.Side(r.side));
    }
  }

  // The two engines answer alike exactly within the limits of the generated one, or where both refuse.
  lemma EnginesAgree(cap: nat, rows: nat, levels: nat, b: Book, r: Request)
    ensures var g, h := Process(cap, b, r), Handwritten(rows, levels, b, r);
      && ((g.code == ACCEPTED <==> h.ok) <==>
          !Admits(b, r) || (WithinLimits(cap, b, r) <==> !NoRow(rows, levels, b, r)))
      && ((g.code == ACCEPTED <==> h.ok) ==> g.trades == h.trades && g.book == h.book)
  {
    hide Match, Insert, HasId, MaxQty, PoolsUsedUp;
  }

  // ---- whole runs ----

  datatype Command = Submit(r: Request) | CancelId(id: u64)

  function Step(cap: nat, b: Book, c: Command): Outcome {
    match c
    case Submit(r) => Process(cap, b, r)
    case CancelId(id) => Cancel(b, id)
  }

  // The outcome of every call of a run that starts from book b.
  function Outcomes(cap: nat, b: Book, cs: seq<Command>): seq<Outcome>
    decreases |cs|
  {
    if cs == [] then [] else [Step(cap, b, cs[0])] + Outcomes(cap, Step(cap, b, cs[0]).book, cs[1..])
  }

  lemma {:induction false} RunKeeps(cap: nat, b: Book, cs: seq<Command>)
    requires Fits(cap, b) && Capped(cap, b)
    ensures |Outcomes(cap, b, cs)| == |cs|
    ensures forall i {:trigger Outcomes(cap, b, cs)[i]} :: 0 <= i < |cs| ==>
        Fits(cap, Outcomes(cap, b, cs)[i].book) && Capped(cap, Outcomes(cap, b, cs)[i].book)
    decreases |cs|
  {
    if cs != [] {
      hide Fits, Capped, Process, Cancel;
      var o := Step(cap, b, cs[0]);
      match cs[0] {
        case Submit(r) =>
          ProcessKeeps(cap, b, r);
          ProcessCapped(cap, b, r);
        case CancelId(id) =>
          CancelKeeps(cap, b, id);
          CancelCapped(cap, b, id);
      }
      RunKeeps(cap, o.book, cs[1..]);
      var all, later := Outcomes(cap, b, cs), Outcomes(cap, o.book, cs[1..]);
      forall i | 0 <= i < |cs| ensures Fits(cap, all[i].book) && Capped(cap, all[i].book) {
        assert all[i] == if i == 0 then o else later[i - 1];
      }
    }
  }

  // Every book reached from the empty one is sorted, uncrossed and within capacity.
  lemma {:induction false} EveryRunFits(cap: nat, cs: seq<Command>, i: nat)
    requires i < |cs|
    ensures |Outcomes(cap, Book([], []), cs)| == |cs| && Fits(cap, Outcomes(cap, Book([], []), cs)[i].book)
    ensures Capped(cap, Outcomes(cap, Book([], []), cs)[i].book)
  {
    RunKeeps(cap, Book([], []), cs);
  }

  // ---- what undoes what ----

  lemma {:induction false} DropInsert(t: u64, o: Order, s: seq<Order>)
    requires !HasId(s, o.id)
    ensures Drop(Insert(t, o, s), o.id) == s && HasId(Insert(t, o, s), o.id)
  {
    if s == [] || Better(t, o.price, s[0].price) {
      assert Insert(t, o, s)[0].id == o.id && ([o] + s)[1..] == s;
    } else {
      assert s[0].id != o.id;
      forall i | 0 <= i < |s[1..]| ensures s[1..][i].id != o.id { assert s[1..][i] == s[i + 1]; }
      DropInsert(t, o, s[1..]);
      var n := Insert(t, o, s[1..]);
      assert ([s[0]] + n)[1..] == n;
      var j :| 0 <= j < |n| && n[j].id == o.id;
      assert Insert(t, o, s)[j + 1].id == o.id;
    }
  }

  // An order that rests without matching is undone by its cancel: the book is as it was.
  lemma RoundTrip(cap: nat, b: Book, r: Request)
    requires Process(cap, b, r).code == ACCEPTED && Rests(r)
    requires var c := b.Side(Contra(r.side)); c == [] || !Crosses(r, c[0].price)
    ensures Cancel(Process(cap, b, r).book, r.id) == Outcome(CANCELLED, [], b)
  {
    var s := b.Side(r.side);
    DropInsert(r.side, Resting(r, r.qty), s);
    var i := DropPlace(b.bids, r.id);
    var j := DropPlace(b.asks, r.id);
  }

  // An order on the book keeps its id from being used again.
  lemma {:induction false} NoReuse(cap: nat, b: Book, r: Request, again: Request)
    requires Process(cap, b, r).code == ACCEPTED && Rests(r) && Match(r, r.qty, b.Side(Contra(r.side))).rem > 0
    requires again.id == r.id
    ensures Process(cap, Process(cap, b, r).book, again).code in {BAD_TYPE, BAD_FIELD, DUPLICATE}
  {
    var m := Match(r, r.qty, b.Side(Contra(r.side)));
    DropInsert(r.side, Resting(r, m.rem), b.Side(r.side));
  }

  lemma {:induction false} DropTwice(s: seq<Order>, x: u64, y: u64)
    requires x != y
    ensures Drop(Drop(s, x), y) == Drop(Drop(s, y), x)
    ensures HasId(Drop(s, x), y) <==> HasId(s, y)
  {
    if s != [] {
      DropTwice(s[1..], x, y);
      var i := DropPlace(s, x);
      var j := DropPlace(s, y);
      forall k | 0 <= k < |Drop(s, x)| ensures Drop(s, x)[k] == s[if k < i then k else k + 1] {}
      if HasId(s, y) { assert Drop(s, x)[if j < i then j else j - 1].id == y; }
    }
  }

  // Cancels of two ids commute, and neither changes what the other reports.
  lemma CancelsCommute(b: Book, x: u64, y: u64)
    requires x != y
    ensures Cancel(Cancel(b, x).book, y).book == Cancel(Cancel(b, y).book, x).book
    ensures Cancel(Cancel(b, x).book, y).code == Cancel(b, y).code
  {
    DropTwice(b.bids, x, y);
    DropTwice(b.asks, x, y);
    DropTwice(b.bids, y, x);
    DropTwice(b.asks, y, x);
    var i := DropPlace(b.bids, x);
    var j := DropPlace(b.asks, x);
    var k := DropPlace(b.bids, y);
    var l := DropPlace(b.asks, y);
  }

  // ---- an accepted request, seen from the side it matched against ----

  // Flattened in price-time order, the contra side after an accepted request is a suffix of it before,
  // with at most one order reduced; what other accounts lost there is what was traded.
  lemma AcceptedSuffix(cap: nat, b: Book, r: Request) returns (k: nat)
    requires Fits(cap, b) && Process(cap, b, r).code == ACCEPTED
    ensures var s, o := b.Side(Contra(r.side)), Process(cap, b, r); var rest := o.book.Side(Contra(r.side));
      && Consumed(s, rest, k)
      && Open(s) - Own(r, s) == Traded(o.trades) + Open(rest) - Own(r, rest)
  {
    PositiveSide(cap, b, Contra(r.side));
    k := SuffixLaw(r, r.qty, b.Side(Contra(r.side)));
    Conservation(r, r.qty, b.Side(Contra(r.side)));
  }
}
