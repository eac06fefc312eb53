/** The run-time checker.  It walks whatever the links lead to, so nothing is assumed of the
    state but that the rows it can reach are finitely many and that chains and spines end. */
module Checker {
  import opened Lists
  import opened Types
  import opened Rows
  import opened EngineDb
  import Llist

  // The rows within reach, how far each is from the end of its hash chain, and the spines to the best levels.
  datatype Reach = Reach(orders: set<OrderRow>, levels: set<LevelRow>, rank: map<OrderRow, nat>,
                         bidSpine: seq<LevelRow>, askSpine: seq<LevelRow>)

  // A price tree read off its links, each level with its queue.
  datatype Tree = Leaf | Node(left: Tree, row: LevelRow, queue: seq<OrderRow>, right: Tree)

  function Levels(t: Tree): seq<LevelRow> {
    match t
    case Leaf => []
    case Node(l, x, q, r) => Levels(l) + [x] + Levels(r)
  }

  function Orders(t: Tree): seq<OrderRow> {
    match t
    case Leaf => []
    case Node(l, x, q, r) => Orders(l) + q + Orders(r)
  }

  function Sum(q: seq<OrderRow>): nat
    reads q`remaining
  {
    if q == [] then 0 else Sum(q[..|q| - 1]) + q[|q| - 1].remaining
  }

  ghost predicate OrderIn(g: Reach, o: OrderRow?) {
    o == null || o in g.orders
  }

  ghost predicate LevelIn(g: Reach, l: LevelRow?) {
    l == null || l in g.levels
  }

  ghost predicate OrderClosed(g: Reach, o: OrderRow)
    reads o`next, o`hashNext
  {
    OrderIn(g, o.next) && OrderIn(g, o.hashNext) && o in g.rank
        && (o.hashNext != null ==> o.hashNext in g.rank && g.rank[o.hashNext] < g.rank[o])
  }

  ghost predicate LevelClosed(g: Reach, l: LevelRow)
    reads l`head, l`left, l`right
  {
    OrderIn(g, l.head) && LevelIn(g, l.left) && LevelIn(g, l.right)
  }

  // Links lead to rows within reach, and hash chains end.
  ghost predicate Closed(s: EngineDb, g: Reach)
    reads s.index.buckets, g.orders, g.levels
  {
    && s.index.buckets.Length > 0 && |g.orders| < TWO32 && |g.levels| < TWO32
    && (forall b {:trigger s.index.buckets[b]} :: 0 <= b < s.index.buckets.Length ==> OrderIn(g, s.index.buckets[b]))
    && (forall o {:trigger OrderClosed(g, o)} :: o in g.orders ==> OrderClosed(g, o))
    && (forall l {:trigger LevelClosed(g, l)} :: l in g.levels ==> LevelClosed(g, l))
  }

  // ---- the hash index ----

  ghost function Rank(g: Reach, p: OrderRow?): nat {
    if p != null && p in g.rank then g.rank[p] + 1 else 0
  }

  ghost function Chain(s: EngineDb, g: Reach, p: OrderRow?): (q: seq<OrderRow>)
    requires Closed(s, g) && OrderIn(g, p)
    reads s.index.buckets, g.orders, g.levels
    ensures forall i {:trigger q[i]} :: 0 <= i < |q| ==> q[i] in g.orders
    decreases Rank(g, p)
  {
    if p == null then [] else assert OrderClosed(g, p); [p] + Chain(s, g, p.hashNext)
  }

  ghost function Bucket(s: EngineDb, g: Reach, b: int): (q: seq<OrderRow>)
    requires Closed(s, g) && 0 <= b < s.index.buckets.Length
    reads s.index.buckets, g.orders, g.levels
    ensures forall i {:trigger q[i]} :: 0 <= i < |q| ==> q[i] in g.orders
  {
    Chain(s, g, s.index.buckets[b])
  }

  // The entries of the first n buckets.
  ghost function Entries(s: EngineDb, g: Reach, n: nat): (q: seq<OrderRow>)
    requires Closed(s, g) && n <= s.index.buckets.Length
    reads s.index.buckets, g.orders, g.levels
    ensures forall i {:trigger q[i]} :: 0 <= i < |q| ==> q[i] in g.orders
  {
    if n == 0 then [] else Entries(s, g, n - 1) + Bucket(s, g, n - 1)
  }

  function First(q: seq<OrderRow>, id: u64): OrderRow?
    reads q`id
  {
    if q == [] then null else if q[0].id == id then q[0] else First(q[1..], id)
  }

  ghost predicate Found(s: EngineDb, g: Reach, o: OrderRow)
    requires Closed(s, g)
    reads o`id, s.index.buckets, g.orders, g.levels
  {
    First(Bucket(s, g, o.id % s.index.buckets.Length), o.id) == o
  }

  method Find(s: EngineDb, id: u64, ghost g: Reach) returns (p: OrderRow?)
    requires Closed(s, g)
    ensures p == First(Bucket(s, g, id % s.index.buckets.Length), id)
  {
    p := s.index.buckets[id % s.index.buckets.Length];
    while p != null
      invariant OrderIn(g, p) && First(Bucket(s, g, id % s.index.buckets.Length), id) == First(Chain(s, g, p), id)
      decreases Rank(g, p)
    {
      assert OrderClosed(g, p);
      if p.id == id { return p; }
      assert Chain(s, g, p)[1..] == Chain(s, g, p.hashNext);
      p := p.hashNext;
    }
  }

  // ---- one level ----

  ghost predicate OrderFits(l: LevelRow, side: u64, o: OrderRow)
    reads l`price, o`price, o`side, o`remaining, o`qty, o`inHash
  {
    o.price == l.price && o.side == side && 0 < o.remaining <= o.qty && o.inHash
  }

  // q is exactly the queue of level l: every link, flag and count says so.
  ghost predicate LevelGood(l: LevelRow, side: u64, q: seq<OrderRow>)
    reads l`price, l`head, l`tail, l`count, l`total
    reads q`next, q`prev, q`inList, q`level, q`price, q`side, q`remaining, q`qty, q`inHash
  {
    && q != [] && Llist.QueueOk(l, q) && l.total == Sum(q) % TWO64
    && (forall i {:trigger q[i]} :: 0 <= i < |q| ==> OrderFits(l, side, q[i]))
  }

  ghost predicate AllFound(s: EngineDb, g: Reach, q: seq<OrderRow>)
    requires Closed(s, g)
    reads q`id, s.index.buckets, g.orders, g.levels
  {
    forall i {:trigger q[i]} :: 0 <= i < |q| ==> q[i] in g.orders && Found(s, g, q[i])
  }

  // What the walk has established of the i-th row it has passed.
  ghost predicate Passed(s: EngineDb, g: Reach, l: LevelRow, side: u64, q: seq<OrderRow>, i: int)
    requires Closed(s, g) && 0 <= i < |q|
    reads l`price, l`head, s.index.buckets, g.orders, g.levels, q
  {
    && q[i] in g.orders && Found(s, g, q[i]) && OrderFits(l, side, q[i])
    && q[i].prev == RowAt(q, i - 1) && q[i].inList && q[i].level == l
    && (if i == 0 then l.head == q[0] else q[i - 1].next == q[i])
  }

  // The link back to the previous row tells a new row from one already passed.
  lemma NotSeen(q: seq<OrderRow>, o: OrderRow)
    requires Distinct(q) && (forall i {:trigger q[i]} :: 0 <= i < |q| ==> q[i].prev == RowAt(q, i - 1))
    requires o.prev == RowAt(q, |q| - 1)
    ensures o !in q
  {
    forall i | 0 <= i < |q| ensures q[i] != o {
      assert i > 0 ==> q[i - 1] != q[|q| - 1];
    }
  }

  // What a sound queue offers the walk after its prefix q.
  lemma WantNext(s: EngineDb, g: Reach, l: LevelRow, side: u64, want: seq<OrderRow>, q: seq<OrderRow>, o: OrderRow?)
    requires Closed(s, g) && LevelGood(l, side, want) && AllFound(s, g, want) && q <= want
    requires o == if q == [] then l.head else q[|q| - 1].next
    ensures o == RowAt(want, |q|)
    ensures o != null ==>
        o.prev == RowAt(q, |q| - 1) && o.level == l && OrderFits(l, side, o) && o.inList && Found(s, g, o)
        && q + [o] <= want
    ensures o == null ==> q == want
  {
    var m := |q|;
    if m > 0 { assert Llist.Linked(l, want, m - 1); }
    if m < |want| { assert Llist.Linked(l, want, m) && OrderFits(l, side, want[m]) && want[m] in g.orders; }
  }

  lemma {:induction false} WantLevel(l: LevelRow, side: u64, want: seq<OrderRow>)
    requires LevelGood(l, side, want)
    ensures l.count == |want| > 0 && l.tail == want[|want| - 1] && l.total == Sum(want) % TWO64
  {
  }

  // The walk has passed q and come to o.
  ghost predicate Walked(s: EngineDb, g: Reach, l: LevelRow, side: u64, q: seq<OrderRow>, o: OrderRow?)
    requires Closed(s, g)
    reads l`price, l`head, s.index.buckets, g.orders, g.levels, q
  {
    && Distinct(q) && |q| <= |g.orders| && OrderIn(g, o)
    && o == (if q == [] then l.head else q[|q| - 1].next)
    && forall i {:trigger Passed(s, g, l, side, q, i)} :: 0 <= i < |q| ==> Passed(s, g, l, side, q, i)
  }

  lemma WalkStart(s: EngineDb, g: Reach, l: LevelRow, side: u64)
    requires Closed(s, g) && l in g.levels
    ensures Walked(s, g, l, side, [], l.head) && Sum([]) == 0
  {
    assert LevelClosed(g, l);
  }

  lemma {:induction false} WalkOn(s: EngineDb, g: Reach, l: LevelRow, side: u64, q: seq<OrderRow>, o: OrderRow)
    requires Closed(s, g) && Walked(s, g, l, side, q, o) && Found(s, g, o) && OrderFits(l, side, o)
    requires o.prev == RowAt(q, |q| - 1) && o.inList && o.level == l
    ensures Walked(s, g, l, side, q + [o], o.next) && RowAt(q + [o], |q|) == o && |q| < |g.orders|
    ensures Sum(q + [o]) == Sum(q) + o.remaining
  {
    hide Closed, OrderFits, Found, Passed, Sum;
    NextIn(s, g, l, side, q, o);
    PassedPrev(s, g, l, side, q);
    NotSeen(q, o);
    SumMore(q, o);
    var p := q + [o];
    PassedNew(s, g, l, side, q, o);
    forall i | 0 <= i <= |q| ensures Passed(s, g, l, side, p, i) { if i < |q| { PassedStill(s, g, l, side, q, o, i); } }
    PassedLive(s, g, l, side, p);
    DistinctBelow(p, g.orders);
  }

  lemma NextIn(s: EngineDb, g: Reach, l: LevelRow, side: u64, q: seq<OrderRow>, o: OrderRow)
    requires Closed(s, g) && OrderIn(g, o)
    ensures OrderIn(g, o.next) && o in g.orders
  {
    assert OrderClosed(g, o);
  }

  lemma {:induction false} SumMore(q: seq<OrderRow>, o: OrderRow)
    ensures Sum(q + [o]) == Sum(q) + o.remaining
  {
    assert (q + [o])[..|q|] == q;
  }

  lemma PassedPrev(s: EngineDb, g: Reach, l: LevelRow, side: u64, q: seq<OrderRow>)
    requires Closed(s, g)
    requires forall i {:trigger Passed(s, g, l, side, q, i)} :: 0 <= i < |q| ==> Passed(s, g, l, side, q, i)
    ensures forall i {:trigger q[i]} :: 0 <= i < |q| ==> q[i].prev == RowAt(q, i - 1)
  {
    forall i | 0 <= i < |q| ensures q[i].prev == RowAt(q, i - 1) { assert Passed(s, g, l, side, q, i); }
  }

  lemma PassedLive(s: EngineDb, g: Reach, l: LevelRow, side: u64, q: seq<OrderRow>)
    requires Closed(s, g)
    requires forall i {:trigger Passed(s, g, l, side, q, i)} :: 0 <= i < |q| ==> Passed(s, g, l, side, q, i)
    ensures forall i {:trigger q[i]} :: 0 <= i < |q| ==> q[i] in g.orders
  {
    forall i | 0 <= i < |q| ensures q[i] in g.orders { assert Passed(s, g, l, side, q, i); }
  }

  lemma PassedStill(s: EngineDb, g: Reach, l: LevelRow, side: u64, q: seq<OrderRow>, o: OrderRow, i: nat)
    requires Closed(s, g) && i < |q| && Passed(s, g, l, side, q, i)
    ensures Passed(s, g, l, side, q + [o], i)
  {
  }

  lemma PassedNew(s: EngineDb, g: Reach, l: LevelRow, side: u64, q: seq<OrderRow>, o: OrderRow)
    requires Closed(s, g) && o in g.orders && Found(s, g, o) && OrderFits(l, side, o) && o.prev == RowAt(q, |q| - 1)
    requires o.inList && o.level == l
    requires o == if q == [] then l.head else q[|q| - 1].next
    ensures Passed(s, g, l, side, q + [o], |q|)
  {
  }

  lemma {:induction false} WalkEnd(s: EngineDb, g: Reach, l: LevelRow, side: u64, q: seq<OrderRow>)
    requires Closed(s, g) && Walked(s, g, l, side, q, null) && l.tail == RowAt(q, |q| - 1) && l.count == |q| > 0
    requires l.total == Sum(q) % TWO64
    ensures LevelGood(l, side, q) && AllFound(s, g, q)
  {
    PassedAll(s, g, l, side, q);
  }

  // What a sound queue offers the walk at o.
  lemma {:induction false} WantWalk(s: EngineDb, g: Reach, l: LevelRow, side: u64, want: seq<OrderRow>,
          q: seq<OrderRow>, o: OrderRow?)
    requires Closed(s, g) && LevelGood(l, side, want) && AllFound(s, g, want) && q <= want
    requires Walked(s, g, l, side, q, o)
    ensures o != null ==>
        o.prev == RowAt(q, |q| - 1) && o.level == l && OrderFits(l, side, o) && o.inList && Found(s, g, o)
        && q + [o] <= want
    ensures o == null ==> q == want && l.tail == RowAt(q, |q| - 1) && l.count == |q| > 0 && l.total == Sum(q) % TWO64
  {
    WantNext(s, g, l, side, want, q, o);
    WantLevel(l, side, want);
  }

  lemma FewOrders(s: EngineDb, g: Reach)
    requires Closed(s, g)
    ensures |g.orders| < TWO32
  {
  }

  lemma WrapMore(a: nat, b: nat)
    ensures (a % TWO64 + b) % TWO64 == (a + b) % TWO64
  {
  }

  // A walk that has passed the whole list, ending at the tail, has read the queue.
  lemma {:induction false} PassedAll(s: EngineDb, g: Reach, l: LevelRow, side: u64, q: seq<OrderRow>)
    requires Closed(s, g) && Distinct(q) && q != []
    requires forall i {:trigger Passed(s, g, l, side, q, i)} :: 0 <= i < |q| ==> Passed(s, g, l, side, q, i)
    requires q[|q| - 1].next == null && l.tail == q[|q| - 1] && l.count == |q| && l.total == Sum(q) % TWO64
    ensures LevelGood(l, side, q) && AllFound(s, g, q)
  {
    forall i | 0 <= i < |q|
        ensures Llist.Linked(l, q, i) && OrderFits(l, side, q[i]) && q[i] in g.orders && Found(s, g, q[i]) {
      assert Passed(s, g, l, side, q, i);
      if i + 1 < |q| { assert Passed(s, g, l, side, q, i + 1); }
    }
    assert Passed(s, g, l, side, q, 0);
  }

  // The checks on one order of the walk.
  method ValidateOrder(s: EngineDb, l: LevelRow, side: u64, prev: OrderRow?, o: OrderRow, ghost g: Reach)
    returns (ok: bool)
    requires Closed(s, g)
    ensures ok <==> o.prev == prev && o.level == l && OrderFits(l, side, o) && o.inList && Found(s, g, o)
  {
    if o.prev != prev { return false; }
    if o.level != l { return false; }
    if o.price != l.price { return false; }
    if o.side != side { return false; }
    if o.remaining == 0 || o.remaining > o.qty { return false; }
    if !o.inList { return false; }
    if !o.inHash { return false; }
    var p := Find(s, o.id, g);
    ok := p == o;
  }

  method ValidatePriceLevel(s: EngineDb, l: LevelRow, side: u64, ghost g: Reach, ghost want: seq<OrderRow>)
    returns (ok: bool, count: u32, ghost q: seq<OrderRow>)
    requires Closed(s, g) && l in g.levels
    ensures ok ==> LevelGood(l, side, q) && AllFound(s, g, q) && count == |q|
    ensures LevelGood(l, side, want) && AllFound(s, g, want) ==> ok
  {
    hide Walked, Closed, OrderClosed, LevelClosed, OrderIn, AllFound, Found, Sum, LevelGood, OrderFits, RowAt, Chain,
        Bucket, First;
    ghost var wanted := LevelGood(l, side, want) && AllFound(s, g, want);
    ok, count, q := false, 0, [];
    FewOrders(s, g);
    if wanted { WantLevel(l, side, want); }
    if l.count == 0 { return; }
    var sum: u64 := 0;
    var prev: OrderRow? := null;
    var o := l.head;
    WalkStart(s, g, l, side);
    NoRowYet();
    while o != null
      invariant Walked(s, g, l, side, q, o) && prev == RowAt(q, |q| - 1) && !ok
      invariant count == |q| <= |g.orders| && sum == Sum(q) % TWO64
      invariant wanted ==> q <= want
      decreases |g.orders| - |q|
    {
      if wanted { WantWalk(s, g, l, side, want, q, o); }
      var fine := ValidateOrder(s, l, side, prev, o, g);
      if !fine { return; }
      WalkOn(s, g, l, side, q, o);
      WrapMore(Sum(q), o.remaining);
      q := q + [o];
      sum := (sum + o.remaining) % TWO64;
      count := (count + 1) % TWO32;
      prev := o;
      o := o.next;
    }
    if wanted { WantWalk(s, g, l, side, want, q, null); }
    if l.tail != prev { return; }
    if l.count != count { return; }
    if l.total != sum { return; }
    ok := true;
    WalkEnd(s, g, l, side, q);
  }

  lemma NoRowYet()
    ensures RowAt([], -1) == null
  {
  }

  // ---- one tree ----

  ghost predicate QueueIn(g: Reach, q: seq<OrderRow>) {
    forall i {:trigger q[i]} :: 0 <= i < |q| ==> q[i] in g.orders
  }

  // t is the tree at link p, whose root hangs from `up`: links, flags and queues all agree.
  ghost predicate Mirrors(g: Reach, t: Tree, p: LevelRow?, up: LevelRow?, side: u64)
    reads g.levels, g.orders
  {
    match t
    case Leaf => p == null
    case Node(l, x, q, r) =>
      && p == x && x in g.levels && x.parent == up && x.inTree && QueueIn(g, q) && LevelGood(x, side, q)
      && Mirrors(g, l, x.left, x, side) && Mirrors(g, r, x.right, x, side)
  }

  ghost predicate Ascending(ls: seq<LevelRow>)
    reads ls`price
  {
    forall i, j {:trigger ls[i], ls[j]} :: 0 <= i < j < |ls| ==> ls[i].price < ls[j].price
  }

  ghost predicate Between(ls: seq<LevelRow>, lo: int, hi: int)
    reads ls`price
  {
    forall i {:trigger ls[i]} :: 0 <= i < |ls| ==> lo < ls[i].price < hi
  }

  // What validation establishes node by node: each price lies in the interval its ancestors leave open.
  ghost predicate Nested(s: EngineDb, g: Reach, t: Tree, p: LevelRow?, up: LevelRow?, side: u64, lo: int, hi: int)
    requires Closed(s, g)
    reads s.index.buckets, g.orders, g.levels
  {
    match t
    case Leaf => p == null
    case Node(l, x, q, r) =>
      && p == x && x in g.levels && x.parent == up && x.inTree && lo < x.price < hi && QueueIn(g, q)
          && LevelGood(x, side, q) && AllFound(s, g, q)
      && Nested(s, g, l, x.left, x, side, lo, x.price) && Nested(s, g, r, x.right, x, side, x.price, hi)
  }

  // Interval by interval is the same as in ascending order throughout.
  lemma {:induction false} NestedIff(s: EngineDb, g: Reach, t: Tree, p: LevelRow?, up: LevelRow?, side: u64, lo: int,
          hi: int)
    requires Closed(s, g)
    ensures Nested(s, g, t, p, up, side, lo, hi) <==>
      Mirrors(g, t, p, up, side) && Ascending(Levels(t)) && Between(Levels(t), lo, hi) && AllFound(s, g, Orders(t))
  {
    if t.Node? {
      var l, x, q, r := t.left, t.row, t.queue, t.right;
      NestedIff(s, g, l, x.left, x, side, lo, x.price);
      NestedIff(s, g, r, x.right, x, side, x.price, hi);
      AscendingSplit(Levels(l), x, Levels(r), lo, hi);
      FoundSplit(s, g, Orders(l), q, Orders(r));
    }
  }

  lemma AscendingSplit(a: seq<LevelRow>, x: LevelRow, b: seq<LevelRow>, lo: int, hi: int)
    ensures Ascending(a + [x] + b) && Between(a + [x] + b, lo, hi) <==>
      lo < x.price < hi && Ascending(a) && Between(a, lo, x.price) && Ascending(b) && Between(b, x.price, hi)
  {
    hide Ascending, Between;
    if Ascending(a + [x] + b) && Between(a + [x] + b, lo, hi) { AscendingParts(a, x, b, lo, hi); }
    if lo < x.price < hi && Ascending(a) && Between(a, lo, x.price) && Ascending(b) && Between(b, x.price, hi) {
      AscendingWhole(a, x, b, lo, hi);
    }
  }

  lemma AscendingParts(a: seq<LevelRow>, x: LevelRow, b: seq<LevelRow>, lo: int, hi: int)
    requires Ascending(a + [x] + b) && Between(a + [x] + b, lo, hi)
    ensures lo < x.price < hi && Ascending(a) && Between(a, lo, x.price) && Ascending(b) && Between(b, x.price, hi)
  {
    var c, n := a + [x] + b, |a|;
    assert c[n] == x;
    forall i | 0 <= i < |a| ensures c[i] == a[i] {}
    forall i | 0 <= i < |b| ensures c[n + 1 + i] == b[i] {}
  }

  lemma AscendingWhole(a: seq<LevelRow>, x: LevelRow, b: seq<LevelRow>, lo: int, hi: int)
    requires lo < x.price < hi && Ascending(a) && Between(a, lo, x.price) && Ascending(b) && Between(b, x.price, hi)
    ensures Ascending(a + [x] + b) && Between(a + [x] + b, lo, hi)
  {
    var c, n := a + [x] + b, |a|;
    forall i | 0 <= i < |c| ensures c[i] == if i < n then a[i] else if i == n then x else b[i - n - 1] {}
    forall i, j | 0 <= i < j < |c| ensures c[i].price < c[j].price {
      assert i < n ==> a[i].price < x.price;
      assert j > n ==> x.price < b[j - n - 1].price;
    }
  }

  lemma FoundSplit(s: EngineDb, g: Reach, a: seq<OrderRow>, b: seq<OrderRow>, c: seq<OrderRow>)
    requires Closed(s, g)
    ensures AllFound(s, g, a + b + c) <==> AllFound(s, g, a) && AllFound(s, g, b) && AllFound(s, g, c)
  {
    var d := a + b + c;
    assert (forall i | 0 <= i < |a| :: d[i] == a[i]) && (forall i | 0 <= i < |b| :: d[|a| + i] == b[i]);
    assert (forall i | 0 <= i < |c| :: d[|a| + |b| + i] == c[i]);
  }

  // The checks on one row of the tree and on its queue.
  method ValidateNode(s: EngineDb, p: LevelRow, up: LevelRow?, minPrice: u64, maxPrice: u64, hasMin: bool,
          hasMax: bool, side: u64, ghost g: Reach, ghost want: seq<OrderRow>)
    returns (ok: bool, count: u32, ghost q: seq<OrderRow>)
    requires Closed(s, g) && p in g.levels
    ensures var lo, hi := if hasMin then minPrice else -1, if hasMax then maxPrice else TWO64;
      && (ok ==>
          p.parent == up && p.inTree && lo < p.price < hi && LevelGood(p, side, q) && AllFound(s, g, q) && count == |q|)
      && (p.parent == up && p.inTree && lo < p.price < hi && LevelGood(p, side, want) && AllFound(s, g, want) ==> ok)
  {
    hide Closed, LevelGood, AllFound, OrderFits, Found, OrderClosed, LevelClosed, OrderIn;
    ok, count, q := false, 0, [];
    if p.parent != up { return; }
    if !p.inTree { return; }
    if hasMin && p.price <= minPrice { return; }
    if hasMax && p.price >= maxPrice { return; }
    ok, count, q := ValidatePriceLevel(s, p, side, g, want);
  }

  // Validates the subtree at link p within the open interval of prices, counting levels and orders.
  method ValidateBst(s: EngineDb, p: LevelRow?, up: LevelRow?, minPrice: u64, maxPrice: u64, hasMin: bool, hasMax: bool,
          nodes0: u32, side: u64, orders0: u32, ghost g: Reach, ghost want: Tree)
    returns (ok: bool, nodes: u32, orders: u32, ghost t: Tree)
    requires Closed(s, g) && LevelIn(g, p)
    ensures var lo, hi := if hasMin then minPrice else -1, if hasMax then maxPrice else TWO64;
      && (ok ==>
          Nested(s, g, t, p, up, side, lo, hi) && nodes == (nodes0 + |Levels(t)|) % TWO32
          && orders == (orders0 + |Orders(t)|) % TWO32)
      && (Nested(s, g, want, p, up, side, lo, hi) ==> ok)
    decreases (if hasMax then maxPrice else TWO64) - (if hasMin then minPrice else -1)
  {
    hide Closed, LevelGood, AllFound, QueueIn, Nested, Levels, Orders, LevelIn, LevelClosed, OrderClosed, OrderIn,
        OrderFits, Found;
    ghost var lo, hi := if hasMin then minPrice else -1, if hasMax then maxPrice else TWO64;
    ok, nodes, orders, t := false, nodes0, orders0, Leaf;
    NestedLeaf(s, g, up, side, lo, hi);
    assert Levels(Leaf) == [] && Orders(Leaf) == [] by { LeafEmpty(); }
    if p == null { return true, nodes, orders, t; }
    InReach(g, p);
    ghost var (wl, wq, wr) := if want.Node? then (want.left, want.queue, want.right) else (Leaf, [], Leaf);
    NestedWanted(s, g, want, p, up, side, lo, hi);
    ghost var l, r, q := Leaf, Leaf, [];
    var fine, count;
    fine, count, q := ValidateNode(s, p, up, minPrice, maxPrice, hasMin, hasMax, side, g, wq);
    if !fine { return; }
    orders := (orders + count) % TWO32;
    nodes := (nodes + 1) % TWO32;
    NodeClosed(s, g, p);
    fine, nodes, orders, l := ValidateBst(s, p.left, p, minPrice, p.price, hasMin, true, nodes, side, orders, g, wl);
    if !fine { return; }
    fine, nodes, orders, r := ValidateBst(s, p.right, p, p.price, maxPrice, true, hasMax, nodes, side, orders, g, wr);
    if !fine { return; }
    ok := true;
    t := Node(l, p, q, r);
    NestedNode(s, g, l, p, q, r, up, side, lo, hi);
    Tally(nodes0, orders0, l, p, q, r);
  }

  // Both counts, row by row.
  lemma {:induction false} Tally(nodes: u32, orders: u32, l: Tree, p: LevelRow, q: seq<OrderRow>, r: Tree)
    ensures (((nodes + 1) % TWO32 + |Levels(l)|) % TWO32 + |Levels(r)|) % TWO32 ==
        (nodes + |Levels(Node(l, p, q, r))|) % TWO32
    ensures (((orders + |q|) % TWO32 + |Orders(l)|) % TWO32 + |Orders(r)|) % TWO32 ==
        (orders + |Orders(Node(l, p, q, r))|) % TWO32
  {
    hide Levels, Orders;
    NodeSizes(l, p, q, r);
    SumWraps(nodes, 1, |Levels(l)|, |Levels(r)|);
    SumWraps(orders, |q|, |Orders(l)|, |Orders(r)|);
  }

  lemma LeafEmpty()
    ensures Levels(Leaf) == [] && Orders(Leaf) == []
  {
  }

  lemma {:induction false} NodeSizes(l: Tree, p: LevelRow, q: seq<OrderRow>, r: Tree)
    ensures |Levels(Node(l, p, q, r))| == |Levels(l)| + 1 + |Levels(r)|
    ensures |Orders(Node(l, p, q, r))| == |Orders(l)| + |q| + |Orders(r)|
  {
  }

  lemma {:induction false} NestedLeaf(s: EngineDb, g: Reach, up: LevelRow?, side: u64, lo: int, hi: int)
    requires Closed(s, g)
    ensures Nested(s, g, Leaf, null, up, side, lo, hi)
  {
  }

  lemma {:induction false} NestedNode(s: EngineDb, g: Reach, l: Tree, p: LevelRow, q: seq<OrderRow>, r: Tree,
          up: LevelRow?, side: u64, lo: int, hi: int)
    requires Closed(s, g) && p in g.levels && p.parent == up && p.inTree && lo < p.price < hi && LevelGood(p, side, q)
    requires AllFound(s, g, q)
    requires Nested(s, g, l, p.left, p, side, lo, p.price) && Nested(s, g, r, p.right, p, side, p.price, hi)
    ensures Nested(s, g, Node(l, p, q, r), p, up, side, lo, hi)
  {
  }

  // What the tree wanted at a non-null link has to show for itself.
  lemma {:induction false} NestedWanted(s: EngineDb, g: Reach, want: Tree, p: LevelRow, up: LevelRow?, side: u64,
          lo: int, hi: int)
    requires Closed(s, g)
    ensures Nested(s, g, want, p, up, side, lo, hi) ==>
      && want.Node? && p.parent == up && p.inTree && lo < p.price < hi && LevelGood(p, side, want.queue)
          && AllFound(s, g, want.queue)
      && Nested(s, g, want.left, p.left, p, side, lo, p.price)
          && Nested(s, g, want.right, p.right, p, side, p.price, hi)
  {
  }

  // Counting in steps, each modulo 2^32, is counting modulo 2^32.
  lemma SumWraps(a: nat, b: nat, c: nat, d: nat)
    ensures (((a + b) % TWO32 + c) % TWO32 + d) % TWO32 == (a + (c + b + d)) % TWO32
  {
    AddWraps(a + b, c);
    AddWraps(a + b + c, d);
  }

  lemma AddWraps(a: nat, b: nat)
    ensures (a % TWO32 + b) % TWO32 == (a + b) % TWO32
  {
  }

  lemma InReach(g: Reach, p: LevelRow)
    requires LevelIn(g, p)
    ensures p in g.levels
  {
  }

  lemma NodeClosed(s: EngineDb, g: Reach, l: LevelRow)
    requires Closed(s, g) && l in g.levels
    ensures LevelIn(g, l.left) && LevelIn(g, l.right)
  {
    assert LevelClosed(g, l);
  }

  // ---- the best levels, before anything is known of the trees ----

  function LevelAt(ls: seq<LevelRow>, i: int): LevelRow? {
    if 0 <= i < |ls| then ls[i] else null
  }

  // The links to the right from p end after these rows.
  ghost predicate RightSpine(p: LevelRow?, spine: seq<LevelRow>)
    reads spine`right
  {
    p == LevelAt(spine, 0) && forall i {:trigger spine[i]} :: 0 <= i < |spine| ==>
        spine[i].right == LevelAt(spine, i + 1)
  }

  ghost predicate LeftSpine(p: LevelRow?, spine: seq<LevelRow>)
    reads spine`left
  {
    p == LevelAt(spine, 0) && forall i {:trigger spine[i]} :: 0 <= i < |spine| ==>
        spine[i].left == LevelAt(spine, i + 1)
  }

  method Rightmost(p: LevelRow?, ghost spine: seq<LevelRow>) returns (l: LevelRow?)
    requires RightSpine(p, spine)
    ensures l == LevelAt(spine, |spine| - 1)
  {
    l := p;
    if l == null { return; }
    ghost var i := 0;
    while l.right != null
      invariant 0 <= i < |spine| && l == spine[i]
      decreases |spine| - i
    {
      l := l.right;
      i := i + 1;
    }
  }

  method Leftmost(p: LevelRow?, ghost spine: seq<LevelRow>) returns (l: LevelRow?)
    requires LeftSpine(p, spine)
    ensures l == LevelAt(spine, |spine| - 1)
  {
    l := p;
    if l == null { return; }
    ghost var i := 0;
    while l.left != null
      invariant 0 <= i < |spine| && l == spine[i]
      decreases |spine| - i
    {
      l := l.left;
      i := i + 1;
    }
  }

  // On a sound tree the right spine ends at the last level and the left spine at the first.
  lemma {:induction false} RightSpineEnds(g: Reach, t: Tree, p: LevelRow?, up: LevelRow?, side: u64,
          spine: seq<LevelRow>)
    requires Mirrors(g, t, p, up, side) && RightSpine(p, spine)
    ensures LevelAt(spine, |spine| - 1) == LevelAt(Levels(t), |Levels(t)| - 1)
  {
    if t.Node? {
      var rest := spine[1..];
      forall i | 0 <= i < |rest| ensures rest[i].right == LevelAt(rest, i + 1) { assert rest[i] == spine[i + 1]; }
      RightSpineEnds(g, t.right, t.row.right, t.row, side, rest);
    }
  }

  lemma {:induction false} LeftSpineEnds(g: Reach, t: Tree, p: LevelRow?, up: LevelRow?, side: u64,
          spine: seq<LevelRow>)
    requires Mirrors(g, t, p, up, side) && LeftSpine(p, spine)
    ensures LevelAt(spine, |spine| - 1) == LevelAt(Levels(t), 0)
  {
    if t.Node? {
      var rest := spine[1..];
      forall i | 0 <= i < |rest| ensures rest[i].left == LevelAt(rest, i + 1) { assert rest[i] == spine[i + 1]; }
      LeftSpineEnds(g, t.left, t.row.left, t.row, side, rest);
    }
  }

  // ---- the buckets ----

  ghost predicate EntryFine(o: OrderRow)
    reads o`inHash, o`inList, o`level
  {
    o.inHash && o.inList && o.level != null
  }

  // One more row of a chain.
  lemma {:induction false} ChainOn(s: EngineDb, g: Reach, o: OrderRow, done: seq<OrderRow>)
    requires Closed(s, g) && OrderIn(g, o)
    ensures OrderIn(g, o.hashNext) && Rank(g, o.hashNext) < Rank(g, o)
    ensures Chain(s, g, o) == [o] + Chain(s, g, o.hashNext)
    ensures done + Chain(s, g, o) == (done + [o]) + Chain(s, g, o.hashNext)
  {
    assert OrderClosed(g, o);
  }

  lemma BucketIn(s: EngineDb, g: Reach, b: nat)
    requires Closed(s, g) && b < s.index.buckets.Length
    ensures OrderIn(g, s.index.buckets[b]) && Entries(s, g, b + 1) == Entries(s, g, b) + Chain(s, g, s.index.buckets[b])
    ensures Chain(s, g, null) == []
  {
  }

  lemma {:induction false} NoEntries(s: EngineDb, g: Reach)
    requires Closed(s, g)
    ensures Entries(s, g, 0) == []
  {
  }

  // Walks every chain, counting.
  method CountEntries(s: EngineDb, ghost g: Reach) returns (ok: bool, count: u32)
    requires Closed(s, g)
    ensures ok <==>
        forall i {:trigger Entries(s, g, s.index.buckets.Length)[i]} ::
        0 <= i < |Entries(s, g, s.index.buckets.Length)| ==>
      EntryFine(Entries(s, g, s.index.buckets.Length)[i])
    ensures ok ==> count == |Entries(s, g, s.index.buckets.Length)| % TWO32
  {
    hide Closed, OrderClosed, LevelClosed, OrderIn, Rank, Chain, Bucket, Entries;
    ok, count := false, 0;
    NoEntries(s, g);
    ghost var all, n := Entries(s, g, s.index.buckets.Length), s.index.buckets.Length;
    ghost var done: seq<OrderRow> := [];
    var b := 0;
    while b < s.index.buckets.Length
      invariant 0 <= b <= n && done == Entries(s, g, b) && count == |done| % TWO32
      invariant forall i {:trigger done[i]} :: 0 <= i < |done| ==> EntryFine(done[i])
    {
      var o := s.index.buckets[b];
      EntriesPrefix(s, g, b + 1);
      BucketIn(s, g, b);
      while o != null
        invariant OrderIn(g, o) && done + Chain(s, g, o) == Entries(s, g, b + 1) <= all && count == |done| % TWO32
        invariant forall i {:trigger done[i]} :: 0 <= i < |done| ==> EntryFine(done[i])
        decreases Rank(g, o)
      {
        ChainOn(s, g, o, done);
        assert Entries(s, g, s.index.buckets.Length)[|done|] == o;
        assert (EntryFine(o) <==> o.inHash && o.inList && o.level != null);
        if !o.inHash { return; }
        if !o.inList { return; }
        if o.level == null { return; }
        AddWraps(|done|, 1);
        count := (count + 1) % TWO32;
        done := done + [o];
        o := o.hashNext;
      }
      b := b + 1;
    }
    ok := true;
  }

  lemma {:induction false} EntriesPrefix(s: EngineDb, g: Reach, n: nat)
    requires Closed(s, g) && n <= s.index.buckets.Length
    ensures Entries(s, g, n) <= Entries(s, g, s.index.buckets.Length)
    decreases s.index.buckets.Length - n
  {
    if n < s.index.buckets.Length { EntriesPrefix(s, g, n + 1); }
  }
}
