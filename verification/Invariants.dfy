/** MatchingEngine_CheckInvariants: what it accepts is exactly the consistent states. */
module Invariants {
  import opened Lists
  import opened Types
  import opened Rows
  import opened EngineDb
  import Atree
  import opened Checker
  import Llist

  datatype Layout = Layout(bids: Tree, asks: Tree) {
    // Every resting order, bids first.
    function Resting(): seq<OrderRow> {
      Orders(bids) + Orders(asks)
    }
  }

  // Every bid is below every ask.
  ghost predicate Below(b: seq<LevelRow>, a: seq<LevelRow>)
    reads b`price, a`price
  {
    forall i, j {:trigger b[i], a[j]} :: 0 <= i < |b| && 0 <= j < |a| ==> b[i].price < a[j].price
  }

  ghost predicate OneId(o: OrderRow, p: OrderRow)
    reads o`id, p`id
  {
    o.id == p.id ==> o == p
  }

  ghost predicate DistinctIds(q: seq<OrderRow>)
    reads q`id
  {
    forall i, j {:trigger OneId(q[i], q[j])} :: 0 <= i < |q| && 0 <= j < |q| ==> OneId(q[i], q[j])
  }

  // The i-th entry of bucket b belongs there.
  ghost predicate Homed(s: EngineDb, g: Reach, b: int, i: int)
    requires Closed(s, g) && 0 <= b < s.index.buckets.Length && 0 <= i < |Bucket(s, g, b)|
    reads s.index.buckets, g.orders, g.levels
  {
    Bucket(s, g, b)[i].id % s.index.buckets.Length == b
  }

  ghost function AllEntries(s: EngineDb, g: Reach): (q: seq<OrderRow>)
    requires Closed(s, g)
    reads s.index.buckets, g.orders, g.levels
    ensures forall i {:trigger q[i]} :: 0 <= i < |q| ==> q[i] in g.orders
  {
    Entries(s, g, s.index.buckets.Length)
  }

  // The chains hold the orders of q, each once and in its own bucket.
  ghost predicate Indexed(s: EngineDb, g: Reach, q: seq<OrderRow>)
    requires Closed(s, g)
    reads s.index.buckets, g.orders, g.levels
  {
    && Distinct(AllEntries(s, g))
    && (forall o {:trigger o in q} {:trigger o in AllEntries(s, g)} :: o in g.orders ==>
        (o in AllEntries(s, g) <==> o in q))
    && (forall b, i {:trigger Homed(s, g, b, i)} :: 0 <= b < s.index.buckets.Length && 0 <= i < |Bucket(s, g, b)| ==>
        Homed(s, g, b, i))
  }

  // y describes the whole state: two sound trees of sound queues, uncrossed, no order shared,
  // an index of exactly the resting orders, and counts that agree.
  ghost predicate Consistent(s: EngineDb, g: Reach, y: Layout)
    requires Closed(s, g)
    reads s.index.buckets, g.orders, g.levels, s.bidTree, s.askTree, s.index, s.orderPool, s.levelPool
  {
    && Mirrors(g, y.bids, s.bidTree.root, null, BUY) && Mirrors(g, y.asks, s.askTree.root, null, SELL)
    && Sorted(g, y)
    && s.bidTree.n == |Levels(y.bids)| && s.askTree.n == |Levels(y.asks)|
    && s.levelPool.used == |Levels(y.bids)| + |Levels(y.asks)|
    && s.index.n == s.orderPool.used == |y.Resting()|
    && Named(g, y) && Indexed(s, g, y.Resting())
  }

  ghost predicate Sorted(g: Reach, y: Layout)
    reads g.levels
  {
    && LevelsIn(g, y) && Ascending(Levels(y.bids)) && Ascending(Levels(y.asks)) && Below(Levels(y.bids), Levels(y.asks))
  }

  ghost predicate Named(g: Reach, y: Layout)
    reads g.orders
  {
    QueueIn(g, y.Resting()) && DistinctIds(y.Resting())
  }

  ghost predicate LevelsIn(g: Reach, y: Layout) {
    && (forall i {:trigger Levels(y.bids)[i]} :: 0 <= i < |Levels(y.bids)| ==> Levels(y.bids)[i] in g.levels)
    && (forall i {:trigger Levels(y.asks)[i]} :: 0 <= i < |Levels(y.asks)| ==> Levels(y.asks)[i] in g.levels)
  }

  // ---- what sound trees have within reach ----

  lemma {:induction false} MirrorsIn(g: Reach, t: Tree, p: LevelRow?, up: LevelRow?, side: u64)
    requires Mirrors(g, t, p, up, side)
    ensures forall i {:trigger Levels(t)[i]} :: 0 <= i < |Levels(t)| ==> Levels(t)[i] in g.levels
    ensures QueueIn(g, Orders(t))
  {
    if t.Node? {
      MirrorsIn(g, t.left, t.row.left, t.row, side);
      MirrorsIn(g, t.right, t.row.right, t.row, side);
    }
  }

  // Every order of the tree hangs from one of its levels, and is flagged as listed and hashed.
  lemma {:induction false} MirrorsHome(g: Reach, t: Tree, p: LevelRow?, up: LevelRow?, side: u64, o: OrderRow)
    requires Mirrors(g, t, p, up, side) && o in Orders(t)
    ensures o.level != null && o.level in Levels(t) && EntryFine(o)
  {
    var l, q, r := t.left, t.queue, t.right;
    if o in Orders(l) {
      MirrorsHome(g, l, t.row.left, t.row, side, o);
    } else if o in Orders(r) {
      MirrorsHome(g, r, t.row.right, t.row, side, o);
    } else {
      var i :| 0 <= i < |q| && q[i] == o;
      assert Llist.Linked(t.row, q, i) && OrderFits(t.row, side, q[i]);
    }
  }

  // Orders of distinct levels are distinct.
  lemma {:induction false} OrdersApart(g: Reach, t: Tree, p: LevelRow?, up: LevelRow?, side: u64)
    requires Mirrors(g, t, p, up, side) && Distinct(Levels(t))
    ensures Distinct(Orders(t))
  {
    if t.Node? {
      var l, x, q, r := t.left, t.row, t.queue, t.right;
      DistinctParts(Levels(l), x, Levels(r));
      OrdersApart(g, l, x.left, x, side);
      OrdersApart(g, r, x.right, x, side);
      forall o | o in Orders(l) ensures o !in q && o !in Orders(r) {
        MirrorsHome(g, l, x.left, x, side, o);
        NotInQueue(x, q, o);
        if o in Orders(r) { MirrorsHome(g, r, x.right, x, side, o); }
      }
      forall o | o in Orders(r) ensures o !in q {
        MirrorsHome(g, r, x.right, x, side, o);
        NotInQueue(x, q, o);
      }
      DistinctJoin(Orders(l), q);
      DistinctJoin(Orders(l) + q, Orders(r));
    }
  }

  lemma NotInQueue(l: LevelRow, q: seq<OrderRow>, o: OrderRow)
    requires Llist.QueueOk(l, q) && o.level != l
    ensures o !in q
  {
    forall i | 0 <= i < |q| ensures q[i] != o { assert Llist.Linked(l, q, i); }
  }

  lemma DistinctParts<R>(a: seq<R>, x: R, b: seq<R>)
    requires Distinct(a + [x] + b)
    ensures Distinct(a) && Distinct(b) && x !in a && x !in b && forall r {:trigger r in a} :: r in a ==> r !in b
  {
    var c, n := a + [x] + b, |a|;
    assert c[n] == x && (forall i | 0 <= i < |a| :: c[i] == a[i]) && (forall i | 0 <= i < |b| :: c[n + 1 + i] == b[i]);
    forall r | r in a ensures r !in b {
      var i :| 0 <= i < |a| && a[i] == r;
      forall j | 0 <= j < |b| ensures b[j] != r { assert c[i] != c[n + 1 + j]; }
    }
  }

  lemma DistinctJoin<R>(a: seq<R>, b: seq<R>)
    requires Distinct(a) && Distinct(b) && forall r {:trigger r in a} {:trigger r in b} :: r in a ==> r !in b
    ensures Distinct(a + b)
  {
    forall i, j | 0 <= i < |a| && 0 <= j < |b| ensures a[i] != b[j] { assert a[i] in a && b[j] in b; }
  }

  // Everything the two trees hold is held once, and within reach.
  lemma {:induction false} LayoutApart(s: EngineDb, g: Reach, y: Layout)
    requires Closed(s, g) && Sorted(g, y)
    requires Mirrors(g, y.bids, s.bidTree.root, null, BUY) && Mirrors(g, y.asks, s.askTree.root, null, SELL)
    ensures Distinct(y.Resting()) && QueueIn(g, y.Resting()) && |y.Resting()| < TWO32
    ensures |Levels(y.bids)| + |Levels(y.asks)| < TWO32
    ensures forall o {:trigger o in y.Resting()} :: o in y.Resting() ==> EntryFine(o)
  {
    var b, a := Levels(y.bids), Levels(y.asks);
    MirrorsIn(g, y.bids, s.bidTree.root, null, BUY);
    MirrorsIn(g, y.asks, s.askTree.root, null, SELL);
    OrdersApart(g, y.bids, s.bidTree.root, null, BUY);
    OrdersApart(g, y.asks, s.askTree.root, null, SELL);
    forall l | l in b ensures l !in a { BelowApart(b, a, l); }
    DistinctJoin(b, a);
    forall o | o in y.Resting() ensures EntryFine(o) && (o in Orders(y.bids) ==> o !in Orders(y.asks)) {
      if o in Orders(y.bids) { MirrorsHome(g, y.bids, s.bidTree.root, null, BUY, o); }
      if o in Orders(y.asks) { MirrorsHome(g, y.asks, s.askTree.root, null, SELL, o); }
    }
    DistinctJoin(Orders(y.bids), Orders(y.asks));
    DistinctBelow(y.Resting(), g.orders);
    DistinctBelow(b + a, g.levels);
  }

  lemma BelowApart(b: seq<LevelRow>, a: seq<LevelRow>, l: LevelRow)
    requires Below(b, a) && l in b
    ensures l !in a
  {
    var i :| 0 <= i < |b| && b[i] == l;
    forall j | 0 <= j < |a| ensures a[j] != l { assert b[i].price < a[j].price; }
  }

  // ---- the counting argument ----

  // A list as long as a repetition-free list whose elements it all contains is a permutation of it.
  lemma CountedOnce<R>(e: seq<R>, q: seq<R>)
    requires Distinct(q) && |e| == |q| && forall r {:trigger r in q} :: r in q ==> r in e
    ensures Distinct(e) && forall r {:trigger r in e} {:trigger r in q} :: r in e <==> r in q
  {
    forall i, j | 0 <= i < j < |e| ensures e[i] != e[j] {
      if e[i] == e[j] {
        var f := Without(e, j);
        forall r | r in SetOf(q) ensures r in f {
          assert r in q && r in e;
          if r == e[j] { assert f[i] == e[i]; } else { InWithout(e, j, r); }
        }
        CoveredBelow(f, SetOf(q));
        DistinctBelow(q, SetOf(q));
      }
    }
    forall r | r in e ensures r in q {
      if r !in q {
        var k :| 0 <= k < |e| && e[k] == r;
        var f := Without(e, k);
        forall x | x in SetOf(q) ensures x in f { assert x in q && x in e; InWithout(e, k, x); }
        CoveredBelow(f, SetOf(q));
        DistinctBelow(q, SetOf(q));
      }
    }
  }

  ghost function SetOf<R>(q: seq<R>): set<R> {
    set r | r in q
  }

  // ---- lookups against entries ----

  lemma {:induction false} BucketAt(s: EngineDb, g: Reach, n: nat, b: nat) returns (k: nat)
    requires Closed(s, g) && b < n <= s.index.buckets.Length
    ensures k + |Bucket(s, g, b)| <= |Entries(s, g, n)|
    ensures forall i {:trigger Bucket(s, g, b)[i]} :: 0 <= i < |Bucket(s, g, b)| ==>
        Entries(s, g, n)[k + i] == Bucket(s, g, b)[i]
  {
    if b == n - 1 {
      k := |Entries(s, g, n - 1)|;
    } else {
      k := BucketAt(s, g, n - 1, b);
    }
  }

  lemma {:induction false} EntryBucket(s: EngineDb, g: Reach, n: nat, k: nat) returns (b: nat, i: nat)
    requires Closed(s, g) && n <= s.index.buckets.Length && k < |Entries(s, g, n)|
    ensures b < n && i < |Bucket(s, g, b)| && Bucket(s, g, b)[i] == Entries(s, g, n)[k]
  {
    if k < |Entries(s, g, n - 1)| {
      b, i := EntryBucket(s, g, n - 1, k);
    } else {
      b, i := n - 1, k - |Entries(s, g, n - 1)|;
    }
  }

  lemma {:induction false} FirstIn(q: seq<OrderRow>, id: u64)
    ensures First(q, id) != null ==> First(q, id) in q && First(q, id).id == id
    ensures First(q, id) == null ==> forall i {:trigger q[i]} :: 0 <= i < |q| ==> q[i].id != id
  {
    if q != [] && q[0].id != id { FirstIn(q[1..], id); }
  }

  lemma FoundEntry(s: EngineDb, g: Reach, o: OrderRow)
    requires Closed(s, g) && Found(s, g, o)
    ensures o in Bucket(s, g, o.id % s.index.buckets.Length) && o in AllEntries(s, g)
  {
    var b := o.id % s.index.buckets.Length;
    FirstIn(Bucket(s, g, b), o.id);
    var k := BucketAt(s, g, s.index.buckets.Length, b);
    var i :| 0 <= i < |Bucket(s, g, b)| && Bucket(s, g, b)[i] == o;
    assert AllEntries(s, g)[k + i] == o;
  }

  // If every order of q is found under its id, and there are as many entries as orders,
  // the index holds exactly the orders of q.
  lemma FoundIndexed(s: EngineDb, g: Reach, q: seq<OrderRow>)
    requires Closed(s, g) && Distinct(q) && AllFound(s, g, q) && |AllEntries(s, g)| == |q|
    ensures Indexed(s, g, q) && DistinctIds(q)
  {
    forall o | o in q ensures o in AllEntries(s, g) { FoundEntry(s, g, o); }
    CountedOnce(AllEntries(s, g), q);
    forall b, i | 0 <= b < s.index.buckets.Length && 0 <= i < |Bucket(s, g, b)| ensures Homed(s, g, b, i) {
      FoundHomed(s, g, q, b, i);
    }
    forall i, j | 0 <= i < |q| && 0 <= j < |q| ensures OneId(q[i], q[j]) {
      assert Found(s, g, q[i]) && Found(s, g, q[j]);
    }
  }

  lemma FoundHomed(s: EngineDb, g: Reach, q: seq<OrderRow>, b: nat, i: nat)
    requires Closed(s, g) && AllFound(s, g, q) && Distinct(AllEntries(s, g))
    requires forall o {:trigger o in AllEntries(s, g)} :: o in AllEntries(s, g) ==> o in q
    requires b < s.index.buckets.Length && i < |Bucket(s, g, b)|
    ensures Homed(s, g, b, i)
  {
    var n, o := s.index.buckets.Length, Bucket(s, g, b)[i];
    var k := BucketAt(s, g, n, b);
    assert AllEntries(s, g)[k + i] == o && o in AllEntries(s, g);
    var m :| 0 <= m < |q| && q[m] == o;
    var c := o.id % n;
    FoundEntry(s, g, o);
    var j :| 0 <= j < |Bucket(s, g, c)| && Bucket(s, g, c)[j] == o;
    OneBucket(s, g, n, b, i, c, j);
  }

  // When no entry repeats, an order lies in one bucket only.
  lemma {:induction false} OneBucket(s: EngineDb, g: Reach, n: nat, b: nat, i: nat, c: nat, j: nat)
    requires Closed(s, g) && n <= s.index.buckets.Length && Distinct(Entries(s, g, n)) && b < n && c < n
    requires i < |Bucket(s, g, b)| && j < |Bucket(s, g, c)| && Bucket(s, g, b)[i] == Bucket(s, g, c)[j]
    ensures b == c
  {
    if b != c {
      var early, late := if b < c then b else c, if b < c then c else b;
      var x, y := if b < c then i else j, if b < c then j else i;
      var k := BucketAt(s, g, late, early);
      EntriesPrefix(s, g, late + 1);
      EntriesPrefix(s, g, n);
      assert Entries(s, g, late + 1)[k + x] == Entries(s, g, late + 1)[|Entries(s, g, late)| + y];
      PrefixDistinct(s, g, late + 1, n);
    }
  }

  lemma {:induction false} PrefixDistinct(s: EngineDb, g: Reach, m: nat, n: nat)
    requires Closed(s, g) && m <= n <= s.index.buckets.Length && Distinct(Entries(s, g, n))
    ensures Distinct(Entries(s, g, m))
    decreases n - m
  {
    if m < n {
      PrefixDistinct(s, g, m + 1, n);
      var e, f := Entries(s, g, m), Entries(s, g, m + 1);
      forall i, j | 0 <= i < j < |e| ensures e[i] != e[j] { assert f[i] == e[i] && f[j] == e[j]; }
    }
  }

  // In an index of exactly these orders, with distinct ids, every one of them is found.
  lemma IndexedFound(s: EngineDb, g: Reach, q: seq<OrderRow>)
    requires Closed(s, g) && QueueIn(g, q) && Indexed(s, g, q) && DistinctIds(q)
    ensures AllFound(s, g, q)
  {
    var n := s.index.buckets.Length;
    forall m | 0 <= m < |q| ensures q[m] in g.orders && Found(s, g, q[m]) {
      var o := q[m];
      assert o in q && o in AllEntries(s, g);
      var k :| 0 <= k < |AllEntries(s, g)| && AllEntries(s, g)[k] == o;
      var b, i := EntryBucket(s, g, n, k);
      assert Homed(s, g, b, i);
      FirstIn(Bucket(s, g, b), o.id);
      var p := First(Bucket(s, g, b), o.id);
      var j :| 0 <= j < |Bucket(s, g, b)| && Bucket(s, g, b)[j] == p;
      var c := BucketAt(s, g, n, b);
      assert AllEntries(s, g)[c + j] == p && p in AllEntries(s, g);
      var h :| 0 <= h < |q| && q[h] == p;
      assert OneId(q[h], q[m]);
    }
  }

  // ---- a state has at most one layout ----

  lemma QueueUnique(l: LevelRow, p: seq<OrderRow>, q: seq<OrderRow>)
    requires Llist.QueueOk(l, p) && Llist.QueueOk(l, q)
    ensures p == q
  {
    var i := 0;
    while i < |p|
      invariant 0 <= i <= |p| == |q| && p[..i] == q[..i]
    {
      if i > 0 { assert Llist.Linked(l, p, i - 1) && Llist.Linked(l, q, i - 1) && p[..i][i - 1] == q[..i][i - 1]; }
      assert p[i] == q[i];
      assert p[..i + 1] == p[..i] + [p[i]] && q[..i + 1] == q[..i] + [q[i]];
      i := i + 1;
    }
    assert p == p[..i] && q == q[..i];
  }

  lemma {:induction false} MirrorsUnique(g: Reach, t: Tree, u: Tree, p: LevelRow?, up: LevelRow?, side: u64)
    requires Mirrors(g, t, p, up, side) && Mirrors(g, u, p, up, side)
    ensures t == u
  {
    if t.Node? {
      QueueUnique(t.row, t.queue, u.queue);
      MirrorsUnique(g, t.left, u.left, t.row.left, t.row, side);
      MirrorsUnique(g, t.right, u.right, t.row.right, t.row, side);
    }
  }

  // ---- the check ----

  // The best bid is below the best ask, where there are both.
  predicate BestBelow(bid: LevelRow?, ask: LevelRow?)
    reads if bid == null then {} else {bid}, if ask == null then {} else {ask}
  {
    bid != null && ask != null ==> bid.price < ask.price
  }

  // Comparing the best levels is comparing all of them.
  lemma BestDecides(b: seq<LevelRow>, a: seq<LevelRow>)
    requires Ascending(b) && Ascending(a)
    ensures BestBelow(LevelAt(b, |b| - 1), LevelAt(a, 0)) <==> Below(b, a)
  {
    if Below(b, a) && b != [] && a != [] {
      assert b[|b| - 1].price < a[0].price;
    }
  }

  ghost predicate NestedAll(s: EngineDb, g: Reach, y: Layout)
    requires Closed(s, g)
    reads s.index.buckets, g.orders, g.levels, s.bidTree`root, s.askTree`root
  {
    Nested(s, g, y.bids, s.bidTree.root, null, BUY, -1, TWO64)
        && Nested(s, g, y.asks, s.askTree.root, null, SELL, -1, TWO64)
  }

  ghost predicate Spines(s: EngineDb, g: Reach)
    reads s.bidTree`root, s.askTree`root, g.bidSpine, g.askSpine
  {
    && LevelIn(g, s.bidTree.root) && RightSpine(s.bidTree.root, g.bidSpine)
    && LevelIn(g, s.askTree.root) && LeftSpine(s.askTree.root, g.askSpine)
  }

  lemma {:induction false} BoundedPrices(t: Tree)
    ensures Between(Levels(t), -1, TWO64)
  {
  }

  // What the trees alone must show.
  lemma {:induction false} NestedAllIff(s: EngineDb, g: Reach, y: Layout)
    requires Closed(s, g) && Spines(s, g)
    ensures
      (NestedAll(s, g, y) && BestBelow(LevelAt(g.bidSpine, |g.bidSpine| - 1), LevelAt(g.askSpine, |g.askSpine| - 1)))
      <==>
      (Mirrors(g, y.bids, s.bidTree.root, null, BUY) && Mirrors(g, y.asks, s.askTree.root, null, SELL)
        && Sorted(g, y) && AllFound(s, g, y.Resting()))
  {
    NestedIff(s, g, y.bids, s.bidTree.root, null, BUY, -1, TWO64);
    NestedIff(s, g, y.asks, s.askTree.root, null, SELL, -1, TWO64);
    BoundedPrices(y.bids);
    BoundedPrices(y.asks);
    assert Orders(y.bids) + Orders(y.asks) + [] == y.Resting();
    FoundSplit(s, g, Orders(y.bids), Orders(y.asks), []);
    hide *;
    if Mirrors(g, y.bids, s.bidTree.root, null, BUY) && Mirrors(g, y.asks, s.askTree.root, null, SELL) {
      SortedIff(s, g, y);
    }
  }

  // Where both trees mirror their links, comparing the best levels completes the order of each tree.
  lemma {:induction false} SortedIff(s: EngineDb, g: Reach, y: Layout)
    requires Spines(s, g) && Mirrors(g, y.bids, s.bidTree.root, null, BUY)
    requires Mirrors(g, y.asks, s.askTree.root, null, SELL)
    ensures (Ascending(Levels(y.bids)) && Ascending(Levels(y.asks))
        && BestBelow(LevelAt(g.bidSpine, |g.bidSpine| - 1), LevelAt(g.askSpine, |g.askSpine| - 1)))
      <==> Sorted(g, y)
  {
    MirrorsIn(g, y.bids, s.bidTree.root, null, BUY);
    MirrorsIn(g, y.asks, s.askTree.root, null, SELL);
    RightSpineEnds(g, y.bids, s.bidTree.root, null, BUY, g.bidSpine);
    LeftSpineEnds(g, y.asks, s.askTree.root, null, SELL, g.askSpine);
    hide Mirrors, RightSpine, LeftSpine, Levels;
    if Ascending(Levels(y.bids)) && Ascending(Levels(y.asks)) { BestDecides(Levels(y.bids), Levels(y.asks)); }
  }

  // The comparisons of counts, against the layout that has been read.
  predicate CountsAgree(s: EngineDb, y: Layout)
    reads s.bidTree`n, s.askTree`n, s.levelPool`used, s.orderPool`used, s.index`n
  {
    && s.bidTree.n == |Levels(y.bids)| && s.askTree.n == |Levels(y.asks)|
    && s.index.n == |y.Resting()| && s.orderPool.used == |y.Resting()|
    && s.levelPool.used == |Levels(y.bids)| + |Levels(y.asks)|
  }

  ghost predicate EntriesAgree(s: EngineDb, g: Reach)
    requires Closed(s, g)
    reads s.index.buckets, g.orders, g.levels, s.index`n
  {
    && (forall i {:trigger AllEntries(s, g)[i]} :: 0 <= i < |AllEntries(s, g)| ==> EntryFine(AllEntries(s, g)[i]))
    && |AllEntries(s, g)| == s.index.n
  }

  // All the comparisons succeed together exactly on a consistent layout.
  lemma ChecksIff(s: EngineDb, g: Reach, y: Layout)
    requires Closed(s, g) && Spines(s, g)
    ensures
      (NestedAll(s, g, y) && BestBelow(LevelAt(g.bidSpine, |g.bidSpine| - 1), LevelAt(g.askSpine, |g.askSpine| - 1))
        && CountsAgree(s, y) && EntriesAgree(s, g))
      <==> Consistent(s, g, y)
  {
    hide Nested, Mirrors, Spines, Closed, Indexed, AllFound;
    NestedAllIff(s, g, y);
    if Mirrors(g, y.bids, s.bidTree.root, null, BUY) && Mirrors(g, y.asks, s.askTree.root, null, SELL) && Sorted(g, y) {
      LayoutApart(s, g, y);
      if AllFound(s, g, y.Resting()) && |AllEntries(s, g)| == |y.Resting()| { FoundIndexed(s, g, y.Resting()); }
      if Named(g, y) && Indexed(s, g, y.Resting()) {
        IndexedFound(s, g, y.Resting());
        SameSize(s, g, y.Resting());
      }
    }
  }

  lemma SameSize(s: EngineDb, g: Reach, q: seq<OrderRow>)
    requires Closed(s, g) && Indexed(s, g, q) && Distinct(q) && QueueIn(g, q)
    ensures |AllEntries(s, g)| == |q|
    ensures forall i {:trigger AllEntries(s, g)[i]} :: 0 <= i < |AllEntries(s, g)| ==> AllEntries(s, g)[i] in q
  {
    var e := AllEntries(s, g);
    forall i | 0 <= i < |e| ensures e[i] in q { assert e[i] in e; }
    forall i | 0 <= i < |q| ensures q[i] in e { assert q[i] in q; }
    DistinctBelow(e, SetOf(q));
    CoveredBelow(q, SetOf(q));
    DistinctBelow(q, SetOf(e));
    CoveredBelow(e, SetOf(e));
  }

  // A tree that has been validated has countably many levels and orders, and is the only one there.
  lemma {:induction false} TreeRead(s: EngineDb, g: Reach, t: Tree, want: Tree, p: LevelRow?, side: u64)
    requires Closed(s, g) && Nested(s, g, t, p, null, side, -1, TWO64)
    ensures |Levels(t)| < TWO32 && |Orders(t)| < TWO32
    ensures Mirrors(g, want, p, null, side) ==> want == t
  {
    NestedIff(s, g, t, p, null, side, -1, TWO64);
    MirrorsIn(g, t, p, null, side);
    OrdersApart(g, t, p, null, side);
    DistinctBelow(Levels(t), g.levels);
    DistinctBelow(Orders(t), g.orders);
    if Mirrors(g, want, p, null, side) { MirrorsUnique(g, t, want, p, null, side); }
  }

  lemma {:induction false} ConsistentTrees(s: EngineDb, g: Reach, y: Layout)
    requires Closed(s, g) && Spines(s, g) && Consistent(s, g, y)
    ensures NestedAll(s, g, y)
    ensures BestBelow(LevelAt(g.bidSpine, |g.bidSpine| - 1), LevelAt(g.askSpine, |g.askSpine| - 1))
    ensures CountsAgree(s, y) && EntriesAgree(s, g)
    ensures Mirrors(g, y.bids, s.bidTree.root, null, BUY) && Mirrors(g, y.asks, s.askTree.root, null, SELL)
  {
    ChecksIff(s, g, y);
  }

  lemma RestingFits(s: EngineDb, g: Reach, y: Layout)
    requires Closed(s, g) && Spines(s, g) && NestedAll(s, g, y)
    requires BestBelow(LevelAt(g.bidSpine, |g.bidSpine| - 1), LevelAt(g.askSpine, |g.askSpine| - 1))
    ensures |Orders(y.bids)| + |Orders(y.asks)| == |y.Resting()| < TWO32 && |Levels(y.bids)| + |Levels(y.asks)| < TWO32
  {
    NestedAllIff(s, g, y);
    LayoutApart(s, g, y);
  }

  method CheckBest(s: EngineDb, ghost g: Reach) returns (ok: bool)
    requires Spines(s, g)
    ensures ok <==> BestBelow(LevelAt(g.bidSpine, |g.bidSpine| - 1), LevelAt(g.askSpine, |g.askSpine| - 1))
  {
    var bid := Rightmost(s.bidTree.root, g.bidSpine);
    var ask := Leftmost(s.askTree.root, g.askSpine);
    if bid != null && ask != null {
      if bid.price >= ask.price { return false; }
    }
    ok := true;
  }

  // One tree with its level count.
  method CheckTree(s: EngineDb, tree: Atree.PriceTree, side: u64, ghost g: Reach, ghost want: Tree)
    returns (ok: bool, orders: u32, ghost t: Tree)
    requires Closed(s, g) && LevelIn(g, tree.root)
    ensures ok ==> Nested(s, g, t, tree.root, null, side, -1, TWO64) && tree.n == |Levels(t)| && orders == |Orders(t)|
    ensures ok && Mirrors(g, want, tree.root, null, side) ==> t == want
    ensures Nested(s, g, want, tree.root, null, side, -1, TWO64) && tree.n == |Levels(want)| ==> ok
  {
    hide Nested, Mirrors, Closed;
    var nodes;
    ok, nodes, orders, t := ValidateBst(s, tree.root, null, 0, 0, false, false, 0, side, 0, g, want);
    if !ok { return; }
    TreeRead(s, g, t, want, tree.root, side);
    if Nested(s, g, want, tree.root, null, side, -1, TWO64) { NestedIff(s, g, want, tree.root, null, side, -1, TWO64); }
    ok := tree.n == nodes;
  }

  // The counters against each other.
  method CompareCounts(s: EngineDb, bidOrders: u32, askOrders: u32) returns (ok: bool)
    ensures ok <==>
      && s.index.n == (bidOrders + askOrders) % TWO32 && s.orderPool.used == (bidOrders + askOrders) % TWO32
      && s.levelPool.used == (s.bidTree.n + s.askTree.n) % TWO32
  {
    var resting := (bidOrders + askOrders) % TWO32;
    if s.index.n != resting { return false; }
    if s.orderPool.used != resting { return false; }
    ok := s.levelPool.used == (s.bidTree.n + s.askTree.n) % TWO32;
  }

  method CheckEntries(s: EngineDb, ghost g: Reach) returns (ok: bool)
    requires Closed(s, g) && |AllEntries(s, g)| < TWO32
    ensures ok <==> EntriesAgree(s, g)
  {
    var count;
    ok, count := CountEntries(s, g);
    if ok { ok := count == s.index.n; }
  }

  // The best levels, and both trees with their level counts.
  method CheckTrees(s: EngineDb, ghost g: Reach, ghost want: Layout)
    returns (ok: bool, bidOrders: u32, askOrders: u32, ghost y: Layout)
    requires Closed(s, g) && Spines(s, g)
    ensures ok ==>
        NestedAll(s, g, y) && BestBelow(LevelAt(g.bidSpine, |g.bidSpine| - 1), LevelAt(g.askSpine, |g.askSpine| - 1))
    ensures ok ==>
        s.bidTree.n == |Levels(y.bids)| && s.askTree.n == |Levels(y.asks)| && bidOrders == |Orders(y.bids)|
        && askOrders == |Orders(y.asks)|
    ensures Consistent(s, g, want) ==> ok && y == want
  {
    hide Nested, Mirrors, Closed, Consistent, EntriesAgree, RightSpine, LeftSpine, CountsAgree, NestedAll, AllEntries,
        LevelIn, Levels, Orders;
    hide Spines, BestBelow, LevelClosed, OrderClosed;
    bidOrders, askOrders, y := 0, 0, want;
    SpinesIn(s, g);
    if Consistent(s, g, want) { ConsistentTrees(s, g, want); }
    WantedTrees(s, g, want);
    ok := CheckBest(s, g);
    if !ok { return; }
    ghost var b, a;
    ok, bidOrders, b := CheckTree(s, s.bidTree, BUY, g, want.bids);
    if !ok { return; }
    ok, askOrders, a := CheckTree(s, s.askTree, SELL, g, want.asks);
    if !ok { return; }
    y := Layout(b, a);
    NestedBoth(s, g, b, a);
  }


  // Accepts exactly the consistent states.
  method CheckInvariants(s: EngineDb, ghost g: Reach, ghost want: Layout) returns (ok: bool, ghost y: Layout)
    requires Closed(s, g) && Spines(s, g) && |AllEntries(s, g)| < TWO32
    ensures ok ==> Consistent(s, g, y)
    ensures Consistent(s, g, want) ==> ok
  {
    hide Nested, Mirrors, Closed, Consistent, EntriesAgree, RightSpine, LeftSpine, CountsAgree, NestedAll, AllEntries,
        LevelIn, Levels, Orders;
    hide Spines, BestBelow, LevelClosed, OrderClosed;
    if Consistent(s, g, want) { ConsistentTrees(s, g, want); }
    var bidOrders, askOrders;
    ok, bidOrders, askOrders, y := CheckTrees(s, g, want);
    if !ok { return; }
    RestingFits(s, g, y);
    CountsMeet(s, y);
    ok := CompareCounts(s, bidOrders, askOrders);
    if !ok { return; }
    ok := CheckEntries(s, g);
    if !ok { return; }
    ChecksIff(s, g, y);
  }

  lemma {:induction false} NestedBoth(s: EngineDb, g: Reach, b: Tree, a: Tree)
    requires Closed(s, g) && Nested(s, g, b, s.bidTree.root, null, BUY, -1, TWO64)
    requires Nested(s, g, a, s.askTree.root, null, SELL, -1, TWO64)
    ensures NestedAll(s, g, Layout(b, a))
  {
  }

  // What a consistent layout means for the two trees that are read.
  lemma {:induction false} WantedTrees(s: EngineDb, g: Reach, y: Layout)
    requires Closed(s, g) && Spines(s, g)
    ensures Consistent(s, g, y) ==>
      && Mirrors(g, y.bids, s.bidTree.root, null, BUY) && Mirrors(g, y.asks, s.askTree.root, null, SELL)
      && Nested(s, g, y.bids, s.bidTree.root, null, BUY, -1, TWO64)
          && Nested(s, g, y.asks, s.askTree.root, null, SELL, -1, TWO64)
      && s.bidTree.n == |Levels(y.bids)| && s.askTree.n == |Levels(y.asks)|
  {
    if Consistent(s, g, y) { ConsistentTrees(s, g, y); }
  }

  lemma SpinesIn(s: EngineDb, g: Reach)
    requires Spines(s, g)
    ensures LevelIn(g, s.bidTree.root) && LevelIn(g, s.askTree.root)
  {
  }

  // Comparing modulo 2^32 is comparing, as long as there are fewer orders and levels than that.
  lemma CountsMeet(s: EngineDb, y: Layout)
    ensures CountsAgree(s, y) ==> s.bidTree.n == |Levels(y.bids)| && s.askTree.n == |Levels(y.asks)|
    ensures
      (|y.Resting()| < TWO32 && |Levels(y.bids)| + |Levels(y.asks)| < TWO32
        && s.bidTree.n == |Levels(y.bids)| && s.askTree.n == |Levels(y.asks)|) ==>
      (CountsAgree(s, y) <==>
        && s.index.n == (|Orders(y.bids)| + |Orders(y.asks)|) % TWO32
        && s.orderPool.used == (|Orders(y.bids)| + |Orders(y.asks)|) % TWO32
        && s.levelPool.used == (s.bidTree.n + s.askTree.n) % TWO32)
  {
  }
}
