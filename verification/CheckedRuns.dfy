/** Every state the engines reach between calls passes the run-time checker. */
module CheckedRuns {
  import opened Lists
  import opened Types
  import opened Rows
  import opened PriceTime
  import opened StoreBook
  import opened StoreCount
  import StoreRest
  import StoreClient
  import opened BookRuns
  import opened EngineDb
  import Store
  import Thash
  import Atree
  import Llist
  import Checker
  import Invariants

  // What holds between calls, for either engine; nothing is said of the stored totals.
  ghost predicate Steady(s: EngineDb)
    reads s`db, s.orderPool, s.levelPool, s.index, s.index.buckets, s.bidTree, s.askTree, s.orderRows, s.levelRows
  {
    s.Valid() && Kept(s.db, s.cap, null) && Fits(s.cap, BookOf(s.db))
  }

  // ---- reading a valid tree off its links ----

  // What the links of a row of a valid tree say.
  lemma Links(t: Atree.PriceTree, x: LevelRow)
    requires t.Valid() && x in t.sh.pos
    ensures x.inTree && t.sh.Placed(x)
    ensures x.left != null <==> t.sh.lo[x] < t.sh.pos[x]
    ensures x.left != null ==>
        x.left in t.sh.pos && t.sh.lo[x.left] == t.sh.lo[x] && t.sh.hi[x.left] == t.sh.pos[x] && x.left.parent == x
    ensures x.right != null <==> t.sh.pos[x] + 1 < t.sh.hi[x]
    ensures x.right != null ==>
        x.right in t.sh.pos && t.sh.lo[x.right] == t.sh.pos[x] + 1 && t.sh.hi[x.right] == t.sh.hi[x]
        && x.right.parent == x
  {
    assert t.LinkOk(x) && t.sh.Placed(x);
  }

  ghost function Read(t: Atree.PriceTree, queues: map<LevelRow, seq<OrderRow>>, x: LevelRow?): Checker.Tree
    requires t.Valid() && (x != null ==> x in t.sh.pos)
    reads t`root, t`n, t`sh, t.sh.pos.Keys`price, t.sh.pos.Keys`left, t.sh.pos.Keys`right, t.sh.pos.Keys`parent
    reads t.sh.pos.Keys`inTree
    decreases if x == null then 0 else t.sh.hi[x] - t.sh.lo[x]
  {
    if x == null then Checker.Leaf
    else
      Links(t, x);
      Checker.Node(Read(t, queues, x.left), x, Queue(queues, x), Read(t, queues, x.right))
  }

  lemma SliceSplit<R>(q: seq<R>, lo: nat, k: nat, hi: nat)
    requires lo <= k < hi <= |q|
    ensures q[lo..hi] == q[lo..k] + [q[k]] + q[k + 1..hi]
  {
  }

  // The tree read at x spans x's interval of positions, and mirrors the links.
  lemma {:induction false} ReadSpan(t: Atree.PriceTree, queues: map<LevelRow, seq<OrderRow>>, x: LevelRow)
    requires t.Valid() && x in t.sh.pos
    ensures 0 <= t.sh.lo[x] <= t.sh.hi[x] <= |t.sh.asc|
    ensures Checker.Levels(Read(t, queues, x)) == t.sh.asc[t.sh.lo[x]..t.sh.hi[x]]
    decreases t.sh.hi[x] - t.sh.lo[x]
  {
    Links(t, x);
    var asc, lo, k, hi := t.sh.asc, t.sh.lo[x], t.sh.pos[x], t.sh.hi[x];
    hide Atree.PriceTree.Valid;
    if x.left != null { ReadSpan(t, queues, x.left); }
    if x.right != null { ReadSpan(t, queues, x.right); }
    SliceSplit(asc, lo, k, hi);
  }

  // A queue that is sound in every respect for its level.
  ghost predicate Sound(s: EngineDb, g: Checker.Reach, side: u64, l: LevelRow)
    reads s`db, g.levels, g.orders
  {
    && l in g.levels && Checker.QueueIn(g, Queue(s.db.queues, l)) && Checker.LevelGood(l, side, Queue(s.db.queues, l))
  }

  lemma {:induction false} ReadMirrors(s: EngineDb, g: Checker.Reach, t: Atree.PriceTree, x: LevelRow, up: LevelRow?,
          side: u64)
    requires t.Valid() && x in t.sh.pos && x.parent == up
    requires forall l {:trigger Sound(s, g, side, l)} :: l in t.sh.pos ==> Sound(s, g, side, l)
    ensures Checker.Mirrors(g, Read(t, s.db.queues, x), x, up, side)
    decreases t.sh.hi[x] - t.sh.lo[x]
  {
    Links(t, x);
    hide Atree.PriceTree.Valid;
    assert Sound(s, g, side, x);
    if x.left != null { ReadMirrors(s, g, t, x.left, x, side); }
    if x.right != null { ReadMirrors(s, g, t, x.right, x, side); }
  }

  lemma {:induction false} ReadOrders(t: Atree.PriceTree, queues: map<LevelRow, seq<OrderRow>>, x: LevelRow,
          o: OrderRow)
    requires t.Valid() && x in t.sh.pos
    ensures o in Checker.Orders(Read(t, queues, x)) <==>
        exists l {:trigger Queue(queues, l)} :: l in Checker.Levels(Read(t, queues, x)) && o in Queue(queues, l)
    decreases t.sh.hi[x] - t.sh.lo[x]
  {
    Links(t, x);
    hide Atree.PriceTree.Valid;
    if x.left != null { ReadOrders(t, queues, x.left, o); }
    if x.right != null { ReadOrders(t, queues, x.right, o); }
    var l, r := Checker.Levels(Read(t, queues, x.left)), Checker.Levels(Read(t, queues, x.right));
    assert Checker.Levels(Read(t, queues, x)) == l + [x] + r;
  }

  ghost function RightSpine(t: Atree.PriceTree, x: LevelRow?): (q: seq<LevelRow>)
    requires t.Valid() && (x != null ==> x in t.sh.pos)
    reads t`root, t`n, t`sh, t.sh.pos.Keys`price, t.sh.pos.Keys`left, t.sh.pos.Keys`right, t.sh.pos.Keys`parent
    reads t.sh.pos.Keys`inTree
    ensures Checker.RightSpine(x, q)
    decreases if x == null then 0 else t.sh.hi[x] - t.sh.lo[x]
  {
    if x == null then [] else Links(t, x); [x] + RightSpine(t, x.right)
  }

  ghost function LeftSpine(t: Atree.PriceTree, x: LevelRow?): (q: seq<LevelRow>)
    requires t.Valid() && (x != null ==> x in t.sh.pos)
    reads t`root, t`n, t`sh, t.sh.pos.Keys`price, t.sh.pos.Keys`left, t.sh.pos.Keys`right, t.sh.pos.Keys`parent
    reads t.sh.pos.Keys`inTree
    ensures Checker.LeftSpine(x, q)
    decreases if x == null then 0 else t.sh.hi[x] - t.sh.lo[x]
  {
    if x == null then [] else Links(t, x); [x] + LeftSpine(t, x.left)
  }

  // ---- reading the index off its chains ----

  function IndexOf(q: seq<OrderRow>, o: OrderRow): nat {
    if q == [] || q[0] == o then 0 else 1 + IndexOf(q[1..], o)
  }

  lemma {:induction false} IndexIs(q: seq<OrderRow>, i: nat)
    requires Distinct(q) && i < |q|
    ensures IndexOf(q, q[i]) == i
  {
    if i > 0 {
      assert q[0] != q[i];
      assert Distinct(q[1..]) by {
        assert forall a, b :: 0 <= a < b < |q| - 1 ==> q[1..][a] == q[a + 1] && q[1..][b] == q[b + 1];
      }
      IndexIs(q[1..], i - 1);
    }
  }

  // What one place in one chain of a valid index says.
  lemma ChainLinks(x: Thash.HashIndex, b: nat, i: nat)
    requires x.Valid() && b < |x.chains| && i < |x.chains[b]|
    ensures x.chains[b][i] in x.hashed && x.chains[b][i].hashNext == RowAt(x.chains[b], i + 1)
    ensures x.chains[b][i].id % x.buckets.Length == b && Distinct(x.chains[b])
  {
    assert x.Chained(b, i) && x.BucketOk(b);
  }

  // The distance from the end of the chain.
  ghost function Distance(x: Thash.HashIndex, o: OrderRow): nat
    requires |x.chains| == x.buckets.Length > 0
    reads x`chains, o`id
  {
    var q := x.chains[o.id % x.buckets.Length];
    if IndexOf(q, o) < |q| then |q| - IndexOf(q, o) else 0
  }

  lemma DistanceDrops(x: Thash.HashIndex, o: OrderRow)
    requires x.Valid() && o in x.hashed
    ensures o.hashNext != null ==> o.hashNext in x.hashed && Distance(x, o.hashNext) < Distance(x, o)
  {
    var b := o.id % x.buckets.Length;
    assert x.Listed(o);
    var i :| 0 <= i < |x.chains[b]| && x.chains[b][i] == o;
    ChainLinks(x, b, i);
    IndexIs(x.chains[b], i);
    if i + 1 < |x.chains[b]| {
      ChainLinks(x, b, i + 1);
      IndexIs(x.chains[b], i + 1);
    }
  }

  ghost function ReachOf(s: EngineDb): Checker.Reach
    requires s.Valid()
    reads s`db, s.orderPool, s.levelPool, s.index, s.index.buckets, s.bidTree, s.askTree, s.orderRows, s.levelRows
  {
    Parts2(s);
    Checker.Reach(s.db.orders.Keys, s.db.prices.Keys, map o | o in s.db.orders :: Distance(s.index, o),
      RightSpine(s.bidTree, s.bidTree.root), LeftSpine(s.askTree, s.askTree.root))
  }

  // The parts of a valid store the reading relies on.
  lemma Parts2(s: EngineDb)
    requires s.Valid()
    ensures s.index.Valid() && s.index.hashed == s.db.hash && |s.index.chains| == s.index.buckets.Length > 0
    ensures s.bidTree.Valid() && s.askTree.Valid() && s.bidTree.sh.asc == s.db.bids && s.askTree.sh.asc == s.db.asks
    ensures s.bidTree.root != null ==> s.bidTree.root in s.bidTree.sh.pos
    ensures s.askTree.root != null ==> s.askTree.root in s.askTree.sh.pos
    ensures s.db.orders.Keys <= s.orderRows && s.db.prices.Keys <= s.levelRows
    ensures s.bidTree.sh.pos.Keys <= s.db.prices.Keys && s.askTree.sh.pos.Keys <= s.db.prices.Keys
  {
  }

  // Between calls every live order is hashed.
  lemma AllHashed(s: EngineDb)
    requires Steady(s)
    ensures s.db.hash == s.db.orders.Keys
  {
    hide s.Valid;
    forall o | o in s.db.orders ensures o in s.db.hash {
      var t, i := LiveListed(s.db, s.cap, o);
      Listed(s.db, s.cap, t, i);
    }
    StoreRest.KeptSound(s.db, s.cap, null);
  }

  lemma QueueSound(s: EngineDb, side: u64, l: LevelRow, i: nat)
    requires Steady(s) && IsSide(side) && l in StoreBook.Levels(s.db, side) && l in s.db.queues && i < |s.db.queues[l]|
    ensures var o := s.db.queues[l][i];
      o in s.db.orders && Checker.OrderFits(l, side, o) && s.db.orders[o].remaining == o.remaining
  {
    s.Parts();
    hide s.Valid;
    assert LevelKept(s.db, side, l, null);
    assert Placed(s.db, side, l, i);
    hide Kept;
    s.LevelParts(l);
    s.OrderParts(s.db.queues[l][i]);
  }

  lemma LevelFull(s: EngineDb, side: u64, l: LevelRow)
    requires Steady(s) && IsSide(side) && l in s.db.Tree(side)
    ensures l in s.db.prices && l in s.db.queues && s.db.queues[l] != [] && l in StoreBook.Levels(s.db, side)
  {
    StoreRest.TreeListed(s.db, side, l);
    assert LevelKept(s.db, side, l, null);
    hide Kept;
    s.TreeParts(side);
  }

  // A live level lies in the tree of its orders' side, and its queue is sound.
  lemma LevelSound(s: EngineDb, g: Checker.Reach, side: u64, l: LevelRow)
    requires Steady(s) && s.Modular() && g.orders == s.db.orders.Keys && g.levels == s.db.prices.Keys
    requires IsSide(side) && l in s.db.Tree(side)
    ensures Sound(s, g, side, l)
  {
    hide s.Valid, Kept, Fits;
    LevelFull(s, side, l);
    s.LevelParts(l);
    assert l.total == s.db.Total(l) % TWO64 by { var was := s.TotalAt(false, l); }
    forall i | 0 <= i < |s.db.queues[l]| ensures QueueSoundAt(s, side, l, i) { QueueSound(s, side, l, i); }
    hide Steady;
    LevelGoodIs(s, side, l);
  }

  ghost predicate QueueSoundAt(s: EngineDb, side: u64, l: LevelRow, i: nat)
    requires l in s.db.queues && i < |s.db.queues[l]|
    reads s`db, l`price, s.db.queues[l]
  {
    var o := s.db.queues[l][i];
    o in s.db.orders && Checker.OrderFits(l, side, o) && s.db.orders[o].remaining == o.remaining
  }

  lemma LevelGoodIs(s: EngineDb, side: u64, l: LevelRow)
    requires l in s.db.queues && s.db.queues[l] != [] && Llist.QueueOk(l, s.db.queues[l])
    requires l.total == s.db.Total(l) % TWO64
    requires forall i {:trigger QueueSoundAt(s, side, l, i)} :: 0 <= i < |s.db.queues[l]| ==>
        QueueSoundAt(s, side, l, i)
    ensures Checker.LevelGood(l, side, s.db.queues[l])
    ensures forall i {:trigger s.db.queues[l][i]} :: 0 <= i < |s.db.queues[l]| ==> s.db.queues[l][i] in s.db.orders
  {
    var q := s.db.queues[l];
    forall i | 0 <= i < |q|
        ensures q[i] in s.db.orders && Checker.OrderFits(l, side, q[i])
        && s.db.orders[q[i]].remaining == q[i].remaining {
      assert QueueSoundAt(s, side, l, i);
    }
    SumIs(s.db.orders, q);
    hide Llist.QueueOk, Checker.OrderFits, QueueSoundAt;
  }

  lemma {:induction false} SumIs(m: map<OrderRow, Order>, q: seq<OrderRow>)
    requires forall i {:trigger q[i]} :: 0 <= i < |q| ==> q[i] in m && m[q[i]].remaining == q[i].remaining
    ensures Checker.Sum(q) == Store.Sum(m, q)
  {
    if q != [] {
      var p, o := q[..|q| - 1], q[|q| - 1];
      forall i | 0 <= i < |p| ensures p[i] in m && m[p[i]].remaining == p[i].remaining { assert p[i] == q[i]; }
      SumIs(m, p);
      assert q == p + [o];
      Store.SumAppend(m, p, [o]);
    }
  }

  lemma OrderLinks(s: EngineDb, o: OrderRow)
    requires Steady(s) && o in s.db.orders
    ensures o.next != null ==> o.next in s.db.orders
  {
    KeptQueued(s.db, s.cap, o);
    s.OrderParts(o);
    s.LevelParts(o.level);
    hide s.Valid, Kept, Fits;
    var q := s.db.queues[o.level];
    var i :| 0 <= i < |q| && q[i] == o;
    assert Llist.Linked(o.level, q, i);
  }

  lemma BucketLinks(s: EngineDb, b: nat)
    requires Steady(s) && b < s.index.buckets.Length
    ensures s.index.buckets[b] != null ==> s.index.buckets[b] in s.db.orders
  {
    Parts2(s);
    AllHashed(s);
    hide s.Valid;
    assert s.index.BucketOk(b);
    if s.index.chains[b] != [] { ChainLinks(s.index, b, 0); }
  }

  // Everything within reach is ranked by its distance from the end of its chain.
  lemma ReachRanks(s: EngineDb)
    requires Steady(s)
    ensures ReachOf(s).orders == s.db.orders.Keys && ReachOf(s).levels == s.db.prices.Keys
    ensures |ReachOf(s).orders| < TWO32 && |ReachOf(s).levels| < TWO32
    ensures s.index.buckets.Length > 0
    ensures forall o {:trigger o in ReachOf(s).rank} :: o in s.db.orders ==>
      o in s.index.hashed && |s.index.chains| == s.index.buckets.Length && o in ReachOf(s).rank
          && ReachOf(s).rank[o] == Distance(s.index, o)
  {
    Parts2(s);
    AllHashed(s);
    s.Parts();
    assert |ReachOf(s).orders| == |s.db.orders| && |ReachOf(s).levels| == |s.db.prices|;
  }

  lemma HashReached(s: EngineDb, o: OrderRow)
    requires Steady(s) && o in s.db.orders
    ensures |s.index.chains| == s.index.buckets.Length > 0
    ensures o.hashNext != null ==> o.hashNext in s.db.orders && Distance(s.index, o.hashNext) < Distance(s.index, o)
  {
    Parts2(s);
    AllHashed(s);
    hide s.Valid, Kept, Fits, Distance;
    DistanceDrops(s.index, o);
  }

  lemma OrderReached(s: EngineDb, o: OrderRow)
    requires Steady(s) && o in s.db.orders
    ensures Checker.OrderClosed(ReachOf(s), o)
  {
    hide s.Valid, Kept, Fits, ReachOf, Distance;
    ReachRanks(s);
    OrderLinks(s, o);
    HashReached(s, o);
    var g := ReachOf(s);
    assert o in g.rank;
    if o.hashNext != null { assert o.hashNext in g.rank; }
  }

  lemma LevelReached(s: EngineDb, l: LevelRow)
    requires Steady(s) && l in s.db.prices
    ensures Checker.LevelClosed(ReachOf(s), l)
  {
    ReachRanks(s);
    hide s.Valid, ReachOf;
    s.LevelParts(l);
    LevelLinks(s, l);
  }

  lemma ReachClosed(s: EngineDb)
    requires Steady(s)
    ensures Checker.Closed(s, ReachOf(s))
  {
    ReachRanks(s);
    hide Steady, ReachOf, Distance, Checker.OrderClosed, Checker.LevelClosed;
    var g := ReachOf(s);
    forall b | 0 <= b < s.index.buckets.Length ensures Checker.OrderIn(g, s.index.buckets[b]) { BucketLinks(s, b); }
    forall o | o in g.orders ensures Checker.OrderClosed(g, o) { OrderReached(s, o); }
    forall l | l in g.levels ensures Checker.LevelClosed(g, l) { LevelReached(s, l); }
  }

  lemma LevelLinks(s: EngineDb, l: LevelRow)
    requires Steady(s) && l in s.db.prices
    ensures (l.left != null ==> l.left in s.db.prices) && (l.right != null ==> l.right in s.db.prices)
  {
    Parts2(s);
    s.TreeParts(BUY);
    s.TreeParts(SELL);
    hide s.Valid;
    var t := if l in StoreBook.Levels(s.db, BUY) then BUY else SELL;
    StoreClient.LevelsPriced(s, t);
    assert l in StoreBook.Levels(s.db, t);
    assert l in s.db.Tree(t);
    Links(s.TreeOf(t), l);
  }

  // Following the links from the i-th place of a chain is the rest of the chain.
  lemma {:induction false} ChainRead(s: EngineDb, g: Checker.Reach, b: nat, i: nat)
    requires s.index.Valid() && Checker.Closed(s, g) && b < s.index.buckets.Length && i <= |s.index.chains[b]|
    requires Checker.OrderIn(g, RowAt(s.index.chains[b], i))
    ensures Checker.Chain(s, g, RowAt(s.index.chains[b], i)) == s.index.chains[b][i..]
    decreases |s.index.chains[b]| - i
  {
    var q := s.index.chains[b];
    if i < |q| {
      ChainLinks(s.index, b, i);
      assert Checker.OrderClosed(g, q[i]);
      ChainRead(s, g, b, i + 1);
      assert q[i..] == [q[i]] + q[i + 1..];
    }
  }

  lemma BucketRead(s: EngineDb, g: Checker.Reach, b: nat)
    requires s.index.Valid() && Checker.Closed(s, g) && b < s.index.buckets.Length
    ensures Checker.Bucket(s, g, b) == s.index.chains[b]
  {
    assert s.index.BucketOk(b) && Checker.OrderIn(g, s.index.buckets[b]);
    ChainRead(s, g, b, 0);
  }

  // The entries of the first n buckets are those hashed rows whose ids belong there, each once.
  lemma {:induction false} EntriesRead(s: EngineDb, g: Checker.Reach, n: nat)
    requires s.index.Valid() && Checker.Closed(s, g) && n <= s.index.buckets.Length
    ensures Distinct(Checker.Entries(s, g, n))
    ensures forall i {:trigger Checker.Entries(s, g, n)[i]} :: 0 <= i < |Checker.Entries(s, g, n)| ==>
      Checker.Entries(s, g, n)[i] in s.index.hashed && Checker.Entries(s, g, n)[i].id % s.index.buckets.Length < n
    ensures forall o {:trigger o in s.index.hashed} :: o in s.index.hashed && o.id % s.index.buckets.Length < n ==>
        o in Checker.Entries(s, g, n)
  {
    if n > 0 {
      var e, q, f := Checker.Entries(s, g, n - 1), s.index.chains[n - 1], Checker.Entries(s, g, n);
      EntriesRead(s, g, n - 1);
      BucketRead(s, g, n - 1);
      hide s.index.Valid, Checker.Closed, Checker.Entries;
      EntriesLast(s, g, n);
      forall i | 0 <= i < |q|
          ensures q[i] in s.index.hashed && q[i].id % s.index.buckets.Length == n - 1 && Distinct(q) {
        ChainLinks(s.index, n - 1, i);
      }
      forall o | o in e ensures o !in q {
        var i :| 0 <= i < |e| && e[i] == o;
      }
      if q != [] { Invariants.DistinctJoin(e, q); } else { assert e + q == e; }
      forall o | o in s.index.hashed && o.id % s.index.buckets.Length < n ensures o in f { HashedListed(s.index, o); }
    }
  }

  lemma EntriesLast(s: EngineDb, g: Checker.Reach, n: nat)
    requires Checker.Closed(s, g) && 0 < n <= s.index.buckets.Length
    ensures Checker.Entries(s, g, n) == Checker.Entries(s, g, n - 1) + Checker.Bucket(s, g, n - 1)
  {
  }

  lemma HashedListed(x: Thash.HashIndex, o: OrderRow)
    requires x.Valid() && o in x.hashed
    ensures o in x.chains[o.id % x.buckets.Length]
  {
    assert x.Listed(o);
  }

  // ---- the whole state ----

  ghost function LayoutOf(s: EngineDb): Invariants.Layout
    requires s.Valid()
    reads s`db, s.orderPool, s.levelPool, s.index, s.index.buckets, s.bidTree, s.askTree, s.orderRows, s.levelRows
  {
    Parts2(s);
    Invariants.Layout(Read(s.bidTree, s.db.queues, s.bidTree.root), Read(s.askTree, s.db.queues, s.askTree.root))
  }

  lemma {:induction false} WholeTree(s: EngineDb, t: Atree.PriceTree, queues: map<LevelRow, seq<OrderRow>>)
    requires t.Valid()
    ensures t.root != null ==> t.root in t.sh.pos && t.root.parent == null
    ensures Checker.Levels(Read(t, queues, t.root)) == t.sh.asc && t.n == |t.sh.asc|
  {
    if t.root != null { ReadSpan(t, queues, t.root); }
  }

  // Both trees mirror their links, and list the levels of the store in ascending order.
  lemma {:induction false} TreeRead(s: EngineDb, g: Checker.Reach, side: u64)
    requires Steady(s) && s.Modular() && g.orders == s.db.orders.Keys && g.levels == s.db.prices.Keys && IsSide(side)
    ensures var t := s.TreeOf(side); t.Valid() && (t.root != null ==> t.root in t.sh.pos)
    ensures var t := s.TreeOf(side); Checker.Mirrors(g, Read(t, s.db.queues, t.root), t.root, null, side)
    ensures var t := s.TreeOf(side);
        Checker.Levels(Read(t, s.db.queues, t.root)) == s.db.Tree(side) && t.n == |s.db.Tree(side)|
  {
    hide s.Valid, Kept, Fits, Atree.PriceTree.Valid, Sound;
    var t := s.TreeOf(side);
    s.TreeParts(side);
    WholeTree(s, t, s.db.queues);
    forall l | l in t.sh.pos ensures Sound(s, g, side, l) { LevelSound(s, g, side, l); }
    if t.root != null { ReadMirrors(s, g, t, t.root, null, side); }
  }

  lemma TreeSorted(s: EngineDb, side: u64)
    requires s.Valid()
    ensures Checker.Ascending(s.db.Tree(side))
    ensures forall i {:trigger s.db.Tree(side)[i]} :: 0 <= i < |s.db.Tree(side)| ==> s.db.Tree(side)[i] in s.db.prices
  {
    hide s.Valid;
    s.TreeAscending(side);
    var q := s.db.Tree(side);
    forall i | 0 <= i < |q| ensures q[i] in s.db.prices && q[i].price == s.db.prices[q[i]] {
      assert q[i] in s.db.Tree(side);
      s.LevelParts(q[i]);
    }
  }

  // Some listed order stands for each level's price.
  lemma LevelListed(s: EngineDb, side: u64, l: LevelRow) returns (i: nat)
    requires Steady(s) && IsSide(side) && l in s.db.Tree(side)
    ensures i < |SideOf(s.db, side)| && SideOf(s.db, side)[i].price == l.price
  {
    hide s.Valid, Fits;
    LevelFull(s, side, l);
    s.LevelParts(l);
    var o := s.db.queues[l][0];
    QueueSound(s, side, l, 0);
    assert LevelKept(s.db, side, l, null) && Placed(s.db, side, l, 0);
    FlatMember(s.db.queues, StoreBook.Levels(s.db, side), o);
    assert o in SideRows(s.db, side) by {
      var m :| 0 <= m < |StoreBook.Levels(s.db, side)| && StoreBook.Levels(s.db, side)[m] == l;
      assert o in Queue(s.db.queues, StoreBook.Levels(s.db, side)[m]);
    }
    i :| 0 <= i < |SideRows(s.db, side)| && SideRows(s.db, side)[i] == o;
    Listed(s.db, s.cap, side, i);
  }

  lemma TreesBelow(s: EngineDb)
    requires Steady(s)
    ensures Invariants.Below(s.db.bids, s.db.asks)
  {
    hide s.Valid, Kept;
    forall i, j | 0 <= i < |s.db.bids| && 0 <= j < |s.db.asks| ensures s.db.bids[i].price < s.db.asks[j].price {
      assert s.db.bids[i] in s.db.Tree(BUY) && s.db.asks[j] in s.db.Tree(SELL);
      var m := LevelListed(s, BUY, s.db.bids[i]);
      var n := LevelListed(s, SELL, s.db.asks[j]);
      assert BookOf(s.db).bids[m].price < BookOf(s.db).asks[n].price;
    }
  }

  lemma EveryLevel(s: EngineDb, l: LevelRow)
    requires Steady(s) && l in s.db.prices
    ensures l in s.db.Tree(BUY) || l in s.db.Tree(SELL)
  {
    var t := if l in StoreBook.Levels(s.db, BUY) then BUY else SELL;
    InTree(s.db, t, l);
  }

  lemma LevelsApart(s: EngineDb)
    requires Steady(s)
    ensures Distinct(s.db.bids + s.db.asks)
    ensures forall i {:trigger (s.db.bids + s.db.asks)[i]} :: 0 <= i < |s.db.bids + s.db.asks| ==>
        (s.db.bids + s.db.asks)[i] in s.db.prices
  {
    var d := s.db;
    assert d.bids == d.Tree(BUY) && d.asks == d.Tree(SELL);
    StoreRest.TreeDistinct(d, s.cap, BUY);
    StoreRest.TreeDistinct(d, s.cap, SELL);
    hide s.Valid, Kept, Fits;
    forall l | l in d.bids ensures l !in d.asks { s.TreesDisjoint(l); }
    Invariants.DistinctJoin(d.bids, d.asks);
  }

  // The two trees hold every live level.
  lemma LevelsCount(s: EngineDb)
    requires Steady(s)
    ensures |s.db.bids| + |s.db.asks| == |s.db.prices|
    ensures forall l {:trigger l in s.db.prices} :: l in s.db.prices ==> l in s.db.Tree(BUY) || l in s.db.Tree(SELL)
  {
    hide s.Valid, Kept, Fits, Steady;
    var d := s.db;
    LevelsApart(s);
    forall l | l in d.prices ensures l in d.bids + d.asks && (l in d.Tree(BUY) || l in d.Tree(SELL)) {
      EveryLevel(s, l);
      assert d.bids == d.Tree(BUY) && d.asks == d.Tree(SELL);
    }
    DistinctBelow(d.bids + d.asks, d.prices.Keys);
    CoveredBelow(d.bids + d.asks, d.prices.Keys);
    assert |d.prices.Keys| == |d.prices|;
  }

  lemma InTree(d: Store.Db, t: u64, l: LevelRow)
    requires IsSide(t) && l in StoreBook.Levels(d, t)
    ensures l in d.Tree(t)
  {
    var m :| 0 <= m < |StoreBook.Levels(d, t)| && StoreBook.Levels(d, t)[m] == l;
    assert d.Tree(t)[if t == BUY then |d.bids| - 1 - m else m] == l;
  }

  lemma TreeHolds(s: EngineDb, side: u64, o: OrderRow)
    requires Steady(s) && IsSide(side)
    requires var t := s.TreeOf(side); t.Valid() && (t.root != null ==> t.root in t.sh.pos)
    ensures var t := s.TreeOf(side);
      o in Checker.Orders(Read(t, s.db.queues, t.root)) <==>
          exists l {:trigger Queue(s.db.queues, l)} :: l in s.db.Tree(side) && o in Queue(s.db.queues, l)
  {
    var t := s.TreeOf(side);
    s.TreeParts(side);
    WholeTree(s, t, s.db.queues);
    if t.root != null { ReadOrders(t, s.db.queues, t.root, o); }
  }

  // The layout holds exactly the live orders.
  lemma LayoutHolds(s: EngineDb, o: OrderRow)
    requires Steady(s)
    ensures o in LayoutOf(s).Resting() <==> o in s.db.orders
  {
    hide s.Valid, Kept, Fits, Read;
    Parts2(s);
    TreeHolds(s, BUY, o);
    TreeHolds(s, SELL, o);
    LevelsCount(s);
    if o in s.db.orders {
      KeptQueued(s.db, s.cap, o);
      var l :| l in s.db.queues && o in s.db.queues[l];
      s.Parts();
      assert Queue(s.db.queues, l) == s.db.queues[l] && l in s.db.prices;
      assert l in s.db.Tree(BUY) || l in s.db.Tree(SELL);
    }
    if o in LayoutOf(s).Resting() {
      var l :| (l in s.db.Tree(BUY) || l in s.db.Tree(SELL)) && o in Queue(s.db.queues, l);
      s.LevelParts(l);
    }
  }

  lemma LayoutIndexed(s: EngineDb, g: Checker.Reach, q: seq<OrderRow>)
    requires Steady(s) && Checker.Closed(s, g) && g.orders == s.db.orders.Keys
    requires forall o {:trigger o in q} :: o in g.orders ==> o in q
    requires Checker.QueueIn(g, q)
    ensures Invariants.Indexed(s, g, q) && Invariants.DistinctIds(q)
  {
    Parts2(s);
    AllHashed(s);
    hide s.Valid, Kept, Fits, Checker.Closed;
    EntriesRead(s, g, s.index.buckets.Length);
    var e := Invariants.AllEntries(s, g);
    forall o | o in g.orders ensures o in e <==> o in q {
      assert o in s.index.hashed && 0 <= o.id % s.index.buckets.Length < s.index.buckets.Length;
    }
    forall b, i | 0 <= b < s.index.buckets.Length && 0 <= i < |Checker.Bucket(s, g, b)|
        ensures Invariants.Homed(s, g, b, i) {
      BucketRead(s, g, b);
      ChainLinks(s.index, b, i);
    }
    forall i, j | 0 <= i < |q| && 0 <= j < |q| ensures Invariants.OneId(q[i], q[j]) {
      IndexOne(s.index, q[i], q[j]);
    }
  }

  lemma IndexOne(x: Thash.HashIndex, o: OrderRow, p: OrderRow)
    requires x.Valid() && o in x.hashed && p in x.hashed
    ensures o.id == p.id ==> o == p
  {
    assert x.OneId(o, p);
  }

  // Within reach is what the store calls live.
  lemma ReachLive(s: EngineDb)
    requires s.Valid()
    ensures ReachOf(s).orders == s.db.orders.Keys && ReachOf(s).levels == s.db.prices.Keys
    ensures Invariants.Spines(s, ReachOf(s))
  {
    Parts2(s);
  }

  lemma {:induction false} LayoutTrees(s: EngineDb, g: Checker.Reach)
    requires Steady(s) && s.Modular() && g.orders == s.db.orders.Keys && g.levels == s.db.prices.Keys
    ensures var y := LayoutOf(s);
      && Checker.Mirrors(g, y.bids, s.bidTree.root, null, BUY) && Checker.Mirrors(g, y.asks, s.askTree.root, null, SELL)
      && Checker.Levels(y.bids) == s.db.bids && Checker.Levels(y.asks) == s.db.asks
      && s.bidTree.n == |s.db.bids| && s.askTree.n == |s.db.asks| && Invariants.Sorted(g, y)
  {
    hide s.Valid, Kept, Fits, Checker.Mirrors, Read;
    TreeRead(s, g, BUY);
    TreeRead(s, g, SELL);
    assert s.TreeOf(BUY) == s.bidTree && s.TreeOf(SELL) == s.askTree && s.db.Tree(BUY) == s.db.bids;
    assert s.db.Tree(SELL) == s.db.asks;
    hide Steady;
    TreeSorted(s, BUY);
    TreeSorted(s, SELL);
    TreesBelow(s);
  }

  lemma LayoutOrders(s: EngineDb, g: Checker.Reach)
    requires Steady(s) && s.Modular() && Checker.Closed(s, g) && g.orders == s.db.orders.Keys
    requires g.levels == s.db.prices.Keys
    ensures var q := LayoutOf(s).Resting();
      Checker.QueueIn(g, q) && Invariants.DistinctIds(q) && Invariants.Indexed(s, g, q)
          && |q| == |s.db.orders| == |Invariants.AllEntries(s, g)| < TWO32
  {
    LayoutTrees(s, g);
    s.Parts();
    hide s.Valid, Kept, Fits, Steady, Checker.Mirrors, Checker.Closed, LayoutOf, Invariants.Indexed,
        Invariants.DistinctIds;
    var y := LayoutOf(s);
    Invariants.LayoutApart(s, g, y);
    forall o | o in g.orders ensures o in y.Resting() { LayoutHolds(s, o); }
    LayoutIndexed(s, g, y.Resting());
    Invariants.SameSize(s, g, y.Resting());
    LayoutSize(s);
  }

  // The chains hold no more rows than there are live orders.
  lemma EntriesFew(s: EngineDb)
    requires s.Valid() && Checker.Closed(s, ReachOf(s))
    ensures |Invariants.AllEntries(s, ReachOf(s))| < TWO32
  {
    s.Parts();
    Parts2(s);
    var e := Invariants.AllEntries(s, ReachOf(s));
    hide s.Valid, Checker.Closed, ReachOf;
    EntriesRead(s, ReachOf(s), s.index.buckets.Length);
    DistinctBelow(e, s.index.hashed);
    SubsetSize(s.index.hashed, s.db.orders.Keys);
    assert |s.db.orders.Keys| == |s.db.orders|;
  }

  // Between calls all the checker relies on holds.
  lemma SteadyReach(s: EngineDb)
    requires Steady(s)
    ensures Checker.Closed(s, ReachOf(s)) && Invariants.Spines(s, ReachOf(s))
    ensures |Invariants.AllEntries(s, ReachOf(s))| < TWO32
    ensures ReachOf(s).orders == s.db.orders.Keys && ReachOf(s).levels == s.db.prices.Keys
  {
    ReachLive(s);
    ReachClosed(s);
    hide s.Valid, Kept, Fits, ReachOf, LayoutOf, Checker.Closed, Invariants.Indexed, Checker.QueueIn;
    EntriesFew(s);
  }

  // Between calls the state is consistent as long as the totals are right modulo 2^64.
  lemma SteadyConsistent(s: EngineDb)
    requires Steady(s) && s.Modular()
    ensures Checker.Closed(s, ReachOf(s)) && Invariants.Consistent(s, ReachOf(s), LayoutOf(s))
  {
    hide s.Valid, Kept, Fits, EngineDb.Modular, ReachOf, LayoutOf, Checker.Mirrors, Checker.Closed, Invariants.Sorted,
        Invariants.Indexed, Invariants.DistinctIds, Checker.QueueIn;
    var g := ReachOf(s);
    SteadyReach(s);
    Counters(s);
    LevelsCount(s);
    LayoutTrees(s, g);
    LayoutOrders(s, g);
  }

  // ---- and only then ----

  // Whatever mirrors the links lists the levels of the tree.
  lemma {:induction false} MirrorsSpan(g: Checker.Reach, m: Checker.Tree, t: Atree.PriceTree, x: LevelRow,
          up: LevelRow?, side: u64)
    requires t.Valid() && x in t.sh.pos && Checker.Mirrors(g, m, x, up, side)
    ensures 0 <= t.sh.lo[x] <= t.sh.hi[x] <= |t.sh.asc| && Checker.Levels(m) == t.sh.asc[t.sh.lo[x]..t.sh.hi[x]]
    decreases t.sh.hi[x] - t.sh.lo[x]
  {
    Links(t, x);
    var asc, lo, k, hi := t.sh.asc, t.sh.lo[x], t.sh.pos[x], t.sh.hi[x];
    hide Atree.PriceTree.Valid;
    if x.left != null { MirrorsSpan(g, m.left, t, x.left, x, side); }
    if x.right != null { MirrorsSpan(g, m.right, t, x.right, x, side); }
    SliceSplit(asc, lo, k, hi);
  }

  lemma {:induction false} MirrorsGood(g: Checker.Reach, m: Checker.Tree, p: LevelRow?, up: LevelRow?, side: u64,
          l: LevelRow) returns (q: seq<OrderRow>)
    requires Checker.Mirrors(g, m, p, up, side) && l in Checker.Levels(m)
    ensures Checker.LevelGood(l, side, q)
  {
    if l == m.row {
      q := m.queue;
    } else if l in Checker.Levels(m.left) {
      q := MirrorsGood(g, m.left, p.left, p, side, l);
    } else {
      q := MirrorsGood(g, m.right, p.right, p, side, l);
    }
  }

  // A sound queue at a level is its queue, so its total is right.
  lemma GoodTotal(s: EngineDb, side: u64, l: LevelRow, q: seq<OrderRow>)
    requires Steady(s) && l in s.db.prices && Checker.LevelGood(l, side, q)
    ensures l in s.db.queues && s.TotalAt(false, l)
  {
    s.LevelParts(l);
    var p := s.db.queues[l];
    Invariants.QueueUnique(l, p, q);
    forall i | 0 <= i < |p| ensures p[i] in s.db.orders && s.db.orders[p[i]].remaining == p[i].remaining {
      s.OrderParts(p[i]);
    }
    SumIs(s.db.orders, p);
  }

  lemma {:induction false} TreeTotals(s: EngineDb, g: Checker.Reach, m: Checker.Tree, side: u64, l: LevelRow)
    requires Steady(s) && IsSide(side) && l in s.db.Tree(side) && Checker.Mirrors(g, m, s.TreeOf(side).root, null, side)
    ensures l in s.db.queues && s.TotalAt(false, l)
  {
    hide s.Valid, Kept, Fits, Atree.PriceTree.Valid;
    var t := s.TreeOf(side);
    s.TreeParts(side);
    WholeTree(s, t, s.db.queues);
    RootSpan(t, l);
    MirrorsSpan(g, m, t, t.root, null, side);
    var q := MirrorsGood(g, m, t.root, null, side, l);
    assert l in s.db.prices;
    GoodTotal(s, side, l, q);
  }

  lemma RootSpan(t: Atree.PriceTree, l: LevelRow)
    requires t.Valid() && l in t.sh.asc
    ensures t.root != null && t.root in t.sh.pos && t.sh.lo[t.root] == 0 && t.sh.hi[t.root] == |t.sh.asc|
  {
  }

  lemma ConsistentTotals(s: EngineDb, g: Checker.Reach, y: Invariants.Layout)
    requires Steady(s) && Checker.Closed(s, g) && Invariants.Consistent(s, g, y)
    ensures s.Modular()
  {
    hide Kept, Fits, Checker.Mirrors, Checker.Closed;
    s.Parts();
    hide s.Valid;
    assert s.TreeOf(BUY) == s.bidTree && s.TreeOf(SELL) == s.askTree;
    forall l | l in s.db.queues ensures s.TotalAt(false, l) {
      EveryLevel(s, l);
      if l in s.db.Tree(BUY) { TreeTotals(s, g, y.bids, BUY, l); } else { TreeTotals(s, g, y.asks, SELL, l); }
    }
  }

  lemma Counters(s: EngineDb)
    requires Steady(s)
    ensures s.index.n == s.orderPool.used == |s.db.orders| && s.levelPool.used == |s.db.prices|
  {
    AllHashed(s);
    assert |s.db.orders.Keys| == |s.db.orders| && |s.db.prices.Keys| == |s.db.prices|;
  }

  lemma LayoutSize(s: EngineDb)
    requires Steady(s) && Distinct(LayoutOf(s).Resting())
    ensures |LayoutOf(s).Resting()| == |s.db.orders|
  {
    var q := LayoutOf(s).Resting();
    hide s.Valid, Kept, Fits, LayoutOf;
    forall i | 0 <= i < |q| ensures q[i] in s.db.orders.Keys { LayoutHolds(s, q[i]); }
    forall o | o in s.db.orders.Keys ensures o in q { LayoutHolds(s, o); }
    DistinctBelow(q, s.db.orders.Keys);
    CoveredBelow(q, s.db.orders.Keys);
    assert |s.db.orders.Keys| == |s.db.orders|;
  }

  lemma SteadyValid(s: EngineDb)
    requires Steady(s)
    ensures s.Valid()
  {
  }

  // Between calls the run-time checker returns true exactly if every stored total is right modulo 2^64.
  method CheckSteady(s: EngineDb) returns (ok: bool)
    requires Steady(s)
    ensures ok <==> s.Modular()
  {
    hide *;
    SteadyValid(s);
    SteadyReach(s);
    if s.Modular() { SteadyConsistent(s); }
    ghost var y;
    ok, y := Invariants.CheckInvariants(s, ReachOf(s), LayoutOf(s));
    if ok { ConsistentTotals(s, ReachOf(s), y); }
  }
}
