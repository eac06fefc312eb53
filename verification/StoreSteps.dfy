/** The steps the client takes on a store, each with its effect on the book. */
module StoreSteps {
  import opened Lists
  import opened Types
  import opened Rows
  import opened Store
  import opened PriceTime
  import opened StoreBook

  // The k-th order of level l leaves its queue, the index and the pool.
  function Removed(d: Db, l: LevelRow, k: nat): Db
    requires l in d.queues && k < |d.queues[l]|
  {
    var o := d.queues[l][k];
    d.(queues := d.queues[l := Without(d.queues[l], k)], hash := d.hash - {o}, orders := d.orders - {o})
  }

  // Where the k-th order of the m-th level stands on its side.
  function Place(d: Db, t: u64, m: nat, k: nat): nat
    requires m < |Levels(d, t)|
  {
    |Flat(d.queues, Levels(d, t)[..m])| + k
  }

  lemma PlaceIs(d: Db, t: u64, m: nat, k: nat)
    requires m < |Levels(d, t)| && Levels(d, t)[m] in d.queues && k < |d.queues[Levels(d, t)[m]]|
    ensures Place(d, t, m, k) < |SideRows(d, t)| && SideRows(d, t)[Place(d, t, m, k)] == d.queues[Levels(d, t)[m]][k]
    ensures m == 0 ==> Place(d, t, m, k) == k
  {
    FlatAt(d.queues, Levels(d, t), m);
  }

  lemma ValsWithout(p: map<OrderRow, Order>, os: seq<OrderRow>, j: nat)
    requires j < |os| && Distinct(os)
    ensures Vals(p - {os[j]}, Without(os, j)) == Without(Vals(p, os), j)
  {
    forall i | 0 <= i < |os| - 1 ensures Vals(p - {os[j]}, Without(os, j))[i] == Without(Vals(p, os), j)[i] {
      assert Without(os, j)[i] == os[if i < j then i else i + 1];
    }
  }

  lemma WithoutMiddle<T>(a: seq<T>, b: seq<T>, c: seq<T>, k: nat)
    requires k < |b|
    ensures a + Without(b, k) + c == Without(a + b + c, |a| + k)
  {
  }

  // One queue among distinct levels loses an order.
  lemma {:induction false} FlatWithout(p: map<LevelRow, seq<OrderRow>>, q: map<LevelRow, seq<OrderRow>>,
          ls: seq<LevelRow>, m: nat, k: nat)
    requires m < |ls| && Distinct(ls) && k < |Queue(p, ls[m])| && Queue(q, ls[m]) == Without(Queue(p, ls[m]), k)
    requires forall l {:trigger Queue(q, l)} :: l != ls[m] ==> Queue(q, l) == Queue(p, l)
    ensures |Flat(p, ls[..m])| + k < |Flat(p, ls)| && Flat(q, ls) == Without(Flat(p, ls), |Flat(p, ls[..m])| + k)
  {
    hide Queue, Flat;
    var before, after := ls[..m], ls[m + 1..];
    FlatAt(p, ls, m);
    FlatAt(q, ls, m);
    forall i | 0 <= i < |before| ensures before[i] == ls[i] {}
    forall i | 0 <= i < |after| ensures after[i] == ls[m + 1 + i] {}
    FlatSame(p, q, before);
    FlatSame(p, q, after);
    WithoutMiddle(Flat(p, before), Queue(p, ls[m]), Flat(p, after), k);
  }

  lemma RemovedSide(d: Db, cap: nat, t: u64, m: nat, k: nat)
    requires Sound(d, cap) && m < |Levels(d, t)| && Levels(d, t)[m] in d.queues && k < |d.queues[Levels(d, t)[m]]|
    ensures Place(d, t, m, k) < |SideOf(d, t)|
    ensures SideOf(Removed(d, Levels(d, t)[m], k), t) == Without(SideOf(d, t), Place(d, t, m, k))
  {
    hide Sound, Flat;
    var ls, l := Levels(d, t), Levels(d, t)[m];
    var e := Removed(d, l, k);
    LevelsDistinct(d, cap, t);
    PlaceIs(d, t, m, k);
    assert Levels(e, t) == ls;
    FlatWithout(d.queues, e.queues, ls, m, k);
    ValsWithout(d.orders, SideRows(d, t), Place(d, t, m, k));
  }

  lemma RemovedOther(d: Db, cap: nat, t: u64, l: LevelRow, k: nat)
    requires Sound(d, cap) && l in d.queues && k < |d.queues[l]| && l !in Levels(d, t)
    ensures SideOf(Removed(d, l, k), t) == SideOf(d, t)
  {
    var e, o := Removed(d, l, k), d.queues[l][k];
    FlatSame(d.queues, e.queues, Levels(d, t));
    assert Levels(e, t) == Levels(d, t);
    var rows := SideRows(d, t);
    forall i | 0 <= i < |rows| ensures Val(d.orders, rows[i]) == Val(e.orders, rows[i]) {
      FlatMember(d.queues, Levels(d, t), rows[i]);
      var n :| 0 <= n < |Levels(d, t)| && rows[i] in Queue(d.queues, Levels(d, t)[n]);
      var x := Levels(d, t)[n];
      var c :| 0 <= c < |d.queues[x]| && d.queues[x][c] == rows[i];
      assert OwnedOnce(d, x, l, c, k);
    }
  }

  lemma RemovedLevelKept(d: Db, cap: nat, l: LevelRow, k: nat, hole: LevelRow?, t: u64, x: LevelRow)
    requires Sound(d, cap) && l in d.queues && k < |d.queues[l]| && (hole == null || hole == l)
    requires IsSide(t) && LevelKept(d, t, x, hole)
    ensures LevelKept(Removed(d, l, k), t, x, l)
  {
    var e := Removed(d, l, k);
    forall i | 0 <= i < |e.queues[x]| ensures Placed(e, t, x, i) {
      var n := if x == l && i >= k then i + 1 else i;
      assert e.queues[x][i] == d.queues[x][n] && Placed(d, t, x, n);
      assert OwnedOnce(d, x, l, n, k) && QueueSound(d, l);
    }
  }

  lemma RemovedKept(d: Db, cap: nat, l: LevelRow, k: nat, hole: LevelRow?)
    requires Kept(d, cap, hole) && (hole == null || hole == l)
    requires l in d.queues && k < |d.queues[l]| && Sound(Removed(d, l, k), cap)
    ensures Kept(Removed(d, l, k), cap, l)
  {
    var e, o := Removed(d, l, k), d.queues[l][k];
    assert Levels(e, BUY) == Levels(d, BUY) && Levels(e, SELL) == Levels(d, SELL) && e.prices == d.prices;
    forall r | r in e.orders ensures e.Queued(r) {
      assert r in d.orders && r != o && d.Queued(r);
      var x :| x in d.queues && r in d.queues[x];
      if x == l { InWithout(d.queues[l], k, r); }
      assert r in e.queues[x];
    }
    hide Sound, LevelKept, Levels, Removed;
    forall t, x | IsSide(t) && x in Levels(e, t) ensures LevelKept(e, t, x, l) {
      assert LevelKept(d, t, x, hole);
      RemovedLevelKept(d, cap, l, k, hole, t, x);
    }
  }

  // The remaining quantity of the k-th order of level l drops to v.
  function Reduced(d: Db, l: LevelRow, k: nat, v: u64): Db
    requires l in d.queues && k < |d.queues[l]| && d.queues[l][k] in d.orders
  {
    d.(orders := d.orders[d.queues[l][k] := d.orders[d.queues[l][k]].(remaining := v)])
  }

  lemma ReducedSide(d: Db, cap: nat, t: u64, m: nat, k: nat, v: u64)
    requires Sound(d, cap) && m < |Levels(d, t)| && Levels(d, t)[m] in d.queues && k < |d.queues[Levels(d, t)[m]]|
    requires d.queues[Levels(d, t)[m]][k] in d.orders
    ensures Place(d, t, m, k) < |SideOf(d, t)|
    ensures SideOf(Reduced(d, Levels(d, t)[m], k, v), t) ==
        SideOf(d, t)[Place(d, t, m, k) := SideOf(d, t)[Place(d, t, m, k)].(remaining := v)]
  {
    LevelsDistinct(d, cap, t);
    PlaceIs(d, t, m, k);
    assert Levels(Reduced(d, Levels(d, t)[m], k, v), t) == Levels(d, t);
  }

  lemma ReducedOther(d: Db, cap: nat, t: u64, l: LevelRow, k: nat, v: u64)
    requires Sound(d, cap) && l in d.queues && k < |d.queues[l]| && d.queues[l][k] in d.orders && l !in Levels(d, t)
    ensures SideOf(Reduced(d, l, k, v), t) == SideOf(d, t)
  {
    var e := Reduced(d, l, k, v);
    assert Levels(e, t) == Levels(d, t);
    var rows := SideRows(d, t);
    forall i | 0 <= i < |rows| ensures Val(d.orders, rows[i]) == Val(e.orders, rows[i]) {
      FlatMember(d.queues, Levels(d, t), rows[i]);
      var n :| 0 <= n < |Levels(d, t)| && rows[i] in Queue(d.queues, Levels(d, t)[n]);
      var x := Levels(d, t)[n];
      var c :| 0 <= c < |d.queues[x]| && d.queues[x][c] == rows[i];
      assert OwnedOnce(d, x, l, c, k);
    }
  }

  lemma ReducedKept(d: Db, cap: nat, l: LevelRow, k: nat, v: u64, hole: LevelRow?)
    requires Kept(d, cap, hole) && l in d.queues && k < |d.queues[l]| && d.queues[l][k] in d.orders
    requires 0 < v <= d.orders[d.queues[l][k]].remaining && Sound(Reduced(d, l, k, v), cap)
    ensures Kept(Reduced(d, l, k, v), cap, hole)
  {
    var e := Reduced(d, l, k, v);
    forall t, x | IsSide(t) && x in Levels(e, t) ensures LevelKept(e, t, x, hole) {
      assert Levels(e, t) == Levels(d, t) && LevelKept(d, t, x, hole);
      forall i | 0 <= i < |e.queues[x]| ensures Placed(e, t, x, i) { assert Placed(d, t, x, i); }
    }
    forall r | r in e.orders ensures e.Queued(r) {
      assert d.Queued(r);
      var x :| x in d.queues && r in d.queues[x];
      assert r in e.queues[x];
    }
  }

  // ---- emptied levels ----

  lemma DroppedSide(d: Db, e: Db, t: u64, m: nat)
    requires m < |Levels(d, t)| && Levels(e, t) == Without(Levels(d, t), m) && e.orders == d.orders
    requires Levels(d, t)[m] in d.queues && d.queues[Levels(d, t)[m]] == []
    requires forall i {:trigger Levels(d, t)[i]} :: 0 <= i < |Levels(d, t)| && i != m ==>
        Levels(d, t)[i] != Levels(d, t)[m]
    requires e.queues == d.queues - {Levels(d, t)[m]}
    ensures SideOf(e, t) == SideOf(d, t)
  {
    var ls := Levels(d, t);
    FlatAt(d.queues, ls, m);
    FlatAppend(e.queues, ls[..m], ls[m + 1..]);
    FlatSame(d.queues, e.queues, ls[..m]);
    FlatSame(d.queues, e.queues, ls[m + 1..]);
  }

  lemma DroppedOther(d: Db, e: Db, t: u64, l: LevelRow)
    requires Levels(e, t) == Levels(d, t) && e.orders == d.orders && l !in Levels(d, t) && e.queues == d.queues - {l}
    ensures SideOf(e, t) == SideOf(d, t)
  {
    FlatSame(d.queues, e.queues, Levels(d, t));
  }

  lemma DroppedLevelKept(d: Db, e: Db, t: u64, x: LevelRow, l: LevelRow)
    requires LevelKept(d, t, x, l) && x != l && e.orders == d.orders && e.hash == d.hash
    requires e.queues == d.queues - {l} && e.prices == d.prices - {l}
    ensures LevelKept(e, t, x, null)
  {
    forall i | 0 <= i < |e.queues[x]| ensures Placed(e, t, x, i) { assert Placed(d, t, x, i); }
  }

  lemma DroppedKept(d: Db, e: Db, cap: nat, t: u64, m: nat)
    requires IsSide(t) && m < |Levels(d, t)| && Kept(d, cap, Levels(d, t)[m]) && Sound(e, cap)
    requires Levels(d, t)[m] in d.queues && d.queues[Levels(d, t)[m]] == []
    requires Levels(e, t) == Without(Levels(d, t), m) && Levels(e, Contra(t)) == Levels(d, Contra(t))
    requires e.orders == d.orders && e.hash == d.hash
    requires e.queues == d.queues - {Levels(d, t)[m]} && e.prices == d.prices - {Levels(d, t)[m]}
    ensures Kept(e, cap, null)
  {
    var l, ls := Levels(d, t)[m], Levels(d, t);
    LevelsDistinct(d, cap, t);
    hide Sound, LevelKept, Levels;
    forall s, x | IsSide(s) && x in Levels(e, s) ensures LevelKept(e, s, x, null) {
      if s == t {
        var i :| 0 <= i < |ls| - 1 && Without(ls, m)[i] == x;
        assert x == ls[if i < m then i else i + 1];
      } else {
        assert s == Contra(t);
      }
      DroppedLevelKept(d, e, s, x, l);
    }
    forall x | x in e.prices ensures x in Levels(e, BUY) || x in Levels(e, SELL) {
      assert x in d.prices && x != l;
      if x in ls { InWithout(ls, m, x); }
    }
    forall r | r in e.orders ensures e.Queued(r) {
      assert d.Queued(r);
      var x :| x in d.queues && r in d.queues[x];
      assert x != l && r in e.queues[x];
    }
  }
}
