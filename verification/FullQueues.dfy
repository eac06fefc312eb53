/** A side of the book told price by price: which orders wait at each price, and in what order. */
module FullQueues {
  import opened Lists
  import opened FullTypes
  import opened FullMatch
  import opened FullLaws
  import opened FullBook
  import PreChecks

  // The queue at a price, empty where there is no level.
  function QueueAt(ls: seq<Level>, price: int): seq<Order> {
    if ls == [] then [] else if ls[0].price == price then ls[0].queue else QueueAt(ls[1..], price)
  }

  lemma {:induction false} QueueNone(ls: seq<Level>, price: int)
    requires forall i {:trigger ls[i]} :: 0 <= i < |ls| ==> ls[i].price != price
    ensures QueueAt(ls, price) == []
  {
    if ls != [] { QueueNone(ls[1..], price); }
  }

  lemma {:induction false} QueuePrice(side: Side, ls: seq<Level>, price: int) returns (k: nat)
    requires LevelsOk(side, ls) && QueueAt(ls, price) != []
    ensures k < |ls| && ls[k].price == price && ls[k].queue == QueueAt(ls, price)
  {
    if ls[0].price == price {
      k := 0;
    } else {
      PreChecks.TailLevels(side, ls);
      k := QueuePrice(side, ls[1..], price);
      k := k + 1;
    }
  }

  // Behind its first level a side has no other of that price.
  lemma FirstOnly(side: Side, ls: seq<Level>)
    requires LevelsOk(side, ls) && ls != []
    ensures QueueAt(ls[1..], ls[0].price) == [] && LevelsOk(side, ls[1..]) && ls[0].queue != []
  {
    forall i | 0 <= i < |ls| - 1 ensures ls[1..][i].price != ls[0].price { assert ls[1..][i] == ls[i + 1]; }
    QueueNone(ls[1..], ls[0].price);
    PreChecks.TailLevels(side, ls);
    assert LevelOk(ls[0]);
  }

  // Replacing the first queue shows at its price and nowhere else.
  lemma {:induction false} QueueAtWith(side: Side, ls: seq<Level>, q: seq<Order>, price: int)
    requires LevelsOk(side, ls) && ls != []
    ensures QueueAt(WithQueue(ls, q), price) == if price == ls[0].price then q else QueueAt(ls, price)
  {
    FirstOnly(side, ls);
    if q != [] { assert WithQueue(ls, q)[1..] == ls[1..]; }
  }

  // The queues decide the side: there is one order of levels they can lie in.
  lemma {:induction false} QueuesDecide(side: Side, a: seq<Level>, b: seq<Level>)
    requires LevelsOk(side, a) && LevelsOk(side, b)
    requires forall p {:trigger QueueAt(a, p)} {:trigger QueueAt(b, p)} :: QueueAt(a, p) == QueueAt(b, p)
    ensures a == b
    decreases |a|
  {
    var first := if a != [] then a[0].price else if b != [] then b[0].price else 0;
    assert QueueAt(a, first) == QueueAt(b, first);
    if a != [] { FirstOnly(side, a); }
    if b != [] { FirstOnly(side, b); }
    if a != [] && b != [] {
      var i := QueuePrice(side, b, a[0].price);
      var j := QueuePrice(side, a, b[0].price);
      assert a[0].price == b[0].price;
      forall p ensures QueueAt(a[1..], p) == QueueAt(b[1..], p) {
        assert QueueAt(a, p) == QueueAt(b, p);
      }
      QueuesDecide(side, a[1..], b[1..]);
      assert a == [a[0]] + a[1..] && b == [b[0]] + b[1..];
    }
  }

  // ---- an order joins, leaves or is rewritten ----

  // From a to b order r has joined the back of the queue at its price, and nothing else has changed.
  ghost predicate JoinsBack(a: seq<Level>, b: seq<Level>, r: Order) {
    forall p {:trigger QueueAt(b, p)} :: QueueAt(b, p) == QueueAt(a, p) + if p == r.price then [r] else []
  }

  // The k-th order at price px has gone.
  ghost predicate Leaves(a: seq<Level>, b: seq<Level>, px: int, k: nat) {
    && k < |QueueAt(a, px)|
    && forall p {:trigger QueueAt(b, p)} :: QueueAt(b, p) ==
        if p == px then QueueAt(a, p)[..k] + QueueAt(a, p)[k + 1..] else QueueAt(a, p)
  }

  // The k-th order at price px has become r.
  ghost predicate Becomes(a: seq<Level>, b: seq<Level>, px: int, k: nat, r: Order) {
    && k < |QueueAt(a, px)|
    && forall p {:trigger QueueAt(b, p)} :: QueueAt(b, p) == if p == px then QueueAt(a, p)[k := r] else QueueAt(a, p)
  }

  // The order is the k-th at its price.
  ghost predicate StandsAt(ls: seq<Level>, o: Order, k: nat) {
    k < |QueueAt(ls, o.price)| && QueueAt(ls, o.price)[k] == o
  }

  lemma {:induction false} InsertJoins(side: Side, ls: seq<Level>, o: Order)
    requires LevelsOk(side, ls)
    ensures JoinsBack(ls, Insert(side, ls, o), o)
  {
    var r := Insert(side, ls, o);
    if ls == [] || Better(side, o.price, ls[0].price) {
      forall i | 0 <= i < |ls| ensures ls[i].price != o.price {
        assert i > 0 ==> Better(side, ls[0].price, ls[i].price);
      }
      QueueNone(ls, o.price);
      assert r[1..] == ls;
    } else if ls[0].price == o.price {
      assert r[1..] == ls[1..];
    } else {
      PreChecks.TailLevels(side, ls);
      InsertJoins(side, ls[1..], o);
      assert r[1..] == Insert(side, ls[1..], o);
      forall p ensures QueueAt(r, p) == QueueAt(ls, p) + if p == o.price then [o] else [] {
        assert QueueAt(r[1..], p) == QueueAt(ls[1..], p) + if p == o.price then [o] else [];
      }
    }
  }

  lemma {:induction false} PickPlace(q: seq<Order>, id: nat, o: Order) returns (k: nat)
    requires Among(q, id) && o.id == id
    ensures k < |q| && q[k] == Pick(q, id) && q[k].id == id && Drop(q, id) == q[..k] + q[k + 1..]
    ensures Rewrite(q, o) == q[k := o]
  {
    if q[0].id == id {
      k := 0;
    } else {
      var j := PickPlace(q[1..], id, o);
      k := j + 1;
      var d, w := Drop(q[1..], id), Rewrite(q[1..], o);
      assert Drop(q, id) == [q[0]] + d && Rewrite(q, o) == [q[0]] + w && Pick(q, id) == Pick(q[1..], id);
      hide Drop, Rewrite, Pick, Among;
      OneAhead(q, j, o);
    }
  }

  // Taking out or writing the j-th of the rest is taking out or writing the next of the whole.
  lemma OneAhead(q: seq<Order>, j: nat, o: Order)
    requires j + 1 < |q|
    ensures q[1..][j] == q[j + 1]
    ensures [q[0]] + (q[1..][..j] + q[1..][j + 1..]) == q[..j + 1] + q[j + 2..]
    ensures [q[0]] + q[1..][j := o] == q[j + 1 := o]
  {
  }

  // An order on a side stands in the queue at its price, and is found under its id.  Without it the other orders
  // keep their places, and so they do when another order takes its place.
  lemma {:induction false} PlaceOf(side: Side, ls: seq<Level>, id: nat, o: Order) returns (k: nat)
    requires LevelsOk(side, ls) && OnSide(ls, id) && o.id == id
    ensures StandsAt(ls, Get(ls, id), k) && Get(ls, id).id == id
    ensures Leaves(ls, Remove(ls, id), Get(ls, id).price, k)
    ensures Becomes(ls, RewriteIn(ls, o), Get(ls, id).price, k, o) && OnSide(RewriteIn(ls, o), id)
    ensures Get(RewriteIn(ls, o), id) == o
  {
    FirstOnly(side, ls);
    var l := ls[0];
    assert LevelOk(l);
    if Among(l.queue, id) {
      k := PlaceHere(side, ls, id, o);
    } else {
      k := PlaceOf(side, ls[1..], id, o);
      hide LevelsOk;
      var px := Get(ls, id).price;
      assert QueueAt(ls[1..], px) != [] && px != l.price;
      LeavesLater(l, ls[1..], Remove(ls[1..], id), px, k);
      BecomesLater(l, ls[1..], RewriteIn(ls[1..], o), px, k, o);
      assert RewriteIn(ls, o) == [l] + RewriteIn(ls[1..], o) && RewriteIn(ls, o)[1..] == RewriteIn(ls[1..], o);
    }
  }

  lemma {:induction false} PlaceHere(side: Side, ls: seq<Level>, id: nat, o: Order) returns (k: nat)
    requires LevelsOk(side, ls) && ls != [] && Among(ls[0].queue, id) && o.id == id
    ensures StandsAt(ls, Pick(ls[0].queue, id), k) && Pick(ls[0].queue, id).id == id
    ensures Leaves(ls, Remove(ls, id), ls[0].price, k) && Pick(ls[0].queue, id).price == ls[0].price
    ensures Becomes(ls, RewriteIn(ls, o), ls[0].price, k, o) && OnSide(RewriteIn(ls, o), id)
    ensures Get(RewriteIn(ls, o), id) == o
  {
    FirstOnly(side, ls);
    var l := ls[0];
    k := PickPlace(l.queue, id, o);
    assert LevelOk(l) && RestingOk(l.price, l.queue[k]);
    forall p ensures QueueAt(Remove(ls, id), p) ==
        if p == l.price then l.queue[..k] + l.queue[k + 1..] else QueueAt(ls, p) {
      QueueAtWith(side, ls, Drop(l.queue, id), p);
    }
    assert RewriteIn(ls, o)[1..] == ls[1..];
    Picked(l.queue, k, o);
  }

  // The order written into the place of the first of its id is the one found there.
  lemma {:induction false} Picked(q: seq<Order>, k: nat, o: Order)
    requires k < |q| && Rewrite(q, o) == q[k := o] && Among(q, o.id)
    ensures Among(q[k := o], o.id) && Pick(Rewrite(q, o), o.id) == o
  {
    var r := Rewrite(q, o);
    if q[0].id != o.id {
      assert r[0] == q[0] && r == [q[0]] + Rewrite(q[1..], o) && r[1..] == Rewrite(q[1..], o);
      var j := PickPlace(q[1..], o.id, o);
      Picked(q[1..], j, o);
    }
  }

  lemma LeavesLater(l: Level, a: seq<Level>, b: seq<Level>, px: int, k: nat)
    requires Leaves(a, b, px, k) && px != l.price
    ensures Leaves([l] + a, [l] + b, px, k)
  {
    var c, d := [l] + a, [l] + b;
    assert c[1..] == a && d[1..] == b;
    forall p ensures QueueAt(d, p) == if p == px then QueueAt(c, p)[..k] + QueueAt(c, p)[k + 1..] else QueueAt(c, p) {
      assert QueueAt(b, p) == if p == px then QueueAt(a, p)[..k] + QueueAt(a, p)[k + 1..] else QueueAt(a, p);
    }
  }

  lemma BecomesLater(l: Level, a: seq<Level>, b: seq<Level>, px: int, k: nat, r: Order)
    requires Becomes(a, b, px, k, r) && px != l.price
    ensures Becomes([l] + a, [l] + b, px, k, r)
  {
    var c, d := [l] + a, [l] + b;
    assert c[1..] == a && d[1..] == b;
    forall p ensures QueueAt(d, p) == if p == px then QueueAt(c, p)[k := r] else QueueAt(c, p) {
      assert QueueAt(b, p) == if p == px then QueueAt(a, p)[k := r] else QueueAt(a, p);
    }
  }

  // ---- the order of prices ----

  lemma SideOk(bids: seq<Level>, asks: seq<Level>, side: Side)
    requires BookOk(bids, asks)
    ensures LevelsOk(side, if side == Buy then asks else bids)
  {
  }

  // Bids fall and asks rise from the best on, and every bid is below every ask.
  lemma BookSorted(bids: seq<Level>, asks: seq<Level>)
    requires BookOk(bids, asks)
    ensures forall i, j {:trigger bids[i], bids[j]} :: 0 <= i < j < |bids| ==> bids[i].price > bids[j].price
    ensures forall i, j {:trigger asks[i], asks[j]} :: 0 <= i < j < |asks| ==> asks[i].price < asks[j].price
    ensures forall i, j {:trigger bids[i], asks[j]} :: 0 <= i < |bids| && 0 <= j < |asks| ==>
        bids[i].price < asks[j].price
  {
    forall i, j | 0 <= i < |bids| && 0 <= j < |asks| ensures bids[i].price < asks[j].price {
      assert i > 0 ==> Better(Sell, bids[0].price, bids[i].price);
      assert j > 0 ==> Better(Buy, asks[0].price, asks[j].price);
    }
  }
}
