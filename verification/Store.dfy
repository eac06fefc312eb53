/** The abstract contents of the store, as values: what the data layer promises its client. */
module Store {
  import opened Lists
  import opened Types
  import opened Rows

  /** Live orders with their payload, live levels with their price and queue,
      the two price trees in ascending order, and the hashed orders. */
  datatype Db = Db(orders: map<OrderRow, Order>,
                   prices: map<LevelRow, u64>,
                   queues: map<LevelRow, seq<OrderRow>>,
                   bids: seq<LevelRow>, asks: seq<LevelRow>,
                   hash: set<OrderRow>) {

    function Tree(t: u64): seq<LevelRow> {
      if t == BUY then bids else asks
    }

    function WithTree(t: u64, s: seq<LevelRow>): Db {
      if t == BUY then this.(bids := s) else this.(asks := s)
    }

    // The level of tree t with the best price.
    function Best(t: u64): LevelRow
      requires Tree(t) != []
    {
      if t == BUY then bids[|bids| - 1] else asks[0]
    }

    ghost predicate Queued(o: OrderRow) {
      exists l :: l in queues && o in queues[l]
    }

    ghost function Total(l: LevelRow): nat
      requires l in queues
    {
      Sum(orders, queues[l])
    }
  }

  function Remaining(m: map<OrderRow, Order>, o: OrderRow): nat {
    if o in m then m[o].remaining else 0
  }

  // The exact total remaining quantity of a queue, unbounded.
  function Sum(m: map<OrderRow, Order>, q: seq<OrderRow>): nat {
    if q == [] then 0 else Remaining(m, q[0]) + Sum(m, q[1..])
  }

  lemma {:induction false} SumAppend(m: map<OrderRow, Order>, p: seq<OrderRow>, q: seq<OrderRow>)
    ensures Sum(m, p + q) == Sum(m, p) + Sum(m, q)
  {
    if p == [] {
      assert p + q == q;
    } else {
      assert (p + q)[1..] == p[1..] + q;
      SumAppend(m, p[1..], q);
    }
  }

  lemma {:induction false} SumWithout(m: map<OrderRow, Order>, q: seq<OrderRow>, k: nat)
    requires k < |q|
    ensures Sum(m, q) == Sum(m, Without(q, k)) + Remaining(m, q[k])
  {
    assert q == q[..k] + ([q[k]] + q[k + 1..]);
    SumAppend(m, q[..k], [q[k]] + q[k + 1..]);
    assert ([q[k]] + q[k + 1..])[1..] == q[k + 1..];
    SumAppend(m, q[..k], q[k + 1..]);
  }

  lemma {:induction false} SumSame(m: map<OrderRow, Order>, n: map<OrderRow, Order>, q: seq<OrderRow>)
    requires forall i {:trigger q[i]} :: 0 <= i < |q| ==> Remaining(m, q[i]) == Remaining(n, q[i])
    ensures Sum(m, q) == Sum(n, q)
  {
    if q != [] { SumSame(m, n, q[1..]); }
  }

  lemma {:induction false} RemainingBelow(m: map<OrderRow, Order>, q: seq<OrderRow>, o: OrderRow)
    requires o in q
    ensures Remaining(m, o) <= Sum(m, q)
  {
    var k :| 0 <= k < |q| && q[k] == o;
    SumWithout(m, q, k);
  }

  // Rewriting the k-th order changes the total by the difference.
  lemma SumChange(m: map<OrderRow, Order>, q: seq<OrderRow>, k: nat, v: Order)
    requires k < |q| && Distinct(q)
    ensures Sum(m[q[k] := v], q) == Sum(m, q) - Remaining(m, q[k]) + v.remaining
  {
    var n := m[q[k] := v];
    SumWithout(m, q, k);
    SumWithout(n, q, k);
    SumSame(m, n, Without(q, k));
  }

  lemma {:induction false} TotalAppended(m: map<OrderRow, Order>, q: seq<OrderRow>, o: OrderRow)
    ensures Sum(m, q + [o]) == Sum(m, q) + Remaining(m, o)
    ensures forall r {:trigger r in q + [o]} :: r in q + [o] <==> r in q || r == o
  {
    SumAppend(m, q, [o]);
    assert Sum(m, [o]) == Remaining(m, o);
  }

  lemma {:induction false} TotalRemoved(m: map<OrderRow, Order>, q: seq<OrderRow>, k: nat)
    requires k < |q| && Distinct(q)
    ensures Sum(m, Without(q, k)) + Remaining(m, q[k]) == Sum(m, q)
    ensures forall r {:trigger r in Without(q, k)} :: r in Without(q, k) <==> r in q && r != q[k]
    ensures forall i {:trigger Without(q, k)[i]} :: 0 <= i < |q| - 1 ==> Without(q, k)[i] in q
  {
    SumWithout(m, q, k);
    forall r | r in q && r != q[k] ensures r in Without(q, k) { InWithout(q, k, r); }
    forall i | 0 <= i < |q| - 1 ensures Without(q, k)[i] in q && Without(q, k)[i] != q[k] {
      assert Without(q, k)[i] == q[if i < k then i else i + 1];
    }
  }
}
