/** The intrusive queue of one price level in the full-feature engine: no flags and no counts,
    membership shows in the level pointer alone. */
module LevelList {
  import opened Lists
  import opened FullTypes
  import FullMatch
  import FullBook

  class Node {
    var prev: Node?
    var next: Node?
    var level: PriceLevel?
    var order: Order

    constructor (o: Order)
      ensures level == null && order == o
    {
      prev, next, level, order := null, null, null, o;
    }
  }

  // What the nodes of a queue carry.
  function Orders(q: seq<Node>): (s: seq<Order>)
    reads q`order
    ensures |s| == |q| && forall i {:trigger s[i]} :: 0 <= i < |q| ==> s[i] == q[i].order
  {
    if q == [] then [] else [q[0].order] + Orders(q[1..])
  }

  function NodeAt(q: seq<Node>, i: int): Node? {
    if 0 <= i < |q| then q[i] else null
  }

  ghost predicate Linked(l: PriceLevel, q: seq<Node>, i: int)
    requires 0 <= i < |q|
    reads q`next, q`prev, q`level
  {
    q[i].next == NodeAt(q, i + 1) && q[i].prev == NodeAt(q, i - 1) && q[i].level == l
  }

  class PriceLevel {
    var head: Node?
    var tail: Node?

    constructor ()
      ensures Holds([])
    {
      head, tail := null, null;
    }

    // The links from the head spell q, and so do the links from the tail, backwards.
    ghost predicate Holds(q: seq<Node>)
      reads this, q`next, q`prev, q`level
    {
      && head == NodeAt(q, 0) && tail == NodeAt(q, |q| - 1)
      && (forall i {:trigger Linked(this, q, i)} :: 0 <= i < |q| ==> Linked(this, q, i))
      && Distinct(q)
    }

    method PushBack(o: Node, ghost q: seq<Node>)
      requires Holds(q) && o !in q
      modifies this, o`prev, o`next, o`level, q`next
      ensures Holds(q + [o]) && Orders(q + [o]) == Orders(q) + [o.order]
      ensures forall side {:trigger FullBook.Insert(side, [Level(o.order.price, Orders(q))], o.order)} ::
          FullBook.Insert(side, [Level(o.order.price, Orders(q))], o.order) ==
          [Level(o.order.price, Orders(q + [o]))]
    {
      o.prev := tail;
      o.next := null;
      o.level := this;
      if tail != null {
        tail.next := o;
      } else {
        head := o;
      }
      tail := o;
      forall i | 0 <= i <= |q| ensures Linked(this, q + [o], i) {
        if i < |q| { var was := old(Linked(this, q, i)); }
      }
    }

    method Remove(o: Node, ghost q: seq<Node>, ghost k: nat)
      requires Holds(q) && k < |q| && q[k] == o
      modifies this, o`level, q`next, q`prev
      ensures Holds(Without(q, k)) && o.level == null && o.prev == null && o.next == null
    {
      assert Linked(this, q, k);
      if o.prev != null {
        o.prev.next := o.next;
      } else {
        head := o.next;
      }
      if o.next != null {
        o.next.prev := o.prev;
      } else {
        tail := o.prev;
      }
      o.prev, o.next, o.level := null, null, null;
      var r := Without(q, k);
      forall i | 0 <= i < |r| ensures Linked(this, r, i) {
        var was := old(Linked(this, q, if i < k then i else i + 1));
      }
    }

    // An iceberg reload: the front order gives up its place and goes to the back.
    method Reload(ghost q: seq<Node>)
      requires Holds(q) && q != []
      modifies this, q`next, q`prev, q`level
      ensures Holds(q[1..] + [q[0]])
    {
      var o := head;
      Remove(o, q, 0);
      assert Without(q, 0) == q[1..];
      PushBack(o, q[1..]);
    }

    // The front order loses `qty`: it leaves, gives up its place to show more, or stays with a new status.  What
    // the queue carries is what matching by values makes of it.
    method Lower(qty: int, now: nat, after: Status, ghost q: seq<Node>) returns (ghost r: seq<Node>)
      requires Holds(q) && q != [] && 0 < qty <= q[0].order.visible <= q[0].order.remaining
      modifies this, q`next, q`prev, q`level, q`order
      ensures Holds(r) && Orders(r) == FullMatch.Lowered(old(Orders(q)), qty, now, after)
    {
      hide Orders, Holds;
      ghost var s := Orders(q);
      var o := Front(q);
      o.order := o.order.(visible := o.order.visible - qty, remaining := o.order.remaining - qty);
      if o.order.visible == 0 && o.order.remaining > 0 && o.order.display > 0 {
        o.order := o.order.(visible := Min(o.order.display, o.order.remaining), timestamp := now + 1);
        Reload(q);
        r := q[1..] + [o];
        assert Orders(r) == s[1..] + [o.order];
      } else if o.order.remaining == 0 {
        Remove(o, q, 0);
        r := q[1..];
        assert Without(q, 0) == r;
        assert Orders(r) == s[1..];
      } else {
        o.order := o.order.(status := after);
        r := q;
        assert Orders(r) == [o.order] + s[1..];
      }
    }

    method Front(ghost q: seq<Node>) returns (o: Node)
      requires Holds(q) && q != []
      ensures o == q[0] && forall i {:trigger q[i]} :: 0 < i < |q| ==> q[i] != o
    {
      o := head;
    }
  }

  // Taking out the first node that carries an id is dropping that id from the orders carried.
  lemma {:induction false} RemoveDrops(q: seq<Node>, k: nat)
    requires k < |q| && forall i {:trigger q[i]} :: 0 <= i < k ==> q[i].order.id != q[k].order.id
    ensures Orders(Without(q, k)) == FullBook.Drop(Orders(q), q[k].order.id)
  {
    if k > 0 {
      RemoveDrops(q[1..], k - 1);
      assert Without(q, k) == [q[0]] + Without(q[1..], k - 1);
      assert Orders(q)[1..] == Orders(q[1..]);
    } else {
      assert Without(q, 0) == q[1..] && Orders(q)[1..] == Orders(q[1..]);
    }
  }

  // A queue holds one list of orders at most: its links decide it.
  lemma HoldsOne(l: PriceLevel, p: seq<Node>, q: seq<Node>)
    requires l.Holds(p) && l.Holds(q)
    ensures p == q
  {
    var i := 0;
    while i < |p|
      invariant 0 <= i <= |p| && i <= |q| && p[..i] == q[..i] && NodeAt(p, i) == NodeAt(q, i)
    {
      assert Linked(l, p, i) && Linked(l, q, i);
      assert p[..i + 1] == p[..i] + [p[i]] && q[..i + 1] == q[..i] + [q[i]];
      i := i + 1;
    }
    assert p == p[..i] && q == q[..i];
  }
}
