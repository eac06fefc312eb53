/** The FIFO of orders at one price level: a doubly linked list threaded through
    the order rows, with a length and the total remaining quantity in the level. */
module Llist {
  import opened Lists
  import opened Types
  import opened Rows

  ghost predicate Linked(l: LevelRow, q: seq<OrderRow>, i: int)
    requires 0 <= i < |q|
    reads q`next, q`prev, q`inList, q`level
  {
    q[i].next == RowAt(q, i + 1) && q[i].prev == RowAt(q, i - 1) && q[i].inList && q[i].level == l
  }

  ghost predicate QueueOk(l: LevelRow, q: seq<OrderRow>)
    reads l`head, l`tail, l`count, q`next, q`prev, q`inList, q`level
  {
    && l.head == RowAt(q, 0) && l.tail == RowAt(q, |q| - 1) && l.count == |q|
    && (forall i {:trigger Linked(l, q, i)} :: 0 <= i < |q| ==> Linked(l, q, i))
    && Distinct(q)
  }

  // A row that is in a list already is left alone.
  method InsertTail(l: LevelRow, row: OrderRow, ghost q: seq<OrderRow>)
    requires QueueOk(l, q) && (!row.inList ==> |q| + 1 < TWO32)
    modifies l`head, l`tail, l`count, l`total, row`next, row`prev, row`level, row`inList, q`next
    ensures old(row.inList) ==> QueueOk(l, q) && unchanged(l, row, q)
    ensures !old(row.inList) ==> QueueOk(l, q + [row]) && row.inList && row.level == l
    ensures !old(row.inList) ==> l.total == (old(l.total) + row.remaining) % TWO64
  {
    if row.inList { return; }
    forall i | 0 <= i < |q| ensures q[i] != row { assert Linked(l, q, i); }
    row.next := null;
    row.prev := l.tail;
    row.level := l;
    if l.tail != null {
      l.tail.next := row;
    } else {
      l.head := row;
    }
    l.tail := row;
    row.inList := true;
    l.count := l.count + 1;
    l.total := (l.total + row.remaining) % TWO64;
    forall i | 0 <= i <= |q| ensures Linked(l, q + [row], i) {
      assert i < |q| ==> old(Linked(l, q, i));
    }
  }

  // The k-th row hangs between its neighbours.
  lemma Between(l: LevelRow, q: seq<OrderRow>, k: nat)
    requires QueueOk(l, q) && k < |q|
    ensures q[k].prev == RowAt(q, k - 1) && q[k].next == RowAt(q, k + 1) && q[k].inList && q[k].level == l
    ensures forall i {:trigger q[i]} :: 0 <= i < |q| && i != k ==> q[i] != q[k]
    ensures 0 < k < |q| - 1 ==> q[k - 1] != q[k + 1]
  {
    assert Linked(l, q, k);
  }

  // Row i of what is left was row i of q, or row i + 1: its links are those it had, but for the two rows
  // on either side of the k-th, which are now each other's neighbours.
  twostate predicate Closed(q: seq<OrderRow>, k: nat, r: OrderRow)
    requires k < |q|
    reads r`next, r`prev, r`inList, r`level
  {
    && r.inList == old(r.inList) && r.level == old(r.level)
    && r.next == (if k > 0 && r == q[k - 1] then RowAt(q, k + 1) else old(r.next))
    && r.prev == (if k + 1 < |q| && r == q[k + 1] then RowAt(q, k - 1) else old(r.prev))
  }

  twostate lemma ClosedLinked(new l: LevelRow, new q: seq<OrderRow>, new k: nat, new i: nat)
    requires old(allocated((l, q))) && k < |q| && i < |q| - 1 && old(QueueOk(l, q))
    requires Closed(q, k, if i < k then q[i] else q[i + 1])
    ensures Linked(l, Without(q, k), i)
  {
    var j := if i < k then i else i + 1;
    var r := Without(q, k);
    var was := old(Linked(l, q, j));
    assert r[i] == q[j] && Distinct(q);
    assert RowAt(r, i + 1) == if i + 1 < k then RowAt(q, i + 1) else RowAt(q, i + 2);
    assert RowAt(r, i - 1) == if i - 1 < k then RowAt(q, i - 1) else RowAt(q, i);
  }

  // A row that is in no list is left alone.
  method Remove(l: LevelRow, row: OrderRow, ghost q: seq<OrderRow>, ghost k: nat)
    requires QueueOk(l, q) && (row.inList ==> k < |q| && q[k] == row)
    modifies l`head, l`tail, l`count, l`total, q`next, q`prev, row`level, row`inList
    ensures !old(row.inList) ==> QueueOk(l, q) && unchanged(l, row, q)
    ensures old(row.inList) ==>
        QueueOk(l, Without(q, k)) && row.next == null && row.prev == null && !row.inList && row.level == null
    ensures old(row.inList) ==> l.total == if old(l.total) >= row.remaining then old(l.total) - row.remaining else 0
  {
    if !row.inList { return; }
    Between(l, q, k);
    if row.prev != null {
      row.prev.next := row.next;
    } else {
      l.head := row.next;
    }
    if row.next != null {
      row.next.prev := row.prev;
    } else {
      l.tail := row.prev;
    }
    row.next, row.prev, row.inList, row.level := null, null, false, null;
    if l.count > 0 { l.count := l.count - 1; }
    l.total := if l.total >= row.remaining then l.total - row.remaining else 0;
    forall j | 0 <= j < |q| && j != k ensures Closed(q, k, q[j]) {}
    forall i | 0 <= i < |q| - 1 ensures Linked(l, Without(q, k), i) { ClosedLinked(l, q, k, i); }
  }
}
