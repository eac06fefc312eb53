/** The two kinds of pool row.  One row carries the link fields of every
    structure it can lie in: free list, hash chain, level queue, price tree. */
module Rows {
  import opened Types

  class OrderRow {
    var id: u64
    var account: u64
    var side: u64
    var stp: u64
    var price: u64
    var qty: u64
    var remaining: u64
    var level: LevelRow?

    var next: OrderRow?
    var prev: OrderRow?
    var inList: bool

    var hashNext: OrderRow?
    var inHash: bool

    var freeNext: OrderRow?

    constructor ()
      ensures !inList && !inHash
    {
      id, account, side, stp, price, qty, remaining := 0, 0, 0, 0, 0, 0, 0;
      level, next, prev, inList := null, null, null, false;
      hashNext, inHash, freeNext := null, false, null;
    }
  }

  class LevelRow {
    var price: u64
    var total: u64

    var head: OrderRow?
    var tail: OrderRow?
    var count: u32

    var parent: LevelRow?
    var left: LevelRow?
    var right: LevelRow?
    var inTree: bool

    var freeNext: LevelRow?

    constructor ()
      ensures !inTree && head == null && tail == null && count == 0 && total == 0
    {
      price, total, head, tail, count := 0, 0, null, null, 0;
      parent, left, right, inTree, freeNext := null, null, null, false, null;
    }
  }

  // The i-th row, or null past either end: what a link from its neighbour holds.
  function RowAt(q: seq<OrderRow>, i: int): OrderRow? {
    if 0 <= i < |q| then q[i] else null
  }
}
