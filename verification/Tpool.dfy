/** Free-list pools of order rows and level rows. */
module Tpool {
  import opened Lists
  import opened Types
  import opened Rows

  class OrderPool {
    var free: OrderRow?
    var used: u64
    ghost var rows: set<OrderRow>
    ghost var frees: seq<OrderRow>

    ghost predicate LinkOk(k: int)
      requires 0 <= k < |frees|
      reads `free, `used, `rows, `frees, frees`freeNext
    {
      frees[k].freeNext == if k + 1 < |frees| then frees[k + 1] else null
    }

    ghost predicate Valid()
      reads `free, `used, `rows, `frees, frees`freeNext
    {
      && free == (if frees == [] then null else frees[0])
      && (forall k {:trigger LinkOk(k)} :: 0 <= k < |frees| ==> LinkOk(k))
      && Distinct(frees)
      && (forall k {:trigger frees[k]} :: 0 <= k < |frees| ==> frees[k] in rows)
      && used == |rows| - |frees|
    }

    constructor ()
      ensures Valid() && rows == {} && frees == []
    {
      free, used, rows, frees := null, 0, {}, [];
    }

    // Chunk reservation, one row at a time.
    method Reserve(row: OrderRow)
      requires Valid() && row !in rows
      modifies `free, `used, `rows, `frees, row`freeNext
      ensures Valid() && rows == old(rows) + {row} && frees == [row] + old(frees) && used == old(used)
    {
      row.freeNext := free;
      free := row;
      assert row !in frees;
      rows, frees := rows + {row}, [row] + frees;
      forall k | 0 <= k < |frees| ensures LinkOk(k) { assert k > 0 ==> old(LinkOk(k - 1)); }
    }

    method Alloc() returns (row: OrderRow?)
      requires Valid() && |rows| < TWO64
      modifies `free, `used, `frees
      modifies (if frees == [] then {} else {frees[0]})`freeNext, (if frees == [] then {} else {frees[0]})`next
      modifies (if frees == [] then {} else {frees[0]})`prev, (if frees == [] then {} else {frees[0]})`inList
      modifies (if frees == [] then {} else {frees[0]})`hashNext, (if frees == [] then {} else {frees[0]})`inHash
      ensures Valid() && rows == old(rows)
      ensures row == null <==> old(frees) == []
      ensures row == null ==> frees == [] && used == old(used)
      ensures row != null ==> row == old(frees)[0] && frees == old(frees)[1..] && used == old(used) + 1
      ensures row != null ==> row.next == null && row.prev == null && !row.inList && row.hashNext == null && !row.inHash
    {
      row := free;
      if row != null {
        assert LinkOk(0);
        free := row.freeNext;
        row.freeNext, row.next, row.prev, row.inList := null, null, null, false;
        row.hashNext, row.inHash := null, false;
        used := used + 1;
        frees := frees[1..];
        forall k | 0 <= k < |frees| ensures frees[k] in rows { assert frees[k] == old(frees)[k + 1]; }
        forall k | 0 <= k < |frees| ensures LinkOk(k) { assert old(LinkOk(k + 1)); }
      }
    }

    method Free(row: OrderRow)
      requires Valid() && row in rows && row !in frees
      modifies `free, `used, `frees, row`freeNext
      ensures Valid() && rows == old(rows) && frees == [row] + old(frees) && used + 1 == old(used)
    {
      FreesBelow(row);
      row.freeNext := free;
      free := row;
      if used > 0 { used := used - 1; }
      frees := [row] + frees;
      forall k | 0 <= k < |frees| ensures LinkOk(k) { assert k > 0 ==> old(LinkOk(k - 1)); }
    }

    lemma FreesBelow(row: OrderRow)
      requires Valid() && row in rows && row !in frees
      ensures |frees| < |rows|
    {
      DistinctBelow(frees, rows - {row});
    }
  }

  class LevelPool {
    var free: LevelRow?
    var used: u64
    ghost var rows: set<LevelRow>
    ghost var frees: seq<LevelRow>

    ghost predicate LinkOk(k: int)
      requires 0 <= k < |frees|
      reads `free, `used, `rows, `frees, frees`freeNext
    {
      frees[k].freeNext == if k + 1 < |frees| then frees[k + 1] else null
    }

    ghost predicate Valid()
      reads `free, `used, `rows, `frees, frees`freeNext
    {
      && free == (if frees == [] then null else frees[0])
      && (forall k {:trigger LinkOk(k)} :: 0 <= k < |frees| ==> LinkOk(k))
      && Distinct(frees)
      && (forall k {:trigger frees[k]} :: 0 <= k < |frees| ==> frees[k] in rows)
      && used == |rows| - |frees|
    }

    constructor ()
      ensures Valid() && rows == {} && frees == []
    {
      free, used, rows, frees := null, 0, {}, [];
    }

    // Chunk reservation, one row at a time.
    method Reserve(row: LevelRow)
      requires Valid() && row !in rows
      modifies `free, `used, `rows, `frees, row`freeNext
      ensures Valid() && rows == old(rows) + {row} && frees == [row] + old(frees) && used == old(used)
    {
      row.freeNext := free;
      free := row;
      assert row !in frees;
      rows, frees := rows + {row}, [row] + frees;
      forall k | 0 <= k < |frees| ensures LinkOk(k) { assert k > 0 ==> old(LinkOk(k - 1)); }
    }

    method Alloc() returns (row: LevelRow?)
      requires Valid() && |rows| < TWO64
      modifies `free, `used, `frees
      modifies (if frees == [] then {} else {frees[0]})`freeNext, (if frees == [] then {} else {frees[0]})`head
      modifies (if frees == [] then {} else {frees[0]})`tail
      modifies (if frees == [] then {} else {frees[0]})`count, (if frees == [] then {} else {frees[0]})`total
      modifies (if frees == [] then {} else {frees[0]})`parent
      modifies (if frees == [] then {} else {frees[0]})`left, (if frees == [] then {} else {frees[0]})`right
      modifies (if frees == [] then {} else {frees[0]})`inTree
      ensures Valid() && rows == old(rows)
      ensures row == null <==> old(frees) == []
      ensures row == null ==> frees == [] && used == old(used)
      ensures row != null ==> row == old(frees)[0] && frees == old(frees)[1..] && used == old(used) + 1
      ensures row != null ==> row.head == null && row.tail == null && row.count == 0 && row.total == 0
      ensures row != null ==> row.parent == null && row.left == null && row.right == null && !row.inTree
    {
      row := free;
      if row != null {
        assert LinkOk(0);
        free := row.freeNext;
        row.freeNext, row.head, row.tail, row.count, row.total := null, null, null, 0, 0;
        row.parent, row.left, row.right, row.inTree := null, null, null, false;
        used := used + 1;
        frees := frees[1..];
        forall k | 0 <= k < |frees| ensures frees[k] in rows { assert frees[k] == old(frees)[k + 1]; }
        forall k | 0 <= k < |frees| ensures LinkOk(k) { assert old(LinkOk(k + 1)); }
      }
    }

    method Free(row: LevelRow)
      requires Valid() && row in rows && row !in frees
      modifies `free, `used, `frees, row`freeNext
      ensures Valid() && rows == old(rows) && frees == [row] + old(frees) && used + 1 == old(used)
    {
      FreesBelow(row);
      row.freeNext := free;
      free := row;
      if used > 0 { used := used - 1; }
      frees := [row] + frees;
      forall k | 0 <= k < |frees| ensures LinkOk(k) { assert k > 0 ==> old(LinkOk(k - 1)); }
    }

    lemma FreesBelow(row: LevelRow)
      requires Valid() && row in rows && row !in frees
      ensures |frees| < |rows|
    {
      DistinctBelow(frees, rows - {row});
    }
  }
}
