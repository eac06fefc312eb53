/** The order-id index: an array of buckets, each the head of a chain of rows. */
module Thash {
  import opened Lists
  import opened Types
  import opened Rows

  class HashIndex {
    const buckets: array<OrderRow?>
    var n: u32
    ghost var chains: seq<seq<OrderRow>>
    ghost var hashed: set<OrderRow>

    ghost predicate BucketOk(b: int)
      requires 0 <= b < |chains| == buckets.Length
      reads `n, `chains, `hashed, buckets
    {
      buckets[b] == RowAt(chains[b], 0) && Distinct(chains[b])
    }

    ghost predicate Chained(b: int, i: int)
      requires 0 <= b < |chains| == buckets.Length && 0 <= i < |chains[b]|
      reads `n, `chains, `hashed, hashed`hashNext, hashed`inHash, hashed`id
    {
      var r := chains[b][i];
      r in hashed && r.hashNext == RowAt(chains[b], i + 1) && r.inHash && r.id % buckets.Length == b
    }

    ghost predicate Listed(r: OrderRow)
      requires |chains| == buckets.Length > 0 && r in hashed
      reads `n, `chains, `hashed, hashed`id
    {
      r in chains[r.id % buckets.Length]
    }

    ghost predicate OneId(r: OrderRow, s: OrderRow)
      reads r`id, s`id
    {
      r.id == s.id ==> r == s
    }

    ghost predicate Valid()
      reads `n, `chains, `hashed, buckets, hashed`hashNext, hashed`inHash, hashed`id
    {
      && |chains| == buckets.Length > 0
      && n == |hashed|
      && (forall b {:trigger BucketOk(b)} :: 0 <= b < |chains| ==> BucketOk(b))
      && (forall b, i {:trigger Chained(b, i)} :: 0 <= b < |chains| && 0 <= i < |chains[b]| ==> Chained(b, i))
      && (forall r {:trigger Listed(r)} :: r in hashed ==> Listed(r))
      && (forall r, s {:trigger OneId(r, s)} :: r in hashed && s in hashed ==> OneId(r, s))
    }

    constructor (size: nat)
      requires size > 0
      ensures Valid() && hashed == {} && fresh(buckets) && buckets.Length == size
    {
      buckets := new OrderRow?[size](i => null);
      n, chains, hashed := 0, seq(size, i => []), {};
    }

    method Find(id: u64) returns (p: OrderRow?)
      requires Valid()
      ensures p == null ==> forall r {:trigger r in hashed} :: r in hashed ==> r.id != id
      ensures p != null ==> p in hashed && p.id == id
    {
      var b := id % buckets.Length;
      p := buckets[b];
      ghost var i := 0;
      assert BucketOk(b);
      while p != null
        invariant 0 <= i <= |chains[b]| && p == RowAt(chains[b], i)
        invariant forall j {:trigger chains[b][j]} :: 0 <= j < i ==> chains[b][j].id != id
        decreases |chains[b]| - i
      {
        assert Chained(b, i);
        if p.id == id { return; }
        p := p.hashNext;
        i := i + 1;
      }
      forall r | r in hashed ensures r.id != id { assert Listed(r); }
    }

    // Puts `row` at the front of its chain.
    method Push(row: OrderRow)
      requires Valid() && row !in hashed && |hashed| + 1 < TWO32
      requires forall r {:trigger r in hashed} :: r in hashed ==> r.id != row.id
      modifies `n, `chains, `hashed, buckets, row`hashNext, row`inHash
      ensures Valid() && hashed == old(hashed) + {row}
      ensures row.inHash
    {
      var b := row.id % buckets.Length;
      assert BucketOk(b);
      forall i | 0 <= i < |chains[b]| ensures chains[b][i] != row { var ok := Chained(b, i); }
      row.hashNext := buckets[b];
      buckets[b] := row;
      row.inHash := true;
      n := n + 1;
      chains := chains[b := [row] + chains[b]];
      hashed := hashed + {row};
      forall a | 0 <= a < |chains| ensures BucketOk(a) { var ok := old(BucketOk(a)); }
      forall a, i | 0 <= a < |chains| && 0 <= i < |chains[a]| ensures Chained(a, i) {
        if a == b {
          if i > 0 { var ok := old(Chained(b, i - 1)); }
        } else {
          var ok := old(Chained(a, i));
        }
      }
      forall r | r in hashed ensures Listed(r) { if r != row { var ok := old(Listed(r)); } }
      forall r, s | r in hashed && s in hashed ensures OneId(r, s) {
        if r != row && s != row { var ok := old(OneId(r, s)); }
      }
    }

    method InsertMaybe(row: OrderRow) returns (ok: bool)
      requires Valid() && (row.inHash <==> row in hashed) && |hashed| + 1 < TWO32
      modifies `n, `chains, `hashed, buckets, row`hashNext, row`inHash
      ensures Valid()
      ensures ok <==> forall r {:trigger r in old(hashed)} :: r in old(hashed) ==> r.id != row.id
      ensures hashed == if ok then old(hashed) + {row} else old(hashed)
      ensures row.inHash <==> row in hashed
    {
      if row.inHash { return false; }
      var dup := Find(row.id);
      if dup != null { return false; }
      Push(row);
      ok := true;
    }

    // The i-th row of chain b has left it: the row before it, or the bucket, has taken over its link.
    twostate predicate Unchained(b: int, i: int, q: seq<OrderRow>)
      reads `chains, `hashed, buckets, hashed`hashNext, hashed`inHash, hashed`id
    {
      && old(Valid()) && 0 <= b < buckets.Length && 0 <= i < |q|
      && q == old(chains)[b] && chains == old(chains)[b := Without(q, i)] && hashed == old(hashed) - {q[i]}
      && (forall a {:trigger buckets[a]} :: 0 <= a < buckets.Length ==>
            buckets[a] == if a == b && i == 0 then RowAt(q, 1) else old(buckets[a]))
      && (forall r {:trigger r in hashed} :: r in hashed ==>
            r.id == old(r.id) && r.inHash == old(r.inHash) && r.hashNext == if i > 0
                && r == q[i - 1] then RowAt(q, i + 1) else old(r.hashNext))
    }

    twostate lemma StillChained(new b: int, new i: int, new q: seq<OrderRow>, new a: int, new j: int)
      requires old(allocated(q)) && Unchained(b, i, q) && 0 <= a < |chains| && 0 <= j < |chains[a]|
      ensures Chained(a, j)
    {
      var was := old(Chained(a, if a != b || j < i then j else j + 1));
      var at, distinct := old(Chained(b, i)), old(BucketOk(b));
      if i > 0 { var before := old(Chained(b, i - 1)); }
      assert chains[a][j] in hashed;
    }

    twostate lemma UnchainedValid(new b: int, new i: int, new q: seq<OrderRow>)
      requires old(allocated(q)) && Unchained(b, i, q) && n == |hashed|
      ensures Valid()
    {
      forall a | 0 <= a < |chains| ensures BucketOk(a) { var was := old(BucketOk(a)); }
      forall a, j | 0 <= a < |chains| && 0 <= j < |chains[a]| ensures Chained(a, j) { StillChained(b, i, q, a, j); }
      forall r | r in hashed ensures Listed(r) {
        var was := old(Listed(r));
        if r.id % buckets.Length == b { InWithout(q, i, r); }
      }
      forall r, s | r in hashed && s in hashed ensures OneId(r, s) { var was := old(OneId(r, s)); }
    }

    // Takes `cur`, the i-th row of chain b, out of the chain.
    method Unchain(b: nat, ghost i: nat, prev: OrderRow?, cur: OrderRow)
      requires Valid() && b < buckets.Length && i < |chains[b]|
      requires prev == RowAt(chains[b], i - 1) && cur == chains[b][i]
      modifies `n, `chains, `hashed, buckets, hashed`hashNext, cur`inHash
      ensures Valid() && hashed == old(hashed) - {cur}
      ensures !cur.inHash
    {
      assert BucketOk(b) && Chained(b, i) && (i > 0 ==> Chained(b, i - 1));
      if prev != null {
        prev.hashNext := cur.hashNext;
      } else {
        buckets[b] := cur.hashNext;
      }
      cur.hashNext := null;
      cur.inHash := false;
      n := n - 1;
      ghost var q := chains[b];
      chains := chains[b := Without(q, i)];
      hashed := hashed - {cur};
      UnchainedValid(b, i, q);
    }

    method Remove(row: OrderRow)
      requires Valid() && (row.inHash <==> row in hashed)
      modifies `n, `chains, `hashed, buckets, hashed`hashNext, row`inHash
      ensures Valid() && hashed == old(hashed) - {row}
      ensures !row.inHash
    {
      if !row.inHash { return; }
      var b := row.id % buckets.Length;
      var cur := buckets[b];
      var prev: OrderRow? := null;
      ghost var i := 0;
      assert BucketOk(b) && Listed(row);
      while cur != null
        invariant 0 <= i <= |chains[b]| && cur == RowAt(chains[b], i) && prev == RowAt(chains[b], i - 1)
        invariant forall j {:trigger chains[b][j]} :: 0 <= j < i ==> chains[b][j] != row
        decreases |chains[b]| - i
      {
        assert Chained(b, i);
        if cur == row {
          Unchain(b, i, prev, cur);
          return;
        }
        prev := cur;
        cur := cur.hashNext;
        i := i + 1;
      }
      assert false;
    }
  }
}
