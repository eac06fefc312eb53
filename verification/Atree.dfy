/** The unbalanced search tree of price levels (parent, left and right links in
    the rows).  Its shape is described without recursion: every row carries its
    in-order position and the interval of positions its subtree spans. */
module Atree {
  import opened Lists
  import opened Types
  import opened Rows

  datatype Shape = Shape(asc: seq<LevelRow>, pos: map<LevelRow, int>, lo: map<LevelRow, int>, hi: map<LevelRow, int>) {
    ghost predicate Total() {
      pos.Keys == lo.Keys == hi.Keys
    }

    // The span of y lies inside the span of x, on one side of x, when x's span holds y.
    ghost predicate Nested(x: LevelRow, y: LevelRow)
      requires Total() && x in pos && y in pos
    {
      lo[x] <= pos[y] < hi[x] && x != y ==>
        && lo[x] <= lo[y] && hi[y] <= hi[x]
        && (hi[y] <= pos[x] || pos[x] < lo[y])
    }

    ghost predicate Placed(x: LevelRow)
      requires Total() && x in pos
    {
      0 <= lo[x] <= pos[x] < hi[x] <= |asc| && asc[pos[x]] == x
    }

    ghost predicate Spans() {
      && Total()
      && (forall k {:trigger asc[k]} :: 0 <= k < |asc| ==> asc[k] in pos && pos[asc[k]] == k)
      && (forall x {:trigger Placed(x)} {:trigger pos[x]} :: x in pos ==> Placed(x))
      && (forall x, y {:trigger Nested(x, y)} :: x in pos && y in pos ==> Nested(x, y))
    }

    // c is what the left link of x must be.
    ghost predicate LeftIs(x: LevelRow, c: LevelRow?)
      requires Total() && x in pos
    {
      if lo[x] < pos[x] then c != null && c in pos && lo[c] == lo[x] && hi[c] == pos[x] else c == null
    }

    ghost predicate RightIs(x: LevelRow, c: LevelRow?)
      requires Total() && x in pos
    {
      if pos[x] + 1 < hi[x] then c != null && c in pos && lo[c] == pos[x] + 1 && hi[c] == hi[x] else c == null
    }

    // The new row at position i; `path` holds the rows whose span grows around it.
    ghost function Insert(i: int, node: LevelRow, path: set<LevelRow>): Shape
      requires Total() && 0 <= i <= |asc|
    {
      Shape(asc[..i] + [node] + asc[i..],
        map x | x in pos.Keys + {node} :: if x == node then i else if pos[x] < i then pos[x] else pos[x] + 1,
        map x | x in pos.Keys + {node} :: if x == node then i else if x in path || hi[x] <= i then lo[x] else lo[x] + 1,
        map x | x in pos.Keys + {node} :: if x == node then i + 1 else if x !in path && hi[x] <= i then hi[x]
            else hi[x] + 1)
    }

    // Every row is an ancestor of the gap [a, b), lies beside it, or lies in it.
    ghost predicate Around(x: LevelRow, path: set<LevelRow>, a: int, b: int)
      requires Total() && x in pos
    {
      if x in path then lo[x] <= a && b <= hi[x] && (b <= pos[x] || pos[x] < a)
      else
        && (hi[x] <= a || b <= lo[x] || (a <= lo[x] && hi[x] <= b))
        && (forall y {:trigger y in path} :: y in path && y in pos ==> pos[y] < lo[x] || hi[x] <= pos[y])
    }

    // What inserting at gap i starts from.
    ghost predicate CanInsert(i: int, node: LevelRow, path: set<LevelRow>) {
      && Spans() && 0 <= i <= |asc| && node !in pos
      && forall x {:trigger Around(x, path, i, i)} :: x in pos ==> Around(x, path, i, i)
    }

    lemma InsertNested(i: int, node: LevelRow, path: set<LevelRow>, x: LevelRow, y: LevelRow)
      requires CanInsert(i, node, path) && x in pos.Keys + {node} && y in pos.Keys + {node}
      ensures Insert(i, node, path).Nested(x, y)
    {
      assert x != node ==> Placed(x) && Around(x, path, i, i);
      assert y != node ==> Placed(y) && Around(y, path, i, i);
      assert x != node && y != node ==> Nested(x, y);
    }

    lemma InsertPlaced(i: int, node: LevelRow, path: set<LevelRow>, x: LevelRow)
      requires CanInsert(i, node, path) && x in pos.Keys + {node}
      ensures Insert(i, node, path).Placed(x)
    {
      if x != node { assert Placed(x) && Around(x, path, i, i); }
    }

    lemma InsertIndexed(i: int, node: LevelRow, path: set<LevelRow>, k: int)
      requires CanInsert(i, node, path) && 0 <= k <= |asc|
      ensures var s := Insert(i, node, path); s.asc[k] in s.pos && s.pos[s.asc[k]] == k
    {
      var x := if k == i then node else asc[if k < i then k else k - 1];
      assert Insert(i, node, path).asc[k] == x;
    }

    lemma InsertShape(i: int, node: LevelRow, path: set<LevelRow>)
      requires Total() && 0 <= i <= |asc|
      ensures Insert(i, node, path).asc == asc[..i] + [node] + asc[i..]
      ensures Insert(i, node, path).pos.Keys == pos.Keys + {node}
    {
    }

    lemma InsertSpans(i: int, node: LevelRow, path: set<LevelRow>)
      requires CanInsert(i, node, path)
      ensures Insert(i, node, path).Spans()
    {
      var s := Insert(i, node, path);
      forall k | 0 <= k < |s.asc| ensures s.asc[k] in s.pos && s.pos[s.asc[k]] == k {
        InsertIndexed(i, node, path, k);
      }
      forall x | x in s.pos ensures s.Placed(x) { InsertPlaced(i, node, path, x); }
      forall x, y | x in s.pos && y in s.pos ensures s.Nested(x, y) { InsertNested(i, node, path, x, y); }
    }

    ghost predicate TwoChildren(node: LevelRow)
      requires Total() && node in pos
    {
      lo[node] < pos[node] && pos[node] + 1 < hi[node]
    }

    // The row after `node` in order, once it is known to have no left child.
    ghost predicate Successor(node: LevelRow, succ: LevelRow)
      requires Total() && node in pos
    {
      succ in pos && pos[succ] == lo[succ] == pos[node] + 1
    }

    // The tree without `node`: its only child, or its successor, takes its place.
    ghost function Remove(node: LevelRow, succ: LevelRow): Shape
      requires Spans() && node in pos && (TwoChildren(node) ==> Successor(node, succ))
    {
      var k, swap := pos[node], TwoChildren(node);
      assert Placed(node);
      Shape(asc[..k] + asc[k + 1..],
        map x | x in pos.Keys - {node} :: if pos[x] > k then pos[x] - 1 else pos[x],
        map x | x in pos.Keys - {node} ::
          if swap && x == succ then lo[node] else if lo[x] > (if swap then k + 1 else k) then lo[x] - 1 else lo[x],
        map x | x in pos.Keys - {node} ::
          if swap && x == succ then hi[node] - 1 else if hi[x] > k then hi[x] - 1 else hi[x])
    }

    ghost predicate CanRemove(node: LevelRow, succ: LevelRow) {
      Spans() && node in pos && (TwoChildren(node) ==> Successor(node, succ))
    }

    lemma RemoveShape(node: LevelRow, succ: LevelRow)
      requires CanRemove(node, succ)
      ensures 0 <= pos[node] < |asc| && asc[pos[node]] == node
      ensures Remove(node, succ).asc == Without(asc, pos[node]) && Remove(node, succ).pos.Keys == pos.Keys - {node}
    {
      assert Placed(node);
    }

    lemma RemoveNested(node: LevelRow, succ: LevelRow, x: LevelRow, y: LevelRow)
      requires CanRemove(node, succ) && x in pos.Keys - {node} && y in pos.Keys - {node}
      ensures Remove(node, succ).Nested(x, y)
    {
      assert Placed(x) && Placed(y) && Placed(node) && Nested(x, y) && Nested(x, node) && Nested(y, node);
      assert Nested(node, y) && Nested(node, x);
      if TwoChildren(node) {
        assert Placed(succ) && Nested(x, succ) && Nested(succ, y) && Nested(succ, x) && Nested(y, succ);
      }
    }

    lemma RemovePlaced(node: LevelRow, succ: LevelRow, x: LevelRow)
      requires CanRemove(node, succ) && x in pos.Keys - {node}
      ensures Remove(node, succ).Placed(x)
    {
      assert Placed(x) && Placed(node) && Nested(x, node) && Nested(node, x);
      if TwoChildren(node) { assert Placed(succ) && Nested(x, succ); }
    }

    lemma RemoveSpans(node: LevelRow, succ: LevelRow)
      requires CanRemove(node, succ)
      ensures Remove(node, succ).Spans()
    {
      var s, k := Remove(node, succ), pos[node];
      forall j | 0 <= j < |s.asc| ensures s.asc[j] in s.pos && s.pos[s.asc[j]] == j {
        assert s.asc[j] == asc[if j < k then j else j + 1];
      }
      forall x | x in s.pos ensures s.Placed(x) { RemovePlaced(node, succ, x); }
      forall x, y | x in s.pos && y in s.pos ensures s.Nested(x, y) { RemoveNested(node, succ, x, y); }
    }

    ghost predicate OnlyChild(node: LevelRow, r: LevelRow?)
      requires Total() && node in pos
    {
      !TwoChildren(node) && if lo[node] < pos[node] then LeftIs(node, r) else RightIs(node, r)
    }

    lemma SpliceLeft(node: LevelRow, r: LevelRow?, x: LevelRow, c: LevelRow?)
      requires CanRemove(node, node) && OnlyChild(node, r) && x in pos && x != node && LeftIs(x, c)
      ensures Remove(node, node).LeftIs(x, if c == node then r else c)
    {
      assert Placed(x) && Placed(node) && Nested(x, node);
      if c != null { assert Placed(c) && Nested(c, node); }
    }

    lemma SpliceRight(node: LevelRow, r: LevelRow?, x: LevelRow, c: LevelRow?)
      requires CanRemove(node, node) && OnlyChild(node, r) && x in pos && x != node && RightIs(x, c)
      ensures Remove(node, node).RightIs(x, if c == node then r else c)
    {
      assert Placed(x) && Placed(node) && Nested(x, node);
      if c != null { assert Placed(c) && Nested(c, node); }
    }

    lemma SwapLeft(node: LevelRow, succ: LevelRow, x: LevelRow, c: LevelRow?, sr: LevelRow?)
      requires CanRemove(node, succ) && TwoChildren(node) && RightIs(succ, sr)
      requires x in pos && x != node && x != succ && LeftIs(x, c)
      ensures Remove(node, succ).LeftIs(x, if c == node then succ else if c == succ then sr else c)
    {
      assert Placed(x) && Placed(node) && Placed(succ) && Nested(x, node) && Nested(x, succ);
      if c != null { assert Placed(c) && Nested(c, node) && Nested(c, succ); }
    }

    lemma SwapRight(node: LevelRow, succ: LevelRow, x: LevelRow, c: LevelRow?)
      requires CanRemove(node, succ) && TwoChildren(node)
      requires x in pos && x != node && x != succ && RightIs(x, c)
      ensures c != succ && Remove(node, succ).RightIs(x, if c == node then succ else c)
    {
      assert Placed(x) && Placed(node) && Placed(succ) && Nested(x, node) && Nested(x, succ) && Nested(node, x);
      if c != null { assert Placed(c) && Nested(c, node) && Nested(c, succ); }
    }

    lemma SwapSuccessor(node: LevelRow, succ: LevelRow, nl: LevelRow?, nr: LevelRow?, sr: LevelRow?)
      requires CanRemove(node, succ) && TwoChildren(node)
      requires LeftIs(node, nl) && RightIs(node, nr) && RightIs(succ, sr)
      ensures Remove(node, succ).LeftIs(succ, nl) && Remove(node, succ).RightIs(succ, if nr == succ then sr else nr)
    {
      assert Placed(node) && Placed(succ) && Placed(nl) && Placed(nr) && Nested(nr, succ) && Nested(node, nr);
    }

    lemma InsertLeft(i: int, node: LevelRow, path: set<LevelRow>, x: LevelRow, c: LevelRow?)
      requires CanInsert(i, node, path) && x in pos && LeftIs(x, c)
      requires x in path && i <= pos[x] && c != null ==> c in path
      requires c != null && c in path ==> x in path
      ensures Insert(i, node, path).LeftIs(x, if x in path && i <= pos[x] && c == null then node else c)
    {
      assert Placed(x) && Around(x, path, i, i);
      if c != null { assert Placed(c) && Around(c, path, i, i); }
    }

    lemma InsertRight(i: int, node: LevelRow, path: set<LevelRow>, x: LevelRow, c: LevelRow?)
      requires CanInsert(i, node, path) && x in pos && RightIs(x, c)
      requires x in path && pos[x] < i && c != null ==> c in path
      requires c != null && c in path ==> x in path
      ensures Insert(i, node, path).RightIs(x, if x in path && pos[x] < i && c == null then node else c)
    {
      assert Placed(x) && Around(x, path, i, i);
      if c != null { assert Placed(c) && Around(c, path, i, i); }
    }
  }

  ghost predicate Ordered(s: Shape, x: LevelRow, y: LevelRow)
    requires x in s.pos && y in s.pos
    reads x`price, y`price
  {
    s.pos[x] < s.pos[y] ==> x.price < y.price
  }

  ghost predicate Ascending(s: Shape)
    reads s.pos.Keys`price
  {
    forall x, y {:trigger Ordered(s, x, y)} :: x in s.pos && y in s.pos ==> Ordered(s, x, y)
  }

  // The gap at position i is where `price` belongs.
  ghost predicate Gap(s: Shape, i: int, price: u64)
    reads s.pos.Keys`price
  {
    forall x {:trigger s.pos[x]} :: x in s.pos ==>
        (s.pos[x] < i ==> x.price < price) && (i <= s.pos[x] ==> price < x.price)
  }

  lemma InsertAscending(s: Shape, i: int, node: LevelRow, path: set<LevelRow>)
    requires s.CanInsert(i, node, path) && Ascending(s) && Gap(s, i, node.price)
    ensures Ascending(s.Insert(i, node, path))
  {
    var t := s.Insert(i, node, path);
    forall x, y | x in t.pos && y in t.pos ensures Ordered(t, x, y) {
      assert x != node ==> x in s.pos && s.pos[x] == s.pos[x];
      assert x != node && y != node ==> Ordered(s, x, y);
    }
  }

  lemma RemoveAscending(s: Shape, node: LevelRow, succ: LevelRow)
    requires s.CanRemove(node, succ) && Ascending(s)
    ensures Ascending(s.Remove(node, succ))
  {
    var t := s.Remove(node, succ);
    forall x, y | x in t.pos && y in t.pos ensures Ordered(t, x, y) {
      assert Ordered(s, x, y) && s.Placed(x) && s.Placed(y) && s.Placed(node);
    }
  }

  class PriceTree {
    var root: LevelRow?
    var n: u32
    ghost var sh: Shape

    ghost predicate DownOk(x: LevelRow)
      requires sh.Total() && x in sh.pos
      reads `root, `n, `sh, sh.pos.Keys`price, sh.pos.Keys`left, sh.pos.Keys`right, sh.pos.Keys`parent
      reads sh.pos.Keys`inTree
    {
      && x.inTree
      && sh.LeftIs(x, x.left) && (x.left != null ==> x.left.parent == x)
      && sh.RightIs(x, x.right) && (x.right != null ==> x.right.parent == x)
    }

    ghost predicate UpOk(x: LevelRow)
      requires sh.Total() && x in sh.pos
      reads `root, `n, `sh, sh.pos.Keys`price, sh.pos.Keys`left, sh.pos.Keys`right, sh.pos.Keys`parent
      reads sh.pos.Keys`inTree
    {
      if x.parent == null then x == root else x.parent in sh.pos && (x.parent.left == x || x.parent.right == x)
    }

    ghost predicate LinkOk(x: LevelRow)
      requires sh.Total() && x in sh.pos
      reads `root, `n, `sh, sh.pos.Keys`price, sh.pos.Keys`left, sh.pos.Keys`right, sh.pos.Keys`parent
      reads sh.pos.Keys`inTree
    {
      DownOk(x) && UpOk(x)
    }

    ghost predicate Valid()
      reads `root, `n, `sh, sh.pos.Keys`price, sh.pos.Keys`left, sh.pos.Keys`right, sh.pos.Keys`parent
      reads sh.pos.Keys`inTree
    {
      && sh.Spans()
      && n == |sh.asc|
      && (root == null <==> sh.asc == []) && (root == null ==> sh.pos.Keys == {})
      && (root != null ==> root in sh.pos && sh.lo[root] == 0 && sh.hi[root] == |sh.asc| && root.parent == null)
      && Ascending(sh)
      && (forall x {:trigger LinkOk(x)} :: x in sh.pos ==> LinkOk(x))
    }

    constructor ()
      ensures Valid() && sh.asc == []
    {
      root, n := null, 0;
      sh := Shape([], map[], map[], map[]);
    }

    method Find(price: u64) returns (l: LevelRow?)
      requires Valid()
      ensures l == null ==> forall x {:trigger x in sh.pos} :: x in sh.pos ==> x.price != price
      ensures l != null ==> l in sh.pos && l.price == price
    {
      l := root;
      ghost var a, b := 0, |sh.asc|;
      while l != null
        invariant 0 <= a <= b <= |sh.asc|
        invariant l == null ==> a == b
        invariant l != null ==> l in sh.pos && sh.lo[l] == a && sh.hi[l] == b
        invariant forall x {:trigger sh.pos[x]} :: x in sh.pos && sh.pos[x] < a ==> x.price < price
        invariant forall x {:trigger sh.pos[x]} :: x in sh.pos && b <= sh.pos[x] ==> price < x.price
        decreases b - a
      {
        assert LinkOk(l) && sh.Placed(l);
        if price == l.price { return; }
        if price < l.price {
          forall x | x in sh.pos && sh.pos[l] <= sh.pos[x] ensures price < x.price {
            assert Ordered(sh, l, x) && sh.Placed(x);
          }
          b := sh.pos[l];
          l := l.left;
        } else {
          forall x | x in sh.pos && sh.pos[x] <= sh.pos[l] ensures x.price < price {
            assert Ordered(sh, x, l) && sh.Placed(x);
          }
          a := sh.pos[l] + 1;
          l := l.right;
        }
      }
    }

    // Best bid: the highest price.
    method Last() returns (l: LevelRow?)
      requires Valid()
      ensures l == if sh.asc == [] then null else sh.asc[|sh.asc| - 1]
    {
      l := root;
      if l == null { return; }
      while l.right != null
        invariant l != null && l in sh.pos && sh.hi[l] == |sh.asc|
        decreases |sh.asc| - sh.pos[l]
      {
        assert LinkOk(l) && sh.Placed(l);
        l := l.right;
        assert sh.Placed(l);
      }
      assert LinkOk(l) && sh.Placed(l);
    }

    // Best ask: the lowest price.
    method First() returns (l: LevelRow?)
      requires Valid()
      ensures l == if sh.asc == [] then null else sh.asc[0]
    {
      l := root;
      if l == null { return; }
      while l.left != null
        invariant l != null && l in sh.pos && sh.lo[l] == 0
        decreases sh.pos[l]
      {
        assert LinkOk(l) && sh.Placed(l);
        l := l.left;
        assert sh.Placed(l);
      }
      assert LinkOk(l) && sh.Placed(l);
    }

    // The rows passed on the way down to the gap that `cur` roots.
    ghost predicate OnPath(x: LevelRow, path: set<LevelRow>, cur: LevelRow?, last: LevelRow, a: int, b: int)
      requires sh.Total() && x in sh.pos
      reads `root, `n, `sh, sh.pos.Keys`price, sh.pos.Keys`left, sh.pos.Keys`right, sh.pos.Keys`parent
      reads sh.pos.Keys`inTree
    {
      && sh.Around(x, path, a, b)
      && (x in path ==>
        && (x.parent != null ==> x.parent in path)
        && (b <= sh.pos[x] ==> if x.left == null then cur == null && x == last else x.left in path || x.left == cur)
        && (sh.pos[x] < a ==> if x.right == null then cur == null && x == last else x.right in path || x.right == cur))
    }

    ghost predicate PathTo(parent: LevelRow, i: int, path: set<LevelRow>)
      requires sh.Total()
      reads `root, `n, `sh, sh.pos.Keys`price, sh.pos.Keys`left, sh.pos.Keys`right, sh.pos.Keys`parent
      reads sh.pos.Keys`inTree
    {
      forall x {:trigger OnPath(x, path, null, parent, i, i)} :: x in sh.pos ==> OnPath(x, path, null, parent, i, i)
    }

    // One step of the descent, into the left or the right subtree of `cur`.
    lemma DownLeft(x: LevelRow, path: set<LevelRow>, cur: LevelRow, last: LevelRow, a: int, b: int)
      requires Valid() && x in sh.pos && cur in sh.pos && sh.lo[cur] == a && sh.hi[cur] == b && cur !in path
      requires OnPath(x, path, cur, last, a, b) && (cur.parent != null ==> cur.parent in path)
      ensures OnPath(x, path + {cur}, cur.left, cur, a, sh.pos[cur])
    {
      assert LinkOk(cur) && sh.Placed(cur) && sh.Nested(cur, x) && sh.Nested(x, cur) && sh.Placed(x);
    }

    lemma DownRight(x: LevelRow, path: set<LevelRow>, cur: LevelRow, last: LevelRow, a: int, b: int)
      requires Valid() && x in sh.pos && cur in sh.pos && sh.lo[cur] == a && sh.hi[cur] == b && cur !in path
      requires OnPath(x, path, cur, last, a, b) && (cur.parent != null ==> cur.parent in path)
      ensures OnPath(x, path + {cur}, cur.right, cur, sh.pos[cur] + 1, b)
    {
      assert LinkOk(cur) && sh.Placed(cur) && sh.Nested(cur, x) && sh.Nested(x, cur) && sh.Placed(x);
    }

    // The empty child slot that the descent for `price` ends in.
    method Slot(price: u64) returns (parent: LevelRow, ghost i: int, ghost path: set<LevelRow>)
      requires Valid() && root != null
      requires forall x {:trigger x in sh.pos} :: x in sh.pos ==> x.price != price
      ensures 0 <= i <= |sh.asc| && parent in sh.pos && parent in path
      ensures if price < parent.price then parent.left == null && sh.pos[parent] == i
          else parent.right == null && sh.pos[parent] + 1 == i
      ensures Gap(sh, i, price)
      ensures PathTo(parent, i, path) && path <= sh.pos.Keys
      ensures forall x {:trigger sh.Around(x, path, i, i)} :: x in sh.pos ==> sh.Around(x, path, i, i)
    {
      var cur: LevelRow? := root;
      parent := root;
      i, path := 0, {};
      ghost var b := |sh.asc|;
      while cur != null
        invariant 0 <= i <= b <= |sh.asc| && parent in sh.pos && path <= sh.pos.Keys
        invariant cur != null ==>
            cur in sh.pos && sh.lo[cur] == i && sh.hi[cur] == b && (cur.parent != null ==> cur.parent in path)
            && cur !in path
        invariant cur == null ==> i == b && parent in path
        invariant cur == null ==> if price < parent.price then parent.left == null && sh.pos[parent] == i
            else parent.right == null && sh.pos[parent] + 1 == i
        invariant forall x {:trigger sh.pos[x]} :: x in sh.pos ==>
            (sh.pos[x] < i ==> x.price < price) && (b <= sh.pos[x] ==> price < x.price)
        invariant forall x {:trigger OnPath(x, path, cur, parent, i, b)} :: x in sh.pos ==>
            OnPath(x, path, cur, parent, i, b)
        decreases b - i
      {
        assert LinkOk(cur) && sh.Placed(cur);
        ghost var path0, cur0, last0, i0, b0 := path, cur, parent, i, b;
        parent := cur;
        path := path + {cur};
        if price < cur.price {
          forall x | x in sh.pos && sh.pos[cur] <= sh.pos[x] ensures price < x.price {
            assert Ordered(sh, cur, x) && sh.Placed(x);
          }
          b := sh.pos[cur];
          cur := cur.left;
        } else {
          forall x | x in sh.pos && sh.pos[x] <= sh.pos[cur] ensures x.price < price {
            assert Ordered(sh, x, cur) && sh.Placed(x);
          }
          i := sh.pos[cur] + 1;
          cur := cur.right;
        }
        forall x | x in sh.pos ensures OnPath(x, path, cur, parent, i, b) {
          if price < cur0.price {
            DownLeft(x, path0, cur0, last0, i0, b0);
          } else {
            DownRight(x, path0, cur0, last0, i0, b0);
          }
        }
        if cur != null { assert OnPath(cur, path0, cur0, last0, i0, b0) && sh.Placed(cur); }
      }
      forall x | x in sh.pos ensures sh.Around(x, path, i, i) { assert OnPath(x, path, null, parent, i, i); }
    }

    // The links of row z after `r` has taken the place of `node`.
    twostate predicate SplicedAt(node: LevelRow, r: LevelRow?, z: LevelRow)
      reads z
    {
      && z.left == (if old(z.left) == node then r else old(z.left))
      && z.right == (if old(z.right) == node then r else old(z.right))
      && z.parent == (if z == r then old(node.parent) else old(z.parent))
      && z.inTree == old(z.inTree) && z.price == old(z.price)
    }

    twostate predicate Spliced(s: Shape, node: LevelRow, r: LevelRow?)
      reads this, s.pos.Keys
    {
      && s == old(sh) && old(Valid()) && node in s.pos && !s.TwoChildren(node)
      && r == (if old(node.left) == null then old(node.right) else old(node.left))
      && root == (if old(node.parent) == null then r else old(root))
      && (forall z {:trigger SplicedAt(node, r, z)} :: z in s.pos && z != node ==> SplicedAt(node, r, z))
      && node.price == old(node.price) && sh == s.Remove(node, node)
    }

    twostate lemma SplicedDown(new s: Shape, new node: LevelRow, new r: LevelRow?, new x: LevelRow)
      requires old(allocated((s, node, r))) && Spliced(s, node, r) && x in s.pos && x != node
      ensures DownOk(x)
    {
      assert old(LinkOk(x)) && old(LinkOk(node)) && SplicedAt(node, r, x);
      s.SpliceLeft(node, r, x, old(x.left));
      s.SpliceRight(node, r, x, old(x.right));
      assert x.left != null ==> SplicedAt(node, r, x.left);
      assert x.right != null ==> SplicedAt(node, r, x.right);
    }

    twostate lemma SplicedUp(new s: Shape, new node: LevelRow, new r: LevelRow?, new x: LevelRow)
      requires old(allocated((s, node, r))) && Spliced(s, node, r) && x in s.pos && x != node
      ensures UpOk(x)
    {
      assert old(LinkOk(x)) && old(LinkOk(node)) && SplicedAt(node, r, x);
      assert x.parent != null ==> SplicedAt(node, r, x.parent);
      if r != null { assert old(LinkOk(r)); }
    }

    twostate predicate AttachedAt(parent: LevelRow, node: LevelRow, onLeft: bool, z: LevelRow)
      reads z
    {
      && z.left == (if z == parent && onLeft then node else old(z.left))
      && z.right == (if z == parent && !onLeft then node else old(z.right))
      && z.parent == old(z.parent)
      && z.inTree == old(z.inTree) && z.price == old(z.price)
    }

    twostate predicate Attached(s: Shape, parent: LevelRow, node: LevelRow, onLeft: bool, i: int, path: set<LevelRow>)
      reads this, s.pos.Keys, node
    {
      && s == old(sh) && old(Valid()) && s.CanInsert(i, node, path) && parent in s.pos && parent in path
      && old(root) != null && root == old(root)
      && (onLeft ==> old(parent.left) == null && s.pos[parent] == i)
      && (!onLeft ==> old(parent.right) == null && s.pos[parent] + 1 == i)
      && old(PathTo(parent, i, path))
      && (forall z {:trigger AttachedAt(parent, node, onLeft, z)} :: z in s.pos ==> AttachedAt(parent, node, onLeft, z))
      && node.left == null && node.right == null && node.parent == parent && node.inTree
      && node.price == old(node.price) && old(Gap(s, i, node.price))
      && sh == s.Insert(i, node, path)
    }

    twostate lemma AttachedDown(new s: Shape, new parent: LevelRow, new node: LevelRow, new onLeft: bool, new i: int,
            new path: set<LevelRow>, new x: LevelRow)
      requires old(allocated((s, parent, node))) && path <= s.pos.Keys && old(allocated(path))
      requires Attached(s, parent, node, onLeft, i, path) == true && x in s.pos
      ensures DownOk(x)
    {
      assert old(LinkOk(x)) && old(OnPath(x, path, null, parent, i, i)) && AttachedAt(parent, node, onLeft, x);
      if old(x.left) != null {
        assert old(OnPath(x.left, path, null, parent, i, i)) && AttachedAt(parent, node, onLeft, old(x.left));
      }
      if old(x.right) != null {
        assert old(OnPath(x.right, path, null, parent, i, i)) && AttachedAt(parent, node, onLeft, old(x.right));
      }
      s.InsertLeft(i, node, path, x, old(x.left));
      s.InsertRight(i, node, path, x, old(x.right));
      assert old(OnPath(parent, path, null, parent, i, i));
    }

    twostate lemma AttachedUp(new s: Shape, new parent: LevelRow, new node: LevelRow, new onLeft: bool, new i: int,
            new path: set<LevelRow>, new x: LevelRow)
      requires old(allocated((s, parent, node))) && path <= s.pos.Keys && old(allocated(path))
      requires Attached(s, parent, node, onLeft, i, path) == true && x in s.pos
      ensures UpOk(x)
    {
      assert old(LinkOk(x)) && AttachedAt(parent, node, onLeft, x);
      if x.parent != null { assert AttachedAt(parent, node, onLeft, x.parent); }
    }

    // The links of row z after `succ` has left its own place for that of `node`.
    twostate predicate SwappedAt(node: LevelRow, succ: LevelRow, z: LevelRow)
      reads z
    {
      var far := old(succ.parent) != node;
      && z.inTree == old(z.inTree) && z.price == old(z.price)
      && if z == succ then
        && z.left == old(node.left)
        && z.right == (if far then old(node.right) else old(succ.right))
        && z.parent == old(node.parent)
      else
        && z.left == (if old(z.left) == node then succ else if old(z.left) == succ then old(succ.right)
            else old(z.left))
        && z.right == (if old(z.right) == node then succ else old(z.right))
        && z.parent == (if z == old(node.left) || z == old(node.right) then succ
                        else if far && z == old(succ.right) then old(succ.parent) else old(z.parent))
    }

    twostate predicate Swapped(s: Shape, node: LevelRow, succ: LevelRow)
      reads this, s.pos.Keys
    {
      && s == old(sh) && old(Valid()) && node in s.pos && s.TwoChildren(node) && s.Successor(node, succ)
      && root == (if old(node.parent) == null then succ else old(root))
      && (forall z {:trigger SwappedAt(node, succ, z)} :: z in s.pos && z != node ==> SwappedAt(node, succ, z))
      && node.price == old(node.price) && sh == s.Remove(node, succ)
    }

    twostate lemma SwappedDown(new s: Shape, new node: LevelRow, new succ: LevelRow, new x: LevelRow)
      requires old(allocated((s, node, succ))) && Swapped(s, node, succ) && x in s.pos && x != node && x != succ
      ensures DownOk(x)
    {
      assert old(LinkOk(x)) && SwappedAt(node, succ, x);
      DownLeftOf(s, node, succ, x);
      DownRightOf(s, node, succ, x);
    }

    twostate lemma DownLeftOf(new s: Shape, new node: LevelRow, new succ: LevelRow, new x: LevelRow)
      requires old(allocated((s, node, succ))) && Swapped(s, node, succ) && x in s.pos && x != node && x != succ
      ensures sh.LeftIs(x, x.left) && (x.left != null ==> x.left.parent == x)
    {
      assert old(LinkOk(x)) && old(LinkOk(node)) && old(LinkOk(succ)) && SwappedAt(node, succ, x);
      s.SwapLeft(node, succ, x, old(x.left), old(succ.right));
      if x.left != null { assert SwappedAt(node, succ, x.left); }
    }

    twostate lemma DownRightOf(new s: Shape, new node: LevelRow, new succ: LevelRow, new x: LevelRow)
      requires old(allocated((s, node, succ))) && Swapped(s, node, succ) && x in s.pos && x != node && x != succ
      ensures sh.RightIs(x, x.right) && (x.right != null ==> x.right.parent == x)
    {
      assert old(LinkOk(x)) && old(LinkOk(node)) && old(LinkOk(succ)) && SwappedAt(node, succ, x);
      s.SwapRight(node, succ, x, old(x.right));
      if x.right != null { assert SwappedAt(node, succ, x.right); }
    }

    twostate lemma SuccessorDown(new s: Shape, new node: LevelRow, new succ: LevelRow)
      requires old(allocated((s, node, succ))) && Swapped(s, node, succ)
      ensures DownOk(succ)
    {
      assert old(LinkOk(node)) && old(LinkOk(succ)) && SwappedAt(node, succ, succ);
      s.SwapSuccessor(node, succ, old(node.left), old(node.right), old(succ.right));
      assert SwappedAt(node, succ, succ.left);
      assert succ.right != null ==> SwappedAt(node, succ, succ.right);
    }

    twostate lemma SwappedUp(new s: Shape, new node: LevelRow, new succ: LevelRow, new x: LevelRow)
      requires old(allocated((s, node, succ))) && Swapped(s, node, succ) && x in s.pos && x != node
      ensures UpOk(x)
    {
      if x == succ || x == old(node.left) || x == old(node.right) {
        NearUp(s, node, succ, x);
      } else if x == old(succ.right) && old(succ.parent) != node {
        ChildUp(s, node, succ, x);
      } else {
        AsideUp(s, node, succ, x);
      }
    }

    // The children of the row that leaves hang from the successor, and that from its parent.
    twostate lemma NearUp(new s: Shape, new node: LevelRow, new succ: LevelRow, new x: LevelRow)
      requires old(allocated((s, node, succ))) && Swapped(s, node, succ) && x in s.pos && x != node
      requires x == succ || x == old(node.left) || x == old(node.right)
      ensures UpOk(x)
    {
      assert old(LinkOk(node)) && old(LinkOk(succ)) && SwappedAt(node, succ, succ) && SwappedAt(node, succ, x);
      assert s.Placed(node) && s.Placed(old(node.left));
      if old(node.parent) != null { assert SwappedAt(node, succ, old(node.parent)); }
    }

    // The right child of the successor hangs where the successor was.
    twostate lemma ChildUp(new s: Shape, new node: LevelRow, new succ: LevelRow, new x: LevelRow)
      requires old(allocated((s, node, succ))) && Swapped(s, node, succ) && succ in s.pos && x == old(succ.right)
      requires x in s.pos && x != node
      requires old(succ.parent) != node && x != succ && x != old(node.left) && x != old(node.right)
      ensures UpOk(x)
    {
      var p := old(succ.parent);
      assert old(LinkOk(x)) && SwappedAt(node, succ, x) && old(LinkOk(succ)) && old(LinkOk(p));
      assert SwappedAt(node, succ, p);
      s.SwapRight(node, succ, p, old(p.right));
    }

    // A row that is neither moved nor hung elsewhere keeps its parent.
    twostate lemma AsideUp(new s: Shape, new node: LevelRow, new succ: LevelRow, new x: LevelRow)
      requires old(allocated((s, node, succ))) && Swapped(s, node, succ) && x in s.pos && x != node && x != succ
      requires x != old(node.left) && x != old(node.right) && (x == old(succ.right) ==> old(succ.parent) == node)
      ensures UpOk(x)
    {
      assert old(LinkOk(x)) && SwappedAt(node, succ, x);
      if x.parent != null { assert SwappedAt(node, succ, x.parent) && old(LinkOk(succ)) && old(LinkOk(node)); }
    }

    twostate lemma AttachedNode(new s: Shape, new parent: LevelRow, new node: LevelRow, new onLeft: bool, new i: int,
            new path: set<LevelRow>)
      requires old(allocated((s, parent, node))) && path <= s.pos.Keys && old(allocated(path))
      requires Attached(s, parent, node, onLeft, i, path)
      ensures LinkOk(node)
    {
      assert AttachedAt(parent, node, onLeft, parent);
    }

    twostate lemma AttachedLinks(new s: Shape, new parent: LevelRow, new node: LevelRow, new onLeft: bool, new i: int,
            new path: set<LevelRow>)
      requires old(allocated((s, parent, node))) && path <= s.pos.Keys && old(allocated(path))
      requires Attached(s, parent, node, onLeft, i, path)
      ensures forall x {:trigger LinkOk(x)} :: x in sh.pos ==> LinkOk(x)
    {
      forall x | x in sh.pos ensures LinkOk(x) {
        if x == node {
          AttachedNode(s, parent, node, onLeft, i, path);
        } else {
          AttachedDown(s, parent, node, onLeft, i, path, x);
          AttachedUp(s, parent, node, onLeft, i, path, x);
        }
      }
    }

    twostate lemma AttachedValid(new s: Shape, new parent: LevelRow, new node: LevelRow, new onLeft: bool, new i: int,
            new path: set<LevelRow>)
      requires old(allocated((s, parent, node))) && path <= s.pos.Keys && old(allocated(path))
      requires Attached(s, parent, node, onLeft, i, path)
      requires n == |sh.asc|
      ensures Valid()
    {
      s.InsertSpans(i, node, path);
      forall x, y | x in s.pos && y in s.pos ensures Ordered(s, x, y) {
        assert old(Ordered(s, x, y)) && AttachedAt(parent, node, onLeft, x) && AttachedAt(parent, node, onLeft, y);
      }
      forall x | x in s.pos ensures x.price == old(x.price) { assert AttachedAt(parent, node, onLeft, x); }
      InsertAscending(s, i, node, path);
      AttachedLinks(s, parent, node, onLeft, i, path);
      assert s.Around(root, path, i, i) && s.Placed(parent) && s.Placed(root) && AttachedAt(parent, node, onLeft, root);
    }

    // The first row of an empty tree.
    method Plant(node: LevelRow)
      requires Valid() && root == null
      modifies `root, `n, `sh, node`left, node`right, node`parent, node`inTree
      ensures Valid() && sh.pos.Keys == {node} && sh.asc == [node]
    {
      ghost var s := sh;
      node.left, node.right, node.parent, node.inTree := null, null, null, true;
      root, n := node, 1;
      sh := s.Insert(0, node, {});
      s.InsertSpans(0, node, {});
      InsertAscending(s, 0, node, {});
      assert LinkOk(node);
    }

    static method Attach(parent: LevelRow, node: LevelRow, onLeft: bool)
      requires parent != node
      modifies parent`left, parent`right, node`left, node`right, node`parent, node`inTree
      ensures node.left == null && node.right == null && node.parent == parent && node.inTree
      ensures parent.left == (if onLeft then node else old(parent.left))
      ensures parent.right == if onLeft then old(parent.right) else node
    {
      node.left, node.right, node.parent, node.inTree := null, null, parent, true;
      if onLeft { parent.left := node; } else { parent.right := node; }
    }

    method Link(parent: LevelRow, node: LevelRow, ghost i: int, ghost path: set<LevelRow>)
      requires Valid() && sh.CanInsert(i, node, path) && |sh.asc| + 1 < TWO32 && root != null
      requires Gap(sh, i, node.price) && PathTo(parent, i, path) && path <= sh.pos.Keys && parent in path
      requires if node.price < parent.price then parent.left == null && sh.pos[parent] == i
          else parent.right == null && sh.pos[parent] + 1 == i
      modifies `root, `n, `sh, parent`left, parent`right, node`left, node`right, node`parent, node`inTree
      ensures Valid() && sh.pos.Keys == old(sh.pos.Keys) + {node}
      ensures sh.asc == old(sh.asc)[..i] + [node] + old(sh.asc)[i..]
    {
      hide Valid, Gap, PathTo, Shape.CanInsert, Shape.Spans, Shape.Insert;
      ghost var s := sh;
      LinkParts(i, node, path);
      var onLeft := node.price < parent.price;
      Attach(parent, node, onLeft);
      s.InsertShape(i, node, path);
      n := n + 1;
      sh := s.Insert(i, node, path);
      AttachedValid(s, parent, node, onLeft, i, path);
    }

    lemma LinkParts(i: int, node: LevelRow, path: set<LevelRow>)
      requires Valid() && sh.CanInsert(i, node, path)
      ensures node !in sh.pos && sh.Total() && 0 <= i <= |sh.asc| && n == |sh.asc|
    {
    }

    method Insert(node: LevelRow) returns (ghost i: int)
      requires Valid() && node !in sh.pos && |sh.asc| + 1 < TWO32
      requires forall x {:trigger x in sh.pos} :: x in sh.pos ==> x.price != node.price
      modifies `root, `n, `sh, sh.pos.Keys`left, sh.pos.Keys`right, node`left, node`right, node`parent, node`inTree
      ensures Valid() && sh.pos.Keys == old(sh.pos.Keys) + {node}
      ensures 0 <= i <= old(|sh.asc|) && sh.asc == old(sh.asc)[..i] + [node] + old(sh.asc)[i..]
    {
      if root == null {
        i := 0;
        Plant(node);
      } else {
        var parent, gap, path := Slot(node.price);
        i := gap;
        Link(parent, node, i, path);
      }
    }

    twostate lemma SplicedLinks(new s: Shape, new node: LevelRow, new r: LevelRow?)
      requires old(allocated((s, node, r))) && Spliced(s, node, r)
      ensures Ascending(sh)
      ensures forall x {:trigger LinkOk(x)} :: x in sh.pos ==> LinkOk(x)
    {
      forall x | x in s.pos ensures x.price == old(x.price) { assert x != node ==> SplicedAt(node, r, x); }
      forall x, y | x in s.pos && y in s.pos ensures Ordered(s, x, y) { assert old(Ordered(s, x, y)); }
      RemoveAscending(s, node, node);
      forall x | x in sh.pos ensures LinkOk(x) {
        SplicedDown(s, node, r, x);
        SplicedUp(s, node, r, x);
      }
    }

    twostate lemma SplicedRoot(new s: Shape, new node: LevelRow, new r: LevelRow?)
      requires old(allocated((s, node, r))) && Spliced(s, node, r)
      ensures if root == null then sh.asc == [] && sh.pos.Keys == {}
          else root in sh.pos && sh.lo[root] == 0 && sh.hi[root] == |sh.asc| && root.parent == null
    {
      assert old(LinkOk(node)) && s.Placed(node);
      if root != null { assert SplicedAt(node, r, root) && s.Placed(root); }
      assert s.Nested(old(root), node) && s.Placed(old(root));
    }

    twostate lemma SplicedValid(new s: Shape, new node: LevelRow, new r: LevelRow?)
      requires old(allocated((s, node, r))) && Spliced(s, node, r)
      requires n == |sh.asc|
      ensures Valid()
    {
      s.RemoveSpans(node, node);
      SplicedLinks(s, node, r);
      SplicedRoot(s, node, r);
    }

    twostate lemma SwappedLinks(new s: Shape, new node: LevelRow, new succ: LevelRow)
      requires old(allocated((s, node, succ))) && Swapped(s, node, succ)
      ensures Ascending(sh)
      ensures forall x {:trigger LinkOk(x)} :: x in sh.pos ==> LinkOk(x)
    {
      forall x | x in s.pos ensures x.price == old(x.price) { assert x != node ==> SwappedAt(node, succ, x); }
      forall x, y | x in s.pos && y in s.pos ensures Ordered(s, x, y) { assert old(Ordered(s, x, y)); }
      RemoveAscending(s, node, succ);
      SuccessorDown(s, node, succ);
      forall x | x in sh.pos ensures LinkOk(x) {
        if x != succ { SwappedDown(s, node, succ, x); }
        SwappedUp(s, node, succ, x);
      }
    }

    twostate lemma SwappedRoot(new s: Shape, new node: LevelRow, new succ: LevelRow)
      requires old(allocated((s, node, succ))) && Swapped(s, node, succ)
      ensures root != null && root in sh.pos && sh.lo[root] == 0 && sh.hi[root] == |sh.asc| && root.parent == null
    {
      assert old(LinkOk(node)) && s.Placed(node) && s.Placed(succ);
      assert root != node && SwappedAt(node, succ, root) && s.Placed(root);
      assert s.Nested(old(root), node) && s.Placed(old(root)) && old(LinkOk(succ));
    }

    twostate lemma SwappedValid(new s: Shape, new node: LevelRow, new succ: LevelRow)
      requires old(allocated((s, node, succ))) && Swapped(s, node, succ)
      requires n == |sh.asc|
      ensures Valid()
    {
      s.RemoveSpans(node, succ);
      SwappedLinks(s, node, succ);
      SwappedRoot(s, node, succ);
    }

    // Makes r hang where node hangs.
    method SpliceLinks(node: LevelRow, r: LevelRow?)
      requires node.parent != null ==> node.parent.left == node || node.parent.right == node
      requires node.parent != node && node != r && (r != null ==> r != node.parent)
      modifies `root, node`left, node`right, node`parent, node`inTree
      modifies (if node.parent != null then {node.parent} else {})`left
      modifies (if node.parent != null then {node.parent} else {})`right
      modifies (if r != null then {r} else {})`parent
      ensures root == if old(node.parent) == null then r else old(root)
      ensures old(node.parent) != null ==>
        && old(node.parent).left == (if old(node.parent.left) == node then r else old(node.parent.left))
        && old(node.parent).right == if old(node.parent.left) == node then old(node.parent.right) else r
      ensures r != null ==> r.parent == old(node.parent)
      ensures !node.inTree
    {
      if node.parent != null {
        if node.parent.left == node { node.parent.left := r; } else { node.parent.right := r; }
      } else {
        root := r;
      }
      if r != null { r.parent := node.parent; }
      node.left, node.right, node.parent, node.inTree := null, null, null, false;
    }

    lemma SpliceApart(node: LevelRow, r: LevelRow?)
      requires Valid() && node in sh.pos && !sh.TwoChildren(node)
      requires r == if node.left == null then node.right else node.left
      ensures node.parent != null ==> node.parent in sh.pos && (node.parent.left == node <==> node.parent.right != node)
      ensures node.left in {null, r} && node.right in {null, r}
      ensures r != null ==> r in sh.pos && r.parent == node && r != node.parent && r != node
      ensures node.parent != node && sh.Total() && forall x {:trigger LinkOk(x)} :: x in sh.pos ==> LinkOk(x)
    {
      assert LinkOk(node) && sh.Placed(node);
      if node.parent != null { assert LinkOk(node.parent) && sh.Placed(node.parent); }
      if r != null { assert sh.Placed(r); }
    }

    // A row without two children leaves; its only child takes its place.
    method Unhook(node: LevelRow, r: LevelRow?)
      requires Valid() && node in sh.pos && !sh.TwoChildren(node)
      requires r == if node.left == null then node.right else node.left
      modifies `root, `n, `sh, sh.pos.Keys`left, sh.pos.Keys`right, sh.pos.Keys`parent, node`inTree
      ensures Spliced(old(sh), node, r)
      ensures !node.inTree && n == old(n) - 1
    {
      ghost var s := sh;
      Splice(node, r);
      hide SplicedAt;
      if n > 0 { n := n - 1; }
      sh := s.Remove(node, node);
    }

    method Splice(node: LevelRow, r: LevelRow?)
      requires Valid() && node in sh.pos && !sh.TwoChildren(node)
      requires r == if node.left == null then node.right else node.left
      modifies `root, sh.pos.Keys`left, sh.pos.Keys`right, sh.pos.Keys`parent, node`inTree
      ensures root == if old(node.parent) == null then r else old(root)
      ensures forall z {:trigger SplicedAt(node, r, z)} :: z in sh.pos && z != node ==> SplicedAt(node, r, z)
      ensures !node.inTree
    {
      hide Valid, Shape.TwoChildren, Shape.LeftIs, Shape.RightIs;
      SpliceApart(node, r);
      SpliceLinks(node, r);
      forall z | z in sh.pos && z != node ensures SplicedAt(node, r, z) {
        var linked := old(LinkOk(z));
      }
    }

    // The rows whose links change when `succ` replaces `node` do not coincide.
    ghost predicate Apart(node: LevelRow, succ: LevelRow)
      requires node.left != null && node.right != null && succ.parent != null
      reads node, succ
    {
      ApartBelow(node, succ) && ApartAbove(node, succ)
    }

    ghost predicate ApartBelow(node: LevelRow, succ: LevelRow)
      requires node.left != null && node.right != null && succ.parent != null
      reads node, succ
    {
      var (l, r, p, s) := (node.left, node.right, succ.parent, succ.right);
      && succ != node && l != node && r != node && s != node
      && l != succ && s != succ && p != succ && (p != node ==> r != succ)
      && l != r && l != p && l != s && r != s && p != s
    }

    ghost predicate ApartAbove(node: LevelRow, succ: LevelRow)
      requires node.left != null && node.right != null && succ.parent != null
      reads node, succ
    {
      node.parent != null ==> node.parent !in {node, succ, node.left, node.right, succ.parent, succ.right}
    }

    lemma SwapLinked(node: LevelRow, succ: LevelRow)
      requires Valid() && node in sh.pos && sh.TwoChildren(node) && sh.Successor(node, succ)
      ensures forall x {:trigger LinkOk(x)} :: x in sh.pos ==> LinkOk(x)
      ensures node.left in sh.pos && node.right in sh.pos && succ.parent in sh.pos && succ.parent != succ
      ensures sh.hi[node.left] == sh.pos[node] && sh.lo[node.right] == sh.pos[node] + 1
      ensures succ.right != null ==> succ.right in sh.pos && sh.lo[succ.right] == sh.pos[succ] + 1
      ensures node.parent != null ==> node.parent in sh.pos && (node.parent.left == node <==> node.parent.right != node)
      ensures succ.parent != node ==> succ.parent.left == succ && sh.hi[succ] == sh.pos[succ.parent]
    {
      assert LinkOk(node) && LinkOk(succ) && sh.Placed(node) && sh.Placed(succ);
      if node.parent != null { assert LinkOk(node.parent) && sh.Placed(node.parent); }
      if succ.parent != node {
        var p := succ.parent;
        assert LinkOk(p) && sh.Placed(p) && sh.Nested(p, node) && sh.Nested(node, p);
        sh.SwapRight(node, succ, p, p.right);
      }
    }

    lemma SwapAbove(node: LevelRow, succ: LevelRow)
      requires Valid() && node in sh.pos && sh.TwoChildren(node) && sh.Successor(node, succ)
      requires node.left != null && node.right != null && succ.parent != null
      ensures ApartAbove(node, succ)
    {
      SwapLinked(node, succ);
      assert LinkOk(node) && LinkOk(succ) && sh.Placed(node) && sh.Placed(succ);
      if node.parent != null {
        var u := node.parent;
        assert LinkOk(u) && sh.Nested(node, u) && sh.Nested(u, node) && sh.Placed(u);
        assert sh.Placed(node.left) && sh.Placed(node.right) && sh.Placed(succ.parent);
      }
    }

    lemma SwapApart(node: LevelRow, succ: LevelRow)
      requires Valid() && node in sh.pos && sh.TwoChildren(node) && sh.Successor(node, succ)
      ensures node.left in sh.pos && node.right in sh.pos && succ.parent in sh.pos && succ in sh.pos && sh.Total()
      ensures succ.right != null ==> succ.right in sh.pos
      ensures node.parent != null ==> node.parent in sh.pos && (node.parent.left == node <==> node.parent.right != node)
      ensures if succ.parent == node then node.right == succ else succ.parent.left == succ
      ensures Apart(node, succ) && forall x {:trigger LinkOk(x)} :: x in sh.pos ==> LinkOk(x)
    {
      SwapLinked(node, succ);
      SwapAbove(node, succ);
      assert LinkOk(node) && LinkOk(succ) && sh.Placed(node) && sh.Placed(succ) && sh.Placed(node.left);
      assert sh.Placed(node.right);
      assert succ.right != null ==> sh.Placed(succ.right);
    }

    // The pointer writes that put `succ` in the place of `node`.
    method SwapLinks(node: LevelRow, succ: LevelRow)
      requires node.left != null && node.right != null && succ.parent != null && Apart(node, succ)
      requires succ.parent != node ==> succ.parent.left == succ || succ.parent.right == succ
      requires node.parent != null ==> node.parent.left == node || node.parent.right == node
      modifies `root, succ`left, succ`right, succ`parent, succ.parent`left, succ.parent`right
      modifies node`left, node`right, node`parent, node`inTree, node.left`parent, node.right`parent
      modifies (if node.parent != null then {node.parent} else {})`left
      modifies (if node.parent != null then {node.parent} else {})`right
      modifies (if succ.right != null then {succ.right} else {})`parent
      ensures succ.left == old(node.left) && succ.parent == old(node.parent) && succ.left.parent == succ
      ensures succ.inTree == old(succ.inTree) && succ.price == old(succ.price) && node.price == old(node.price)
      ensures if old(succ.parent) == node then succ.right == old(succ.right)
          && (succ.right != null ==> succ.right.parent == old(succ.right.parent))
              else && succ.right == old(node.right) && succ.right.parent == succ
                   && old(succ.parent).left ==
                       (if old(succ.parent.left) == succ then old(succ.right) else old(succ.parent.left))
                   && old(succ.parent).right ==
                       (if old(succ.parent.left) == succ then old(succ.parent.right) else old(succ.right))
                   && (old(succ.right) != null ==> old(succ.right).parent == old(succ.parent))
      ensures root == if old(node.parent) == null then succ else old(root)
      ensures old(node.parent) != null ==>
        && old(node.parent).left == (if old(node.parent.left) == node then succ else old(node.parent.left))
        && old(node.parent).right == if old(node.parent.left) == node then old(node.parent.right) else succ
      ensures !node.inTree
    {
      if succ.parent != node {
        if succ.parent.left == succ { succ.parent.left := succ.right; } else { succ.parent.right := succ.right; }
        if succ.right != null { succ.right.parent := succ.parent; }
        succ.right := node.right;
        succ.right.parent := succ;
      }
      if node.parent != null {
        if node.parent.left == node { node.parent.left := succ; } else { node.parent.right := succ; }
      } else {
        root := succ;
      }
      succ.parent := node.parent;
      succ.left := node.left;
      succ.left.parent := succ;
      node.left, node.right, node.parent, node.inTree := null, null, null, false;
    }

    // A row with two children leaves; its successor takes its place.
    method Promote(node: LevelRow, succ: LevelRow)
      requires Valid() && node in sh.pos && sh.TwoChildren(node) && sh.Successor(node, succ)
      modifies `root, `n, `sh, sh.pos.Keys`left, sh.pos.Keys`right, sh.pos.Keys`parent, node`inTree
      ensures Swapped(old(sh), node, succ)
      ensures !node.inTree && n == old(n) - 1
    {
      ghost var s := sh;
      Swap(node, succ);
      hide SwappedAt;
      if n > 0 { n := n - 1; }
      sh := s.Remove(node, succ);
    }

    method Swap(node: LevelRow, succ: LevelRow)
      requires Valid() && node in sh.pos && sh.TwoChildren(node) && sh.Successor(node, succ)
      modifies `root, sh.pos.Keys`left, sh.pos.Keys`right, sh.pos.Keys`parent, node`inTree
      ensures root == if old(node.parent) == null then succ else old(root)
      ensures forall z {:trigger SwappedAt(node, succ, z)} :: z in sh.pos && z != node ==> SwappedAt(node, succ, z)
      ensures !node.inTree
    {
      hide Valid, Shape.TwoChildren, Shape.LeftIs, Shape.RightIs;
      SwapApart(node, succ);
      SwapLinks(node, succ);
      forall z | z in sh.pos && z != node ensures SwappedAt(node, succ, z) {
        var linked := old(LinkOk(z));
      }
    }

    // The leftmost row of the right subtree.
    method Next(node: LevelRow) returns (succ: LevelRow)
      requires Valid() && node in sh.pos && node.left != null && node.right != null
      ensures sh.TwoChildren(node) && sh.Successor(node, succ)
    {
      assert LinkOk(node) && sh.Placed(node);
      succ := node.right;
      while succ.left != null
        invariant succ in sh.pos && sh.lo[succ] == sh.pos[node] + 1
        decreases sh.pos[succ]
      {
        assert LinkOk(succ) && sh.Placed(succ);
        succ := succ.left;
        assert sh.Placed(succ);
      }
      assert LinkOk(succ) && sh.Placed(succ);
    }

    lemma InTree(node: LevelRow)
      requires Valid() && node in sh.pos
      ensures node.inTree
    {
      assert LinkOk(node);
    }

    lemma RemoveParts(node: LevelRow)
      requires Valid() && node in sh.pos
      ensures sh.Spans() && n == |sh.asc| && (sh.TwoChildren(node) <==> node.left != null && node.right != null)
    {
      assert LinkOk(node) && sh.Placed(node);
    }

    // A level that is in no tree is left alone.
    method Remove(node: LevelRow) returns (ghost k: int)
      requires Valid() && (node.inTree ==> node in sh.pos)
      modifies `root, `n, `sh, sh.pos.Keys`left, sh.pos.Keys`right, sh.pos.Keys`parent, node`inTree
      ensures Valid() && !node.inTree
      ensures !old(node.inTree) ==> unchanged(this, node, old(sh).pos.Keys)
      ensures old(node.inTree) ==>
        && sh.pos.Keys == old(sh.pos.Keys) - {node}
        && 0 <= k < |old(sh.asc)| && old(sh.asc)[k] == node && sh.asc == Without(old(sh.asc), k)
    {
      hide Valid, Shape.Spans, Shape.Remove, Shape.TwoChildren, SplicedAt, SwappedAt;
      k := 0;
      if !node.inTree { return; }
      RemoveParts(node);
      k := sh.pos[node];
      ghost var s := sh;
      if node.left == null || node.right == null {
        var r := if node.left == null then node.right else node.left;
        s.RemoveShape(node, node);
        Unhook(node, r);
        SplicedValid(s, node, r);
      } else {
        var succ := Next(node);
        s.RemoveShape(node, succ);
        label Found:
        Promote(node, succ);
        SwappedValid@Found(s, node, succ);
      }
    }
  }
}
