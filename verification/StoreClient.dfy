/** The data layer seen from its client: what a valid store guarantees about its contents. */
module StoreClient {
  import opened Lists
  import opened Types
  import opened Rows
  import opened Store
  import opened PriceTime
  import opened StoreBook
  import opened StoreSteps
  import opened EngineDb

  lemma IndexIds(s: EngineDb)
    requires s.Valid()
    ensures forall x, y {:trigger OneId(s.db, x, y)} :: x in s.db.hash && y in s.db.hash ==>
        x in s.db.orders && y in s.db.orders && OneId(s.db, x, y)
  {
    forall x, y | x in s.db.hash && y in s.db.hash ensures x in s.db.orders && y in s.db.orders && OneId(s.db, x, y) {
      assert x in s.db.orders && y in s.db.orders;
      s.OrderParts(x);
      s.OrderParts(y);
      assert s.index.OneId(x, y);
    }
  }

  lemma LevelsPriced(s: EngineDb, t: u64)
    requires s.Valid()
    ensures forall i, j {:trigger PricedApart(s.db, t, i, j)} :: PricedApart(s.db, t, i, j)
    ensures forall i {:trigger Levels(s.db, t)[i]} :: 0 <= i < |Levels(s.db, t)| ==>
        Levels(s.db, t)[i] in s.db.prices && Levels(s.db, t)[i] in s.db.Tree(t)
  {
    hide s.Valid;
    s.TreeAscending(t);
    var tree, ls := s.db.Tree(t), Levels(s.db, t);
    forall i | 0 <= i < |ls| ensures ls[i] in s.db.prices && ls[i] in tree {
      assert ls[i] == tree[if t == BUY then |tree| - 1 - i else i];
      assert ls[i] in s.db.Tree(t);
    }
    forall i, j ensures PricedApart(s.db, t, i, j) {
      if 0 <= i < j < |ls| {
        assert ls[i] == tree[if t == BUY then |tree| - 1 - i else i];
        assert ls[j] == tree[if t == BUY then |tree| - 1 - j else j];
      }
    }
  }

  lemma QueuesSound(s: EngineDb)
    requires s.Valid()
    ensures s.db.queues.Keys == s.db.prices.Keys && s.db.hash <= s.db.orders.Keys && |s.db.orders| <= s.cap
    ensures forall l {:trigger QueueSound(s.db, l)} :: l in s.db.queues ==> QueueSound(s.db, l)
    ensures forall l, m, i, j {:trigger OwnedOnce(s.db, l, m, i, j)} :: l in s.db.queues && m in s.db.queues ==>
        OwnedOnce(s.db, l, m, i, j)
  {
    s.Parts();
    hide s.Valid;
    forall l | l in s.db.queues ensures QueueSound(s.db, l) { s.LevelParts(l); }
    forall l, m, i, j | l in s.db.queues && m in s.db.queues ensures OwnedOnce(s.db, l, m, i, j) {
      if 0 <= i < |s.db.queues[l]| && 0 <= j < |s.db.queues[m]| && s.db.queues[l][i] == s.db.queues[m][j] {
        s.LevelParts(l);
        s.OrderParts(s.db.queues[l][i]);
        assert s.db.queues[l][i] in s.db.queues[l] && s.db.queues[l][i] in s.db.queues[m];
      }
    }
  }

  // Everything the data layer guarantees, as facts about its contents.
  lemma ValidSound(s: EngineDb)
    requires s.Valid()
    ensures Sound(s.db, s.cap)
  {
    IndexIds(s);
    QueuesSound(s);
    hide s.Valid;
    forall t, i, j ensures PricedApart(s.db, t, i, j) { LevelsPriced(s, t); }
    forall t, i | 0 <= i < |Levels(s.db, t)| ensures Levels(s.db, t)[i] in s.db.prices { LevelsPriced(s, t); }
    forall i, j | 0 <= i < |Levels(s.db, BUY)| && 0 <= j < |Levels(s.db, SELL)|
        ensures Levels(s.db, BUY)[i] != Levels(s.db, SELL)[j] {
      LevelsPriced(s, BUY);
      LevelsPriced(s, SELL);
      s.TreesDisjoint(Levels(s.db, BUY)[i]);
    }
  }

  // Once queue and index have let go of o, nothing holds it.
  lemma NotQueuedAfter(d: Db, cap: nat, l: LevelRow, k: nat)
    requires Sound(d, cap) && l in d.queues && k < |d.queues[l]|
    ensures !d.(queues := d.queues[l := Without(d.queues[l], k)]).Queued(d.queues[l][k])
  {
    var e, o := d.(queues := d.queues[l := Without(d.queues[l], k)]), d.queues[l][k];
    forall m | m in e.queues ensures o !in e.queues[m] {
      assert QueueSound(d, l);
      forall j | 0 <= j < |e.queues[m]| ensures e.queues[m][j] != o {
        if m == l {
          assert e.queues[m][j] == d.queues[l][if j < k then j else j + 1];
        } else {
          assert OwnedOnce(d, l, m, k, j);
        }
      }
    }
  }
}
