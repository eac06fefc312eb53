/** Both engines on the same commands, each with a store of its own: one command side by side, and whole
    runs as the differential runner feeds them. */
module Differential {
  import opened Types
  import opened Rows
  import opened PriceTime
  import opened StoreBook
  import opened StoreCalls
  import opened BookRuns
  import opened EngineDb
  import CheckedRuns
  import Gen = Matcher
  import Hw = MatchingEngine

  // Two stores without a row or a structure in common.
  ghost predicate Apart(a: EngineDb, b: EngineDb) {
    && a != b && a.orderPool != b.orderPool && a.levelPool != b.levelPool
    && a.index != b.index && a.index.buckets != b.index.buckets
    && a.bidTree != b.bidTree && a.bidTree != b.askTree && a.askTree != b.bidTree && a.askTree != b.askTree
    && a.orderRows !! b.orderRows && a.levelRows !! b.levelRows
  }

  predicate Accepted(code: u64) {
    code == ACCEPTED || code == CANCELLED
  }

  // ---- the commands both engines answer alike ----

  // A request that the handwritten engine refuses itself, or that both can take or neither: within the limits
  // of the generated matcher, whose capacity is cap, and with the rows for it left in the handwritten engine's
  // own pools.
  predicate Alike(cap: nat, rows: nat, levels: nat, b: Book, c: Command) {
    c.Submit? ==> !Admits(b, c.r) || (WithinLimits(cap, b, c.r) <==> !NoRow(rows, levels, b, c.r))
  }

  function HandwrittenStep(rows: nat, levels: nat, b: Book, c: Command): Verdict {
    match c
    case Submit(r) => Handwritten(rows, levels, b, r)
    case CancelId(id) => Verdict(Cancel(b, id).code == CANCELLED, [], Cancel(b, id).book)
  }

  // One verdict, one list of trades and one book, exactly for these commands.
  lemma StepsAgree(cap: nat, rows: nat, levels: nat, b: Book, c: Command)
    ensures var g, h := Step(cap, b, c), HandwrittenStep(rows, levels, b, c);
      && ((Accepted(g.code) <==> h.ok) <==> Alike(cap, rows, levels, b, c))
      && (Alike(cap, rows, levels, b, c) ==> g.trades == h.trades && g.book == h.book)
  {
    hide Execute, HasId, Drop, MaxQty, NoRow;
    match c {
      case Submit(r) =>
        EnginesAgree(cap, rows, levels, b, r);
        RefusalCodes(cap, b, r);
      case CancelId(id) => CancelCases(b, id);
    }
  }

  lemma RefusalCodes(cap: nat, b: Book, r: Request)
    ensures Process(cap, b, r).code != CANCELLED
  {
    hide Match, Insert, HasId, MaxQty;
  }

  // A market order one above the quantity cap: the handwritten engine takes it, the generated one does not.
  lemma AboveCap(cap: nat, rows: nat, levels: nat)
    requires cap > 0
    ensures MaxQty(cap) + 1 < TWO64
    ensures var b, c := Book([], []), Submit(Request(1, 0, BUY, MARKET, STP_NONE, 0, MaxQty(cap) + 1));
      HandwrittenStep(rows, levels, b, c).ok && Step(cap, b, c).code == BAD_FIELD
  {
    QuotientFits(TWO64 - 1, cap + 1);
    ProductGrows(2, cap + 1, MaxQty(cap));
  }

  // A buyer of 5 at a full store takes the one resting order of 2: the handwritten engine lets the other 3 rest.
  lemma FullStore()
    ensures var b, c := Book([], [Order(1, 0, SELL, 0, 100, 2, 2)]),
        Submit(Request(2, 0, BUY, LIMIT, STP_NONE, 100, 5));
      HandwrittenStep(1, 1, b, c).ok && Step(1, b, c).code == NO_CAPACITY
  {
    var s := [Order(1, 0, SELL, 0, 100, 2, 2)];
    assert !HasId(s, 2) && !HasId([], 2);
  }

  // Order rows are left but the only level row is taken: the handwritten engine refuses a bid at a new price and
  // takes one at the old price; the generated one, with a level row for every order row, takes either.
  lemma FullLevels(price: u64)
    requires 0 < price <= 100
    ensures var b, c := Book([Order(1, 0, BUY, 0, 100, 2, 2)], []),
        Submit(Request(2, 0, BUY, LIMIT, STP_NONE, price, 1));
      (HandwrittenStep(2, 1, b, c).ok <==> price == 100) && Step(2, b, c).code == ACCEPTED
  {
    var s := [Order(1, 0, BUY, 0, 100, 2, 2)];
    assert !HasId(s, 2) && !HasId([], 2);
    assert Prices(s) == {100} && Prices([]) == {} by { assert s[0].price == 100; }
  }

  // One command for the generated matcher.
  method Ask(gen: Gen.Matcher, c: Command) returns (code: u64)
    requires gen.Ready()
    modifies gen.store`db, gen.store.orderPool, gen.store.levelPool, gen.store.index, gen.store.index.buckets
    modifies gen.store.bidTree, gen.store.askTree, gen.store.orderRows, gen.store.levelRows, gen`ntrades, gen.sink`n
    modifies gen.sink.buf
    ensures gen.Ready()
    ensures Outcome(code, gen.sink.Contents(), BookOf(gen.store.db)) ==
        Step(gen.store.cap, old(BookOf(gen.store.db)), c)
  {
    hide Gen.Matcher.Ready, BookOf, Process, Cancel;
    match c {
      case Submit(r) => code := gen.ProcessOrder(r);
      case CancelId(id) => code := gen.CancelOrder(id);
    }
  }

  // One command for the handwritten engine.
  method AskHandwritten(hw: Hw.MatchingEngine, c: Command) returns (ok: bool)
    requires hw.Ready()
    modifies hw.store`db, hw.store.orderPool, hw.store.levelPool, hw.store.index, hw.store.index.buckets
    modifies hw.store.bidTree, hw.store.askTree, hw.store.orderRows, hw.store.levelRows, hw`reported
    ensures hw.Ready()
    ensures Verdict(ok, if c.Submit? then hw.reported else [], BookOf(hw.store.db)) ==
        HandwrittenStep(hw.store.cap, hw.store.levelCap, old(BookOf(hw.store.db)), c)
  {
    hide Hw.MatchingEngine.Ready, BookOf, Handwritten, Cancel, PriceRoom, Clamped, EngineDb.Exact;
    match c {
      case Submit(r) => ok := hw.ProcessOrder(r);
      case CancelId(id) =>
        ghost var o, l;
        CancelCases(BookOf(hw.store.db), id);
        ok, o, l := hw.CancelOrder(id);
    }
  }

  // The same command for both: each answers by its own rules.
  method Both(gen: Gen.Matcher, hw: Hw.MatchingEngine, c: Command) returns (code: u64, ok: bool)
    requires gen.Ready() && hw.Ready() && Apart(gen.store, hw.store)
    modifies gen.store`db, gen.store.orderPool, gen.store.levelPool, gen.store.index, gen.store.index.buckets
    modifies gen.store.bidTree, gen.store.askTree, gen.store.orderRows, gen.store.levelRows, gen`ntrades, gen.sink`n
    modifies gen.sink.buf
    modifies hw.store`db, hw.store.orderPool, hw.store.levelPool, hw.store.index, hw.store.index.buckets
    modifies hw.store.bidTree, hw.store.askTree, hw.store.orderRows, hw.store.levelRows, hw`reported
    ensures gen.Ready() && hw.Ready()
    ensures Outcome(code, gen.sink.Contents(), BookOf(gen.store.db)) ==
        Step(gen.store.cap, old(BookOf(gen.store.db)), c)
    ensures Verdict(ok, if c.Submit? then hw.reported else [], BookOf(hw.store.db)) ==
        HandwrittenStep(hw.store.cap, hw.store.levelCap, old(BookOf(hw.store.db)), c)
  {
    hide Gen.Matcher.Ready, Hw.MatchingEngine.Ready, BookOf, Step, HandwrittenStep;
    code := Ask(gen, c);
    ok := AskHandwritten(hw, c);
  }

  // From equal books: equal verdicts exactly for these commands, and then equal trades and equal books.
  method Compare(gen: Gen.Matcher, hw: Hw.MatchingEngine, c: Command) returns (code: u64, ok: bool)
    requires gen.Ready() && hw.Ready() && Apart(gen.store, hw.store)
    requires BookOf(gen.store.db) == BookOf(hw.store.db)
    modifies gen.store`db, gen.store.orderPool, gen.store.levelPool, gen.store.index, gen.store.index.buckets
    modifies gen.store.bidTree, gen.store.askTree, gen.store.orderRows, gen.store.levelRows, gen`ntrades, gen.sink`n
    modifies gen.sink.buf
    modifies hw.store`db, hw.store.orderPool, hw.store.levelPool, hw.store.index, hw.store.index.buckets
    modifies hw.store.bidTree, hw.store.askTree, hw.store.orderRows, hw.store.levelRows, hw`reported
    ensures gen.Ready() && hw.Ready()
    ensures (Accepted(code) <==> ok) <==>
        Alike(gen.store.cap, hw.store.cap, hw.store.levelCap, old(BookOf(gen.store.db)), c)
    ensures Alike(gen.store.cap, hw.store.cap, hw.store.levelCap, old(BookOf(gen.store.db)), c) ==>
      BookOf(gen.store.db) == BookOf(hw.store.db) && (c.Submit? ==> gen.sink.Contents() == hw.reported)
    ensures Outcome(code, gen.sink.Contents(), BookOf(gen.store.db)) ==
        Step(gen.store.cap, old(BookOf(gen.store.db)), c)
    ensures Verdict(ok, if c.Submit? then hw.reported else [], BookOf(hw.store.db)) ==
        HandwrittenStep(hw.store.cap, hw.store.levelCap, old(BookOf(hw.store.db)), c)
  {
    hide Gen.Matcher.Ready, Hw.MatchingEngine.Ready, BookOf, Step, HandwrittenStep, Accepted, Alike;
    StepsAgree(gen.store.cap, hw.store.cap, hw.store.levelCap, BookOf(gen.store.db), c);
    code, ok := Both(gen, hw, c);
  }

  // ---- whole runs ----

  function HandwrittenRun(rows: nat, levels: nat, b: Book, cs: seq<Command>): seq<Verdict>
    decreases |cs|
  {
    if cs == [] then [] else
      var h := HandwrittenStep(rows, levels, b, cs[0]);
      [h] + HandwrittenRun(rows, levels, h.book, cs[1..])
  }

  ghost predicate AllAlike(cap: nat, rows: nat, levels: nat, b: Book, cs: seq<Command>)
    decreases |cs|
  {
    cs != [] ==> Alike(cap, rows, levels, b, cs[0]) && AllAlike(cap, rows, levels, Step(cap, b, cs[0]).book, cs[1..])
  }

  ghost predicate SameVerdicts(os: seq<Outcome>, hs: seq<Verdict>) {
    |os| == |hs| && forall i {:trigger os[i]} {:trigger hs[i]} :: 0 <= i < |os| ==> (Accepted(os[i].code) <==> hs[i].ok)
  }

  ghost predicate SameResults(os: seq<Outcome>, hs: seq<Verdict>) {
    |os| == |hs| && forall i {:trigger os[i]} {:trigger hs[i]} :: 0 <= i < |os| ==>
        os[i].trades == hs[i].trades && os[i].book == hs[i].book
  }

  // Two runs of the same commands give the same verdicts exactly if every command is answered alike where the
  // generated matcher stands; then every trade and every book along the way is the same.
  lemma {:induction false} RunsAgree(cap: nat, rows: nat, levels: nat, b: Book, cs: seq<Command>)
    ensures SameVerdicts(Outcomes(cap, b, cs), HandwrittenRun(rows, levels, b, cs)) <==>
        AllAlike(cap, rows, levels, b, cs)
    ensures AllAlike(cap, rows, levels, b, cs) ==>
        SameResults(Outcomes(cap, b, cs), HandwrittenRun(rows, levels, b, cs))
    decreases |cs|
  {
    if cs != [] {
      StepsAgree(cap, rows, levels, b, cs[0]);
      hide Step, HandwrittenStep, Alike, Accepted;
      var g, h := Step(cap, b, cs[0]), HandwrittenStep(rows, levels, b, cs[0]);
      var gs, hs := Outcomes(cap, g.book, cs[1..]), HandwrittenRun(rows, levels, h.book, cs[1..]);
      if Alike(cap, rows, levels, b, cs[0]) {
        RunsAgree(cap, rows, levels, g.book, cs[1..]);
        FirstVerdict(g, h, gs, hs);
      } else {
        assert ([g] + gs)[0] == g && ([h] + hs)[0] == h;
      }
    }
  }

  lemma FirstVerdict(g: Outcome, h: Verdict, gs: seq<Outcome>, hs: seq<Verdict>)
    ensures SameVerdicts([g] + gs, [h] + hs) <==> (Accepted(g.code) <==> h.ok) && SameVerdicts(gs, hs)
    ensures SameResults([g] + gs, [h] + hs) <==> g.trades == h.trades && g.book == h.book && SameResults(gs, hs)
  {
    var os, vs := [g] + gs, [h] + hs;
    forall i | 0 <= i < |gs| ensures os[i + 1] == gs[i] {}
    forall i | 0 <= i < |hs| ensures vs[i + 1] == hs[i] {}
    assert os[0] == g && vs[0] == h;
  }

  // The code and the trades a run of commands is answered with.
  datatype Reply = Reply(code: u64, trades: seq<Trade>)

  ghost predicate Answers(replies: seq<Reply>, os: seq<Outcome>) {
    |replies| == |os| && forall i {:trigger replies[i]} {:trigger os[i]} :: 0 <= i < |os| ==>
        replies[i] == Reply(os[i].code, os[i].trades)
  }

  // The book at the end of a run.
  ghost function After(b: Book, os: seq<Outcome>): Book {
    if os == [] then b else os[|os| - 1].book
  }

  lemma AnswersMore(replies: seq<Reply>, done: seq<Outcome>, o: Outcome)
    requires Answers(replies, done)
    ensures Answers(replies + [Reply(o.code, o.trades)], done + [o])
  {
  }

  // One more command, at the end of those already answered.
  lemma {:induction false} Further(cap: nat, b: Book, all: seq<Outcome>, done: seq<Outcome>, cs: seq<Command>,
          replies: seq<Reply>, o: Outcome)
    requires cs != [] && all == done + Outcomes(cap, After(b, done), cs) && Answers(replies, done)
    requires o == Step(cap, After(b, done), cs[0])
    ensures all == (done + [o]) + Outcomes(cap, After(b, done + [o]), cs[1..])
    ensures Answers(replies + [Reply(o.code, o.trades)], done + [o])
  {
    hide *;
    AnswersMore(replies, done, o);
    OutcomesFirst(cap, After(b, done), cs);
    AfterMore(b, done, o);
    assert done + ([o] + Outcomes(cap, o.book, cs[1..])) == (done + [o]) + Outcomes(cap, o.book, cs[1..]);
  }

  lemma {:induction false} OutcomesFirst(cap: nat, b: Book, cs: seq<Command>)
    requires cs != []
    ensures Outcomes(cap, b, cs) == [Step(cap, b, cs[0])] + Outcomes(cap, Step(cap, b, cs[0]).book, cs[1..])
  {
  }

  lemma AfterMore(b: Book, done: seq<Outcome>, o: Outcome)
    ensures After(b, done + [o]) == o.book
  {
  }

  // The generated matcher answers every run of commands as price-time matching does, and the
  // run-time checker passes after every one of them.
  method Replay(m: Gen.Matcher, cs: seq<Command>) returns (replies: seq<Reply>, ok: bool)
    requires m.Ready()
    modifies m.store`db, m.store.orderPool, m.store.levelPool, m.store.index, m.store.index.buckets, m.store.bidTree
    modifies m.store.askTree
    modifies m.store.orderRows, m.store.levelRows, m`ntrades, m.sink`n, m.sink.buf
    ensures m.Ready() && ok
    ensures var b := old(BookOf(m.store.db)); var os := Outcomes(m.store.cap, b, cs);
      Answers(replies, os) && BookOf(m.store.db) == After(b, os)
  {
    hide EngineDb.Valid, EngineDb.Exact, EngineDb.Modular, Kept, BookOf, Process, Cancel, MaxQty, Fits, Capped;
    replies, ok := [], true;
    var i := 0;
    ghost var b, cap := BookOf(m.store.db), m.store.cap;
    ghost var all, done := Outcomes(cap, b, cs), [];
    assert cs[0..] == cs;
    while i < |cs|
      invariant 0 <= i <= |cs| && m.Ready() && ok && |done| == i && BookOf(m.store.db) == After(b, done)
      invariant all == done + Outcomes(cap, After(b, done), cs[i..]) && Answers(replies, done)
    {
      var code;
      match cs[i] {
        case Submit(r) => code := m.ProcessOrder(r);
        case CancelId(id) => code := m.CancelOrder(id);
      }
      var reply := Reply(code, m.sink.buf[..m.sink.n]);
      ghost var o := Step(cap, After(b, done), cs[i]);
      Further(cap, b, all, done, cs[i..], replies, o);
      assert cs[i..][1..] == cs[i + 1..];
      replies, done, i := replies + [reply], done + [o], i + 1;
      m.store.ExactModular();
      if ok { ok := CheckedRuns.CheckSteady(m.store); }
    }
  }

  // ---- runs of the handwritten engine ----

  // What rests always fits the total at its price.
  ghost predicate AllRoom(rows: nat, levels: nat, b: Book, cs: seq<Command>)
    decreases |cs|
  {
    cs != [] ==>
      && (cs[0].Submit? && HandwrittenStep(rows, levels, b, cs[0]).ok ==> PriceRoom(b, cs[0].r))
      && AllRoom(rows, levels, HandwrittenStep(rows, levels, b, cs[0]).book, cs[1..])
  }

  ghost function Last(b: Book, hs: seq<Verdict>): Book {
    if hs == [] then b else hs[|hs| - 1].book
  }

  // The verdicts and trades of a run.
  ghost predicate Told(said: seq<(bool, seq<Trade>)>, hs: seq<Verdict>) {
    |said| == |hs| && forall i {:trigger said[i]} {:trigger hs[i]} :: 0 <= i < |hs| ==>
        said[i] == (hs[i].ok, hs[i].trades)
  }

  lemma {:induction false} OneFurther(rows: nat, levels: nat, b: Book, all: seq<Verdict>, done: seq<Verdict>,
          cs: seq<Command>,
          said: seq<(bool, seq<Trade>)>, h: Verdict)
    requires cs != [] && all == done + HandwrittenRun(rows, levels, Last(b, done), cs) && Told(said, done)
    requires h == HandwrittenStep(rows, levels, Last(b, done), cs[0])
    ensures all == (done + [h]) + HandwrittenRun(rows, levels, Last(b, done + [h]), cs[1..])
    ensures Told(said + [(h.ok, h.trades)], done + [h])
    ensures Last(b, done + [h]) == h.book
  {
    hide HandwrittenStep;
    assert done + ([h] + HandwrittenRun(rows, levels, h.book, cs[1..])) ==
        (done + [h]) + HandwrittenRun(rows, levels, h.book, cs[1..]);
  }

  // The handwritten engine over any run, whatever the quantities and however full the store: its verdicts, its
  // trades and its last book; its totals stay exact as long as the true ones fit in 64 bits.
  method ReplayHandwritten(hw: Hw.MatchingEngine, cs: seq<Command>) returns (said: seq<(bool, seq<Trade>)>)
    requires hw.Ready()
    modifies hw.store`db, hw.store.orderPool, hw.store.levelPool, hw.store.index, hw.store.index.buckets
    modifies hw.store.bidTree, hw.store.askTree
    modifies hw.store.orderRows, hw.store.levelRows, hw`reported
    ensures hw.Ready()
    ensures var b := old(BookOf(hw.store.db)); var hs := HandwrittenRun(hw.store.cap, hw.store.levelCap, b, cs);
      Told(said, hs) && BookOf(hw.store.db) == Last(b, hs)
    ensures old(hw.store.Exact()) && AllRoom(hw.store.cap, hw.store.levelCap, old(BookOf(hw.store.db)), cs) ==>
        hw.store.Exact()
  {
    hide EngineDb.Valid, EngineDb.Exact, EngineDb.Modular, Kept, BookOf, Handwritten, Cancel, Fits, PriceRoom;
    said := [];
    var i := 0;
    ghost var b, rows, levels := BookOf(hw.store.db), hw.store.cap, hw.store.levelCap;
    ghost var all, done, room := HandwrittenRun(rows, levels, b, cs), [], old(hw.store.Exact())
        && AllRoom(rows, levels, b, cs);
    assert cs[0..] == cs;
    while i < |cs|
      invariant 0 <= i <= |cs| && hw.Ready() && |done| == i && BookOf(hw.store.db) == Last(b, done)
      invariant all == done + HandwrittenRun(rows, levels, Last(b, done), cs[i..]) && Told(said, done)
      invariant room ==> hw.store.Exact() && AllRoom(rows, levels, Last(b, done), cs[i..])
    {
      ghost var h := HandwrittenStep(rows, levels, Last(b, done), cs[i]);
      var ok, trades;
      match cs[i] {
        case Submit(r) =>
          ok := hw.ProcessOrder(r);
          trades := hw.reported;
        case CancelId(id) =>
          ghost var o, l;
          ok, o, l := hw.CancelOrder(id);
          trades := [];
      }
      OneFurther(rows, levels, b, all, done, cs[i..], said, h);
      assert cs[i..][1..] == cs[i + 1..];
      said, done, i := said + [(ok, trades)], done + [h], i + 1;
    }
  }
}
