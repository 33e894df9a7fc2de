/** Runs of the engine on its database in which recovery or the tables fall short. */
module LostBatches {
  import opened Trading
  import opened PriceTime
  import opened Journal
  import opened EventTable
  import opened StaleSubmissions
  import opened DurableRecovery
  import opened TradesTable
  import G = GroupCommit
  import L = StoredLog
  import R = Recovery

  // ---------- Paths ----------

  ghost predicate Path(path: seq<Plant>, from: Plant, to: Plant) {
    && path != [] && path[0] == from && path[|path| - 1] == to
    && forall i :: 0 <= i < |path| - 1 ==> Next(path[i], path[i + 1])
  }

  lemma Join(p: seq<Plant>, q: seq<Plant>, a: Plant, b: Plant, c: Plant)
    requires Path(p, a, b) && Path(q, b, c)
    ensures Path(p + q[1..], a, c)
  {
    hide Next;
    var path := p + q[1..];
    forall i | 0 <= i < |path| - 1 ensures Next(path[i], path[i + 1]) {
      if i >= |p| - 1 {
        assert path[i] == q[i - |p| + 1] && path[i + 1] == q[i - |p| + 2];
      }
    }
  }

  // ---------- One command, one batch ----------

  predicate Quiet(m: Plant) {
    && m.process.Up? && m.process.phase.Idle? && m.process.nextSeq < TWO_63
    && m.store.writer.Waiting? && m.store.eventQueue == [] && m.store.tradeQueue == []
  }

  function EventFor(m: Plant, c: Command): JournalEvent
    requires m.process.Up?
  {
    MakeEvent(c, m.process.nextSeq, 0)
  }

  /** The command is journaled, and its event is a batch of its own that was committed or dropped. */
  function Logged(m: Plant, c: Command, ok: bool): Plant
    requires Quiet(m)
  {
    var s, p, ev := m.store, m.process, EventFor(m, c);
    Plant(s.(enqueued := s.enqueued + 1, done := s.done + 1,
             table := if ok then s.table + TableOf([ev]) else s.table,
             appended := s.appended + [G.Event(ev)], fates := s.fates + [ok]),
          p.(nextSeq := p.nextSeq + 1, phase := R.Journaled(c)))
  }

  /** Then the command, which makes no trades, is applied. */
  function Served(m: Plant, c: Command, ok: bool): Plant
    requires Quiet(m)
  {
    var m' := Logged(m, c, ok);
    m'.(process := m'.process.(book := Apply(m.process.book, c).book, phase := R.Idle))
  }

  lemma JournalAndSettle(m: Plant, c: Command, ok: bool) returns (path: seq<Plant>)
    requires Quiet(m) && ValidCommand(c) && Exact(m.process.book, c)
    requires ok ==> m.process.nextSeq !in m.store.table
    ensures Path(path, m, Logged(m, c, ok))
  {
    hide Exact, ValidCommand, TableOf;
    var s, p, ev, end := m.store, m.process, EventFor(m, c), Logged(m, c, ok);
    var s1 := s.(eventQueue := [ev], enqueued := s.enqueued + 1, appended := s.appended + [G.Event(ev)]);
    var a := Plant(s, p.(nextSeq := p.nextSeq + 1, phase := R.Stamped(ev, c)));
    var b := Plant(s1, end.process);
    assert ev.seqNo == p.nextSeq;
    assert R.Stamp(Engine(m), Engine(a), c, 0);
    assert Compute(m, a);
    assert [] + [ev] == [ev];
    AppendsToLog(s, s1, ev);
    assert Append(a, b);
    var settled := Settle(b, end, ev, ok);
    Join([m, a, b], settled, m, b, end);
    path := [m, a, b] + settled[1..];
  }

  lemma Settle(m: Plant, m': Plant, ev: JournalEvent, ok: bool) returns (path: seq<Plant>)
    requires m.process.Up? && m'.process == m.process
    requires m.store.writer.Waiting? && m.store.eventQueue == [ev] && m.store.tradeQueue == []
    requires ev.seqNo < TWO_63 && (ok ==> ev.seqNo !in m.store.table)
    requires m'.store == m.store.(eventQueue := [], done := m.store.done + 1, fates := m.store.fates + [ok],
                                  table := if ok then m.store.table + TableOf([ev]) else m.store.table)
    ensures Path(path, m, m')
  {
    hide TableOf;
    var s, batch := m.store, G.Batch([ev], []);
    var s1 := s.(eventQueue := [], writer := G.Holding(batch));
    var s2 := m'.store.(done := s.done, writer := G.Settled(batch));
    assert G.TakeBatch(s, s1);
    Commits(s1, s2, ev, ok);
    assert G.Advance(s2, m'.store);
    path := [m, Plant(s1, m.process), Plant(s2, m.process), m'];
  }

  lemma Serve(m: Plant, c: Command, ok: bool) returns (path: seq<Plant>)
    requires Quiet(m) && ValidCommand(c) && Exact(m.process.book, c)
    requires !Throws(m.process.book, c) && Apply(m.process.book, c).trades == []
    requires ok ==> m.process.nextSeq !in m.store.table
    ensures Path(path, m, Served(m, c, ok))
  {
    hide Apply, Exact, Throws, ValidCommand;
    var a, end := Logged(m, c, ok), Served(m, c, ok);
    var b := a.(process := end.process.(phase := R.Publishing([])));
    var logged := JournalAndSettle(m, c, ok);
    assert R.ApplyStep(Engine(a), Engine(b));
    assert R.Finish(Engine(b), Engine(end));
    assert Compute(a, b) && Compute(b, end);
    Join(logged, [a, b, end], m, a, end);
    path := logged + [a, b, end][1..];
  }

  lemma AppendsToLog(s: G.Store, s': G.Store, ev: JournalEvent)
    requires s'.base == s.base && s'.appended == s.appended + [G.Event(ev)]
    ensures G.Log(s') == G.Log(s) + [ev]
  {
    G.SplitsPush(s.appended, G.Event(ev));
  }

  lemma Commits(s: G.Store, s': G.Store, ev: JournalEvent, ok: bool)
    requires s.writer == G.Holding(G.Batch([ev], [])) && ev.seqNo < TWO_63 && (ok ==> ev.seqNo !in s.table)
    requires s' == s.(writer := G.Settled(s.writer.batch), fates := s.fates + [ok],
                      table := if ok then s.table + TableOf([ev]) else s.table)
    ensures G.Next(s, s')
  {
    hide TableOf;
    assert G.Repeat(ok, 1) == [ok];
    assert s.tradeTable + [] == s.tradeTable;
    if ok {
      assert G.CommitOk(s, s');
    } else {
      assert G.CommitFail(s, s');
    }
  }

  lemma LoggedIsDurable(m: Plant, c: Command, ok: bool)
    requires Quiet(m) && |m.store.fates| == |m.store.appended|
    ensures var held := G.DurableEvents(m.store);
            G.DurableEvents(Logged(m, c, ok).store) == if ok then held + [EventFor(m, c)] else held
  {
    hide G.EventsOf, G.Committed;
    var rs, fates, r := m.store.appended, m.store.fates, G.Event(EventFor(m, c));
    L.CommittedPush(rs, fates, r, ok);
    G.SplitsPush(G.Committed(rs, fates), r);
  }

  lemma SingleRow(ev: JournalEvent)
    requires ev.seqNo < TWO_63
    ensures Storable(ev) && forall k :: k in TableOf([ev]) <==> k == ev.seqNo
  {
    assert [ev][..0] == [];
  }

  /** A run from the first start to an idle engine with everything settled, its book and what is durable. */
  ghost predicate Reaches(path: seq<Plant>, m: Plant, book: Book, nextSeq: nat, held: seq<JournalEvent>) {
    && Path(path, Plant(Opened(map[], [], []), R.Down), m)
    && Quiet(m) && m.process.book == book && m.process.nextSeq == nextSeq
    && |m.store.fates| == |m.store.appended| && G.DurableEvents(m.store) == held
    && m.store.base == [] && m.store.tradeTable == []
    && forall k :: k in m.store.table ==> k < nextSeq
  }

  lemma Start() returns (path: seq<Plant>, m: Plant)
    ensures Reaches(path, m, [], 1, []) && m.store.fates == []
  {
    var down := Plant(Opened(map[], [], []), R.Down);
    m := down.(process := R.Up([], [], 1, R.Idle));
    EmptyRecovers();
    assert Loads(map[], []);
    assert Restart(down, m, []);
    path := [down, m];
  }

  lemma EmptyRecovers()
    ensures R.Recover([]) == Some(R.Recovered([], [], 0))
  {
  }

  lemma Extend(path: seq<Plant>, m: Plant, book: Book, nextSeq: nat, held: seq<JournalEvent>, c: Command, ok: bool)
    returns (path': seq<Plant>, m': Plant)
    requires Reaches(path, m, book, nextSeq, held) && nextSeq < TWO_63 - 1
    requires ValidCommand(c) && Exact(book, c) && !Throws(book, c) && Apply(book, c).trades == []
    ensures Reaches(path', m', Apply(book, c).book, nextSeq + 1,
                    if ok then held + [MakeEvent(c, nextSeq, 0)] else held)
    ensures m'.store.fates == m.store.fates + [ok]
  {
    hide Apply, Throws, Exact, Next, TableOf, G.DurableEvents, ValidCommand;
    m' := Served(m, c, ok);
    var more := Serve(m, c, ok);
    path' := path + more[1..];
    Join(path, more, Plant(Opened(map[], [], []), R.Down), m, m');
    LoggedIsDurable(m, c, ok);
    SingleRow(EventFor(m, c));
  }

  // ---------- A dropped cancel ----------

  /** Sell 10 at 100, under id 1. */
  function Sample(): OrderState {
    OrderState(1, 7, SELL, Limit(100.0), 10, 10, NEW)
  }

  lemma SampleRests()
    ensures var c, out := Submit(Sample()), Apply([], Submit(Sample()));
            && ValidCommand(c) && !Throws([], c) && out.book == [Sample().(status := OPEN)] && out.trades == []
            && Exact([], c) && Exact(out.book, c) && Throws(out.book, c)
  {
    assert Match([], Sample()) == Matched([], Sample(), []);
    assert [Sample().(status := OPEN)][0].id == Sample().id;
  }

  function Rested(): Book {
    [Sample().(status := OPEN)]
  }

  lemma CancelsOnRested()
    ensures var one, other := Apply(Rested(), Cancel(1)), Apply(Rested(), Cancel(9));
            one.book == [] && one.trades == [] && other.book == Rested() && other.trades == []
  {
    assert Rested()[..0] == [] && Rested()[1..] == [];
    assert Rested()[0].id == 1;
  }

  /** Submit 1, cancel 1, submit 1 again, cancel 9: each event a batch, of which the second is dropped. */
  lemma DropTheCancel() returns (path: seq<Plant>, m: Plant)
    ensures var c := Submit(Sample());
            Reaches(path, m, Rested(), 5, [MakeEvent(c, 1, 0), MakeEvent(c, 3, 0), MakeEvent(Cancel(9), 4, 0)])
  {
    hide Apply, Throws, Exact, Reaches;
    var c := Submit(Sample());
    SampleRests();
    CancelsOnRested();
    CancelsAreExact(Rested(), 1);
    CancelsAreExact(Rested(), 9);
    var e1, e3, e4 := MakeEvent(c, 1, 0), MakeEvent(c, 3, 0), MakeEvent(Cancel(9), 4, 0);
    assert [] + [e1] == [e1] && [e1] + [e3] == [e1, e3] && [e1, e3] + [e4] == [e1, e3, e4];
    path, m := Start();
    path, m := Extend(path, m, [], 1, [], c, true);
    path, m := Extend(path, m, Rested(), 2, [e1], Cancel(1), false);
    path, m := Extend(path, m, [], 3, [e1], c, true);
    path, m := Extend(path, m, Rested(), 4, [e1, e3], Cancel(9), true);
  }

  lemma CancelsAreExact(book: Book, id: OrderId)
    ensures Exact(book, Cancel(id)) && !Throws(book, Cancel(id)) && ValidCommand(Cancel(id))
  {
  }

  lemma SampleTwiceFails(e1: JournalEvent, e3: JournalEvent)
    requires var c := Restored(Submit(Sample())); Rebuild(e1) == Some(c) && Rebuild(e3) == Some(c)
    ensures R.Recover([e1]).Some? && R.Recover([e1, e3]).None?
  {
    hide R.Recover, Apply, Throws, Rebuild;
    SampleRests();
    assert R.Recover([]) == Some(R.Recovered([], [], 0)) by { EmptyRecovers(); }
    assert [e1][..0] == [] && [e1, e3][..1] == [e1];
    R.RecoverUnfolds([e1]);
    R.RecoverUnfolds([e1, e3]);
  }

  /**
   A dropped batch can spoil the middle of the stored log: the engine is alive and its own log
   replays, but what the table holds does not, and more events follow the one it fails at.
   */
  lemma DroppedBatchSpoilsTheMiddle() returns (run: seq<Plant>, loaded: seq<JournalEvent>)
    ensures Behavior(run)
    ensures var m := run[|run| - 1];
            && m.process.Up? && m.process.phase.Idle?
            && R.Recover(G.Log(m.store)).Some?
            && Loads(m.store.table, loaded)
            && |loaded| == 3 && R.Recover(loaded[..1]).Some? && R.Recover(loaded[..2]).None?
            && R.Recover(loaded).None?
  {
    hide Next, R.Recover, G.DurableEvents, R.Next, Rebuild, Loads;
    var end: Plant;
    run, end := DropTheCancel();
    var c := Submit(Sample());
    var e1, e3 := MakeEvent(c, 1, 0), MakeEvent(c, 3, 0);
    loaded := G.DurableEvents(end.store);
    DurableLoads(run);
    PlantRefinesRecovery(run);
    R.RecoveryEqualsLiveRun(Views(run), |run| - 1);
    RebuildsWhatWasJournaled(c, 1, 0);
    RebuildsWhatWasJournaled(c, 3, 0);
    SampleTwiceFails(e1, e3);
    assert loaded[..1] == [e1] && loaded[..2] == [e1, e3];
    FailsForGood(loaded, 2);
  }

  lemma FailsForGood(log: seq<JournalEvent>, k: nat)
    requires k <= |log| && R.Recover(log[..k]).None?
    ensures R.Recover(log).None?
  {
    R.ReplayFailsForGood([], log, k);
  }

  // ---------- A duplicate ----------

  /**
   Recovery is not total: the engine journals a submission before it finds out that the id is still
   active. Here one order is submitted twice; the second submission is committed and then ends the
   process, and the next one fails to recover. By SpoiledForGood no engine ever comes up again.
   */
  lemma DuplicateSpoilsTheLog() returns (run: seq<Plant>)
    ensures Behavior(run) && Fitting(run) && 3 <= |run|
    ensures var died := run[|run| - 3];
            && died.process.Up? && died.process.phase.Journaled?
            && Throws(died.process.book, died.process.phase.c) && L.NoFailures(died.store)
    ensures R.Spoiled(View(run[|run| - 1]))
  {
    hide Next, R.Recover, TableOf, G.DurableEvents, Rebuild, Apply, Throws, Exact;
    SampleRests();
    var c := Submit(Sample());
    var path, m := Start();
    path, m := Extend(path, m, [], 1, [], c, true);
    var down, died := Plant(Opened(map[], [], []), R.Down), Logged(m, c, true);
    var more := JournalAndSettle(m, c, true);
    Join(path, more, down, m, died);
    LoggedIsDurable(m, c, true);
    var e1, e2 := MakeEvent(c, 1, 0), MakeEvent(c, 2, 0);
    RebuildsWhatWasJournaled(c, 1, 0);
    RebuildsWhatWasJournaled(c, 2, 0);
    SampleTwiceFails(e1, e2);
    run := CrashAndRestart(path + more[1..], down, died, [e1, e2]);
    BehaviorFits(run);
    OpenedView(run[|run| - 1]);
  }

  // ---------- A crash between an event and its trade ----------

  /** Buy 10 at 100, under id 2: meets the sample order exactly. */
  function Buyer(): OrderState {
    OrderState(2, 8, BUY, Limit(100.0), 10, 10, NEW)
  }

  lemma BuyerTrades()
    ensures var c := Submit(Buyer());
            && ValidCommand(c) && Exact(Rested(), c) && !Throws(Rested(), c)
            && Apply(Rested(), c).trades == [Trade(2, 1, 100.0, 10)]
  {
    var book, o := Rested(), Buyer();
    assert RemoveAt(book, 0) == [];
    assert Match([], Reduce(o, 10)).trades == [];
    assert Scan(book[..0], SELL) == None;
    assert Match(book, o).trades == [Strike(o, book[0], 10)] + [];
  }

  lemma BothRecover(e1: JournalEvent, e2: JournalEvent)
    requires Rebuild(e1) == Some(Submit(Sample())) && Rebuild(e2) == Some(Submit(Buyer()))
    ensures R.Recover([e1, e2]).Some? && R.Recover([e1, e2]).value.trades == [Trade(2, 1, 100.0, 10)]
  {
    hide R.Recover, Apply, Throws, Rebuild;
    SampleRests();
    BuyerTrades();
    EmptyRecovers();
    assert [e1][..0] == [] && [e1, e2][..1] == [e1];
    R.RecoverUnfolds([e1]);
    R.RecoverUnfolds([e1, e2]);
  }

  /**
   The trades table can miss a trade for good though no batch ever failed: the process dies when the
   event of a trade is committed and its row is not. The next engine has the trade in its log, and
   does not write recovered trades to the table.
   */
  lemma CrashLosesTradeRows() returns (run: seq<Plant>)
    ensures Behavior(run) && 3 <= |run|
    ensures var died, m := run[|run| - 3], run[|run| - 1];
            && L.NoFailures(died.store) && died.store.base == []
            && m.process.Up? && m.process.phase.Idle? && m.process.tradeLog == [Trade(2, 1, 100.0, 10)]
            && m.store.tradeTable == [] && m.store.eventQueue == [] && m.store.tradeQueue == []
  {
    hide Next, R.Recover, TableOf, G.DurableEvents, R.Next, Rebuild, Apply, Throws, Exact;
    SampleRests();
    BuyerTrades();
    var a, b := Submit(Sample()), Submit(Buyer());
    var path, m := Start();
    path, m := Extend(path, m, [], 1, [], a, true);
    var down, died := Plant(Opened(map[], [], []), R.Down), Logged(m, b, true);
    var more := JournalAndSettle(m, b, true);
    Join(path, more, down, m, died);
    LoggedIsDurable(m, b, true);
    var e1, e2 := MakeEvent(a, 1, 0), MakeEvent(b, 2, 0);
    RebuildsWhatWasJournaled(a, 1, 0);
    RebuildsWhatWasJournaled(b, 2, 0);
    BothRecover(e1, e2);
    run := CrashAndRestart(path + more[1..], down, died, [e1, e2]);
  }

  /** What a new process comes to: an engine, or nothing when recovery throws. */
  function Recovered(loaded: seq<JournalEvent>): R.Process {
    var r := R.Recover(loaded);
    if r.None? then R.Down else R.Up(r.value.book, r.value.trades, r.value.maxSeq + 1, R.Idle)
  }

  lemma CrashAndRestart(path: seq<Plant>, down: Plant, died: Plant, loaded: seq<JournalEvent>)
    returns (run: seq<Plant>)
    requires Init(down) && Path(path, down, died) && |died.store.fates| <= |died.store.appended|
    requires G.DurableEvents(died.store) == loaded
    ensures Behavior(run) && 3 <= |run| && run[|run| - 3] == died
    ensures run[|run| - 1] == Plant(Opened(died.store.table, died.store.tradeTable, loaded), Recovered(loaded))
  {
    hide R.Recover, Loads, G.DurableEvents;
    var store := Opened(died.store.table, died.store.tradeTable, loaded);
    var a, b := Plant(store, R.Down), Plant(store, Recovered(loaded));
    DurableLoads(path);
    assert Crash(died, a, loaded) && Restart(a, b, loaded);
    var end := [died, a, b];
    assert Path(end, died, b);
    hide Next;
    Join(path, end, down, died, b);
    run := path + end[1..];
  }

  lemma DurableLoads(run: seq<Plant>)
    requires Behavior(run)
    ensures var s := run[|run| - 1].store; |s.fates| <= |s.appended| && Loads(s.table, G.DurableEvents(s))
  {
    hide Next, G.EventsOf, G.Committed, L.Mask, Keep, TableOf, Loads;
    BehaviorKeepsInv(run, |run| - 1);
    TableLoads(run[|run| - 1]);
  }

  // ---------- A dropped event whose trade is committed ----------

  /** The journaled command trades once; the trade is published in a batch of its own and committed. */
  lemma TradeAndCommit(m: Plant, t: Trade) returns (path: seq<Plant>, end: Plant)
    requires m.process.Up? && m.process.phase.Journaled? && !Throws(m.process.book, m.process.phase.c)
    requires Apply(m.process.book, m.process.phase.c).trades == [t]
    requires m.store.writer.Waiting? && m.store.eventQueue == [] && m.store.tradeQueue == []
    ensures Path(path, m, end) && end.store.tradeTable == m.store.tradeTable + [t]
    ensures end.store.base == m.store.base && end.store.appended == m.store.appended + [G.TradeRow(t)]
    ensures end.store.fates == m.store.fates + [true]
  {
    hide Apply, Throws, G.EventsOf, G.TradesOf;
    var s, p := m.store, m.process;
    var p1 := p.(book := Apply(p.book, p.phase.c).book, phase := R.Publishing([t]));
    var p2 := p1.(tradeLog := p1.tradeLog + [t], phase := R.Publishing([]));
    var s1 := s.(tradeQueue := [t], enqueued := s.enqueued + 1, appended := s.appended + [G.TradeRow(t)]);
    var a, b := Plant(s, p1), Plant(s1, p2);
    assert R.ApplyStep(Engine(m), Engine(a));
    assert Compute(m, a);
    assert [] + [t] == [t] && [t][1..] == [];
    G.SplitsPush(s.appended, G.TradeRow(t));
    assert Publish(a, b);
    assert Path([m, a, b], m, b);
    hide Next;
    var settled;
    settled, end := SettleTrade(b, t);
    Join([m, a, b], settled, m, b, end);
    path := [m, a, b] + settled[1..];
  }

  lemma SettleTrade(m: Plant, t: Trade) returns (path: seq<Plant>, end: Plant)
    requires m.process.Up? && m.store.writer.Waiting? && m.store.eventQueue == [] && m.store.tradeQueue == [t]
    ensures Path(path, m, end) && end.store.tradeTable == m.store.tradeTable + [t]
    ensures end.store.base == m.store.base && end.store.appended == m.store.appended
    ensures end.store.fates == m.store.fates + [true]
  {
    var s, p, batch := m.store, m.process, G.Batch([], [t]);
    var s1 := s.(tradeQueue := [], writer := G.Holding(batch));
    var s2 := s1.(writer := G.Settled(batch), tradeTable := s.tradeTable + [t], fates := s.fates + [true]);
    var s3 := s2.(writer := G.Waiting, done := s.done + 1);
    end := Plant(s3, p);
    assert G.TakeBatch(s, s1);
    CommitsTrade(s1, s2, t);
    assert G.Advance(s2, s3);
    path := [m, Plant(s1, p), Plant(s2, p), end];
  }

  lemma CommitsTrade(s: G.Store, s': G.Store, t: Trade)
    requires s.writer == G.Holding(G.Batch([], [t]))
    requires s' == s.(writer := G.Settled(s.writer.batch), tradeTable := s.tradeTable + [t],
                      fates := s.fates + [true])
    ensures G.CommitOk(s, s')
  {
    assert G.Repeat(true, 1) == [true];
    assert s.table + TableOf([]) == s.table;
  }

  /** After a dropped batch the trades table can hold a trade that no replay of the events regenerates. */
  lemma DroppedEventLeavesItsTrade() returns (run: seq<Plant>, loaded: seq<JournalEvent>)
    ensures Behavior(run)
    ensures var m := run[|run| - 1];
            && Loads(m.store.table, loaded) && R.Recover(loaded).Some?
            && !Within(m.store.tradeTable, R.Recover(loaded).value.trades)
  {
    hide Next, R.Recover, TableOf, G.EventsOf, G.Committed, Rebuild, Apply, Throws, Exact, Within, Loads;
    SampleRests();
    BuyerTrades();
    var a, b, t := Submit(Sample()), Submit(Buyer()), Trade(2, 1, 100.0, 10);
    var path, m := Start();
    path, m := Extend(path, m, [], 1, [], a, true);
    var down, m1 := Plant(Opened(map[], [], []), R.Down), Logged(m, b, false);
    var p1 := JournalAndSettle(m, b, false);
    Join(path, p1, down, m, m1);
    LoggedIsDurable(m, b, false);
    var p2, end := TradeAndCommit(m1, t);
    Join(path + p1[1..], p2, down, m1, end);
    run := path + p1[1..] + p2[1..];
    DurableLoads(run);
    loaded := G.DurableEvents(end.store);
    var kept := G.Committed(m1.store.appended, m1.store.fates);
    L.CommittedPush(m1.store.appended, m1.store.fates, G.TradeRow(t), true);
    G.SplitsPush(kept, G.TradeRow(t));
    assert loaded == [MakeEvent(a, 1, 0)];
    RebuildsWhatWasJournaled(a, 1, 0);
    SampleAlone(MakeEvent(a, 1, 0));
    TooMany(end.store.tradeTable);
  }

  lemma SampleAlone(e: JournalEvent)
    requires Rebuild(e) == Some(Submit(Sample()))
    ensures R.Recover([e]).Some? && R.Recover([e]).value.trades == []
  {
    hide R.Recover, Apply, Throws, Rebuild;
    SampleRests();
    EmptyRecovers();
    assert [e][..0] == [];
    R.RecoverUnfolds([e]);
  }

  lemma TooMany(a: seq<Trade>)
    requires a != []
    ensures !Within(a, [])
  {
  }
}
