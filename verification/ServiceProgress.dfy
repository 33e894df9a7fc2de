/**
 The service gets things done: it can be started, serves what is queued, and can be stopped with
 everything journaled, applied, published and committed; after a crash it can come back.
 */
module ServiceProgress {
  import opened Trading
  import opened PriceTime
  import opened Journal
  import opened EventTable
  import opened StaleSubmissions
  import opened Service
  import C = CommandStream
  import D = DurableRecovery
  import G = GroupCommit
  import L = StoredLog
  import R = Recovery
  import P = FlushProgress

  lemma Extended(run: seq<Service>, v': Service)
    requires Behavior(run) && Next(run[|run| - 1], v')
    ensures Behavior(run + [v'])
  {
    hide Next, Init;
    var more := run + [v'];
    forall i | 0 <= i < |more| - 1 ensures Next(more[i], more[i + 1]) {
      if i < |run| - 1 {
        assert more[i] == run[i] && more[i + 1] == run[i + 1];
      }
    }
  }

  lemma {:induction false} StoreIsTended(run: seq<Service>, i: nat)
    requires Behavior(run) && i < |run|
    ensures P.Tended(run[i].plant.store)
  {
    hide Next, D.Next, G.Next;
    if i > 0 {
      StoreIsTended(run, i - 1);
      StepRefines(run[i - 1], run[i]);
      D.StoreMoves(run[i - 1].plant, run[i].plant);
      if G.Next(run[i - 1].plant.store, run[i].plant.store) {
        P.NextIsTended(run[i - 1].plant.store, run[i].plant.store);
      }
    }
  }

  // ---------- One command ----------

  function Rows(trades: seq<Trade>): (rows: seq<G.Record>)
    ensures |rows| == |trades| && forall i :: 0 <= i < |trades| ==> rows[i] == G.TradeRow(trades[i])
  {
    seq(|trades|, i requires 0 <= i < |trades| => G.TradeRow(trades[i]))
  }

  /** The store after an event was journaled. */
  function WithEvent(s: G.Store, ev: JournalEvent): G.Store {
    s.(eventQueue := s.eventQueue + [ev], enqueued := s.enqueued + 1, appended := s.appended + [G.Event(ev)])
  }

  /** The store after trades were recorded. */
  function WithTrades(s: G.Store, trades: seq<Trade>): G.Store {
    s.(tradeQueue := s.tradeQueue + trades, enqueued := s.enqueued + |trades|,
       appended := s.appended + Rows(trades))
  }

  predicate Publishing(v: Service) {
    v.plant.process.Up? && v.plant.process.phase.Publishing?
  }

  /** The service once the pending trades are published and recorded. */
  function AfterPublishing(v: Service): Service
    requires Publishing(v)
  {
    var p := v.plant.process;
    v.(plant := D.Plant(WithTrades(v.plant.store, p.phase.pending),
                        p.(tradeLog := p.tradeLog + p.phase.pending, phase := R.Idle)))
  }

  function OnePublished(v: Service): Service
    requires Publishing(v) && v.plant.process.phase.pending != []
  {
    var p, t := v.plant.process, v.plant.process.phase.pending[0];
    v.(plant := D.Plant(WithTrades(v.plant.store, [t]),
                        p.(tradeLog := p.tradeLog + [t], phase := R.Publishing(p.phase.pending[1..]))))
  }

  lemma PublishIsNext(v: Service)
    requires Publishing(v) && v.plant.process.phase.pending != []
    ensures Next(v, OnePublished(v))
  {
    hide G.EventsOf, G.TradesOf;
    var v', s, t := OnePublished(v), v.plant.store, v.plant.process.phase.pending[0];
    G.SplitsPush(s.appended, G.TradeRow(t));
    assert Rows([t]) == [G.TradeRow(t)];
    assert D.Publish(v.plant, v'.plant);
    assert Work(v, v');
  }

  lemma SameEnd(v: Service)
    requires Publishing(v) && v.plant.process.phase.pending != []
    ensures Publishing(OnePublished(v)) && AfterPublishing(OnePublished(v)) == AfterPublishing(v)
  {
    hide WithTrades;
    var p := v.plant.process;
    var t, rest := p.phase.pending[0], p.phase.pending[1..];
    TradesJoin(v.plant.store, [t], rest);
    assert [t] + rest == p.phase.pending;
    assert p.tradeLog + [t] + rest == p.tradeLog + p.phase.pending;
  }

  lemma TradesJoin(s: G.Store, a: seq<Trade>, b: seq<Trade>)
    ensures WithTrades(WithTrades(s, a), b) == WithTrades(s, a + b)
  {
    assert Rows(a) + Rows(b) == Rows(a + b);
  }

  lemma FinishStep(v: Service)
    requires Publishing(v) && v.plant.process.phase.pending == []
    ensures Next(v, AfterPublishing(v))
  {
    var v', s, p := AfterPublishing(v), v.plant.store, v.plant.process;
    assert s.tradeQueue + [] == s.tradeQueue && s.appended + Rows([]) == s.appended;
    assert p.tradeLog + [] == p.tradeLog;
    assert R.Finish(D.Engine(v.plant), D.Engine(v'.plant));
    assert Work(v, v');
  }

  /** All trades of a command are published and recorded one by one, and the thread is back at the queue. */
  lemma {:induction false} PublishesAll(run: seq<Service>) returns (run': seq<Service>)
    requires Behavior(run) && Publishing(run[|run| - 1])
    ensures Behavior(run') && run <= run'
    ensures run'[|run'| - 1] == AfterPublishing(run[|run| - 1])
    decreases |run[|run| - 1].plant.process.phase.pending|
  {
    hide Next, Init, AfterPublishing;
    var v := run[|run| - 1];
    if v.plant.process.phase.pending == [] {
      FinishStep(v);
      Extended(run, AfterPublishing(v));
      run' := run + [AfterPublishing(v)];
    } else {
      PublishIsNext(v);
      SameEnd(v);
      Extended(run, OnePublished(v));
      run' := PublishesAll(run + [OnePublished(v)]);
    }
  }

  /** A command that the engine will journal, apply and survive. */
  predicate Servable(book: Book, c: Command) {
    ValidCommand(c) && Exact(book, c) && !Throws(book, c)
  }

  /** The thread is at the queue and a command waits. */
  predicate AtQueue(v: Service) {
    && v.stream.threadAlive && v.stream.queue != []
    && v.plant.process.Up? && v.plant.process.phase.Idle? && v.plant.process.nextSeq < TWO_63
  }

  function Head(v: Service): Command
    requires v.stream.queue != []
  {
    v.stream.queue[0].command
  }

  /** The service once the first command of the queue is journaled, applied and published. */
  function AfterOne(v: Service, now: int): Service
    requires v.stream.queue != [] && v.plant.process.Up?
  {
    var s, p, c := v.plant.store, v.plant.process, Head(v);
    var out := Apply(p.book, c);
    Service(v.stream.(queue := v.stream.queue[1..], processed := v.stream.processed + [v.stream.queue[0]]),
            D.Plant(WithTrades(WithEvent(s, MakeEvent(c, p.nextSeq, now)), out.trades),
                    R.Up(out.book, p.tradeLog + out.trades, p.nextSeq + 1, R.Idle)),
            v.flushing)
  }

  lemma TakeStep(v: Service, v': Service, now: int)
    requires AtQueue(v) && Servable(v.plant.process.book, Head(v))
    requires var p, c := v.plant.process, Head(v);
             v' == Service(v.stream.(queue := v.stream.queue[1..],
                                     processed := v.stream.processed + [v.stream.queue[0]]),
                           D.Plant(v.plant.store, p.(nextSeq := p.nextSeq + 1,
                                                     phase := R.Stamped(MakeEvent(c, p.nextSeq, now), c))),
                           v.flushing)
    ensures Next(v, v')
  {
    hide Exact, Throws, MakeEvent, G.EventsOf;
    assert R.Stamp(D.Engine(v.plant), D.Engine(v'.plant), Head(v), now);
    assert Take(v, v', now);
  }

  lemma AppendStep(v: Service, v': Service)
    requires v.plant.process.Up? && v.plant.process.phase.Stamped? && v.plant.process.phase.ev.seqNo < TWO_63
    requires var p := v.plant.process;
             v' == v.(plant := D.Plant(WithEvent(v.plant.store, p.phase.ev), p.(phase := R.Journaled(p.phase.c))))
    ensures Next(v, v')
  {
    hide G.EventsOf;
    var ev := v.plant.process.phase.ev;
    G.SplitsPush(v.plant.store.appended, G.Event(ev));
    assert D.Append(v.plant, v'.plant);
    assert Work(v, v');
  }

  lemma ApplyStep(v: Service, v': Service)
    requires v.plant.process.Up? && v.plant.process.phase.Journaled?
    requires !Throws(v.plant.process.book, v.plant.process.phase.c)
    requires var p := v.plant.process;
             var out := Apply(p.book, p.phase.c);
             v' == v.(plant := D.Plant(v.plant.store, p.(book := out.book, phase := R.Publishing(out.trades))))
    ensures Next(v, v')
  {
    hide Apply, Throws, G.EventsOf;
    assert R.ApplyStep(D.Engine(v.plant), D.Engine(v'.plant));
    assert Work(v, v');
  }

  /** A live thread takes the first command, journals it, applies it and publishes its trades. */
  lemma ServesOne(run: seq<Service>, now: int) returns (run': seq<Service>)
    requires Behavior(run) && AtQueue(run[|run| - 1])
    requires Servable(run[|run| - 1].plant.process.book, Head(run[|run| - 1]))
    ensures Behavior(run') && run <= run'
    ensures run'[|run'| - 1] == AfterOne(run[|run| - 1], now)
  {
    hide Next, Init, Apply, Exact, Throws, ValidCommand;
    var v := run[|run| - 1];
    var s, p, c := v.plant.store, v.plant.process, Head(v);
    var ev, out := MakeEvent(c, p.nextSeq, now), Apply(p.book, c);
    var stream := v.stream.(queue := v.stream.queue[1..], processed := v.stream.processed + [v.stream.queue[0]]);
    var p1 := p.(nextSeq := p.nextSeq + 1, phase := R.Stamped(ev, c));
    var a := Service(stream, D.Plant(s, p1), v.flushing);
    TakeStep(v, a, now);
    Extended(run, a);
    var b := a.(plant := D.Plant(WithEvent(s, ev), p1.(phase := R.Journaled(c))));
    StampRecords(c, p.nextSeq, now);
    AppendStep(a, b);
    Extended(run + [a], b);
    var d := b.(plant := D.Plant(WithEvent(s, ev), p1.(book := out.book, phase := R.Publishing(out.trades))));
    ApplyStep(b, d);
    Extended(run + [a] + [b], d);
    run' := PublishesAll(run + [a] + [b] + [d]);
    assert run'[|run'| - 1] == AfterPublishing(d);
  }

  // ---------- The whole queue ----------

  function CommandsOf(items: seq<C.Item>): (cs: seq<Command>)
    ensures |cs| == |items| && forall i :: 0 <= i < |items| ==> cs[i] == items[i].command
  {
    seq(|items|, i requires 0 <= i < |items| => items[i].command)
  }

  /** Each command of a stream is servable at the book the ones before it leave. */
  predicate AllServable(book: Book, cs: seq<Command>) {
    forall k :: 0 <= k < |cs| ==> Servable(RunFrom(book, cs[..k]).book, cs[k])
  }

  /** A run can be told from its first command on. */
  lemma {:induction false} RunFromFirst(book: Book, cs: seq<Command>)
    requires cs != []
    ensures var out, rest := Apply(book, cs[0]), RunFrom(Apply(book, cs[0]).book, cs[1..]);
            RunFrom(book, cs).book == rest.book && RunFrom(book, cs).trades == out.trades + rest.trades
  {
    hide Apply;
    var last := |cs| - 1;
    if last == 0 {
      assert cs[..0] == [] && cs[1..] == [];
      assert [] + Apply(book, cs[0]).trades == Apply(book, cs[0]).trades;
    } else {
      RunFromFirst(book, cs[..last]);
      assert cs[..last][1..] == cs[1..][..last - 1] && cs[..last][0] == cs[0];
    }
  }

  lemma RestIsServable(book: Book, cs: seq<Command>)
    requires cs != [] && AllServable(book, cs)
    ensures Servable(book, cs[0]) && AllServable(Apply(book, cs[0]).book, cs[1..])
  {
    hide Servable, Apply, RunFrom;
    FirstIsAtStart(book, cs);
    forall k | 0 <= k < |cs| - 1 ensures Servable(RunFrom(Apply(book, cs[0]).book, cs[1..][..k]).book, cs[1..][k]) {
      RunFromFirst(book, cs[..k + 1]);
      assert cs[..k + 1][1..] == cs[1..][..k] && cs[..k + 1][0] == cs[0];
      assert Servable(RunFrom(book, cs[..k + 1]).book, cs[k + 1]);
    }
  }

  lemma FirstIsAtStart(book: Book, cs: seq<Command>)
    requires cs != [] && AllServable(book, cs)
    ensures Servable(book, cs[0])
  {
    hide Servable;
    assert cs[..0] == [];
    assert Servable(RunFrom(book, cs[..0]).book, cs[0]);
  }

  /** The thread is at the queue, everything on it is servable, and there are numbers enough. */
  predicate Ready(v: Service) {
    && v.stream.threadAlive
    && v.plant.process.Up? && v.plant.process.phase.Idle?
    && v.plant.process.nextSeq + |v.stream.queue| <= TWO_63
    && AllServable(v.plant.process.book, CommandsOf(v.stream.queue))
  }

  /** What serving changes of the rest: the queue is gone, all else but journal and engine is as it was. */
  predicate Drained(v: Service, v': Service) {
    && v'.stream == v.stream.(queue := [], processed := v.stream.processed + v.stream.queue)
    && v'.flushing == v.flushing
    && v'.plant.store.base == v.plant.store.base && v.plant.store.appended <= v'.plant.store.appended
    && v'.plant.store.fates == v.plant.store.fates && v'.plant.store.writer == v.plant.store.writer
    && v'.plant.store.waiters == v.plant.store.waiters && v'.plant.store.stopping == v.plant.store.stopping
  }

  lemma StaysReady(v: Service, now: int)
    requires Ready(v) && v.stream.queue != []
    ensures AtQueue(v) && Servable(v.plant.process.book, Head(v)) && Ready(AfterOne(v, now))
  {
    hide Servable, Apply, RunFrom, MakeEvent;
    var cs := CommandsOf(v.stream.queue);
    RestIsServable(v.plant.process.book, cs);
    assert CommandsOf(v.stream.queue[1..]) == cs[1..];
  }

  /**
   A live thread serves everything queued: each command is journaled, applied and published in turn, and
   the engine ends with the book and the trades of the run of the queued commands.
   */
  lemma {:induction false} ServesTheQueue(run: seq<Service>, now: int) returns (run': seq<Service>)
    requires Behavior(run) && Ready(run[|run| - 1])
    ensures Behavior(run') && run <= run' && Drained(run[|run| - 1], run'[|run'| - 1])
    ensures var v, p, q := run[|run| - 1], run[|run| - 1].plant.process, run'[|run'| - 1].plant.process;
            var session := RunFrom(p.book, CommandsOf(v.stream.queue));
            q == R.Up(session.book, p.tradeLog + session.trades, p.nextSeq + |v.stream.queue|, R.Idle)
    decreases |run[|run| - 1].stream.queue|
  {
    hide Next, Init, Ready, Servable, AfterOne, Drained, RunFrom;
    var v := run[|run| - 1];
    if v.stream.queue == [] {
      run' := run;
      NothingToServe(v);
    } else {
      StaysReady(v, now);
      var one := ServesOne(run, now);
      var w := AfterOne(v, now);
      OneLess(v, now);
      run' := ServesTheQueue(one, now);
      DrainedInTwo(v, now, run'[|run'| - 1]);
      RunFromFirst(v.plant.process.book, CommandsOf(v.stream.queue));
      assert CommandsOf(v.stream.queue)[1..] == CommandsOf(w.stream.queue);
      AddTrades(v.plant.process.tradeLog, Apply(v.plant.process.book, Head(v)).trades,
                RunFrom(w.plant.process.book, CommandsOf(w.stream.queue)).trades);
    }
  }

  lemma AddTrades(a: seq<Trade>, b: seq<Trade>, c: seq<Trade>)
    ensures a + b + c == a + (b + c)
  {
  }

  lemma NothingToServe(v: Service)
    requires Ready(v) && v.stream.queue == []
    ensures Drained(v, v)
    ensures var p, session := v.plant.process, RunFrom(v.plant.process.book, CommandsOf(v.stream.queue));
            p == R.Up(session.book, p.tradeLog + session.trades, p.nextSeq, R.Idle)
  {
    assert v.stream.processed + [] == v.stream.processed;
    assert v.plant.process.tradeLog + [] == v.plant.process.tradeLog;
  }

  lemma OneLess(v: Service, now: int)
    requires v.stream.queue != [] && v.plant.process.Up?
    ensures var w, p, out := AfterOne(v, now), v.plant.process, Apply(v.plant.process.book, Head(v));
            && w.stream.queue == v.stream.queue[1..]
            && w.plant.process == R.Up(out.book, p.tradeLog + out.trades, p.nextSeq + 1, R.Idle)
  {
  }

  lemma DrainedInTwo(v: Service, now: int, v': Service)
    requires v.stream.queue != [] && v.plant.process.Up? && Drained(AfterOne(v, now), v')
    ensures Drained(v, v')
  {
    hide Apply, MakeEvent;
    var w := AfterOne(v, now);
    assert v.stream.processed + [v.stream.queue[0]] + v.stream.queue[1..] == v.stream.processed + v.stream.queue;
    assert v.plant.store.appended <= w.plant.store.appended;
  }

  // ---------- The writer ----------

  /** What the writer leaves alone when it commits everything. */
  predicate Committed(s: G.Store, s': G.Store) {
    && s'.base == s.base && s'.appended == s.appended && s'.waiters == s.waiters && s'.stopping == s.stopping
    && (L.NoFailures(s) ==> L.NoFailures(s'))
  }

  lemma WriterCommitsStep(m: D.Plant) returns (s': G.Store)
    requires D.Inv(m) && !m.store.writer.Exited? && P.Load(m.store) > 0
    ensures G.Next(m.store, s') && P.Load(s') < P.Load(m.store) && !s'.writer.Exited? && Committed(m.store, s')
  {
    hide TableOf, G.Insertable, R.Inv, G.Queued, G.Persisted, G.Log, D.View;
    var s := m.store;
    match s.writer
    case Waiting =>
      s' := s.(eventQueue := [], tradeQueue := [], writer := G.Holding(G.Batch(s.eventQueue, s.tradeQueue)));
      assert G.TakeBatch(s, s');
    case Holding(batch) =>
      D.BatchIsInsertable(m);
      s' := CommitAll(s);
    case Settled(batch) =>
      s' := s.(writer := G.Waiting, done := s.done + G.Size(batch));
      assert G.Advance(s, s');
  }

  lemma CommitAll(s: G.Store) returns (s': G.Store)
    requires s.writer.Holding? && G.Insertable(s.table, s.writer.batch.events)
    ensures G.CommitOk(s, s') && s'.writer.Settled? && Committed(s, s')
    ensures s'.eventQueue == s.eventQueue && s'.tradeQueue == s.tradeQueue
  {
    hide TableOf;
    s' := s.(writer := G.Settled(s.writer.batch), table := s.table + TableOf(s.writer.batch.events),
             tradeTable := s.tradeTable + s.writer.batch.trades,
             fates := s.fates + G.Repeat(true, G.Size(s.writer.batch)));
  }

  lemma BackgroundStep(v: Service, s': G.Store)
    requires v.plant.process.Up? && G.Next(v.plant.store, s') && Committed(v.plant.store, s')
    ensures Next(v, v.(plant := D.Plant(s', v.plant.process)))
  {
    hide G.Next;
    assert Background(v, v.(plant := D.Plant(s', v.plant.process)));
  }

  /** Given the time, the writer commits everything, and then waits on empty queues. */
  lemma {:induction false} WriterCatchesUp(run: seq<Service>) returns (run': seq<Service>)
    requires Behavior(run)
    requires run[|run| - 1].plant.process.Up? && !run[|run| - 1].plant.store.writer.Exited?
    ensures Behavior(run') && run <= run'
    ensures var v, v' := run[|run| - 1], run'[|run'| - 1];
            && v' == v.(plant := D.Plant(v'.plant.store, v.plant.process))
            && Committed(v.plant.store, v'.plant.store)
            && v'.plant.store.done == v'.plant.store.enqueued && v'.plant.store.writer.Waiting?
    decreases P.Load(run[|run| - 1].plant.store)
  {
    hide Next, Init, D.Inv, G.Next, P.Load, Threads, Journaled;
    var v := run[|run| - 1];
    BehaviorKeepsInv(run, |run| - 1);
    if P.Load(v.plant.store) == 0 {
      run' := run;
      AllSettled(v.plant);
    } else {
      var s' := WriterCommitsStep(v.plant);
      BackgroundStep(v, s');
      var v' := v.(plant := D.Plant(s', v.plant.process));
      Extended(run, v');
      run' := WriterCatchesUp(run + [v']);
    }
  }

  lemma AllSettled(m: D.Plant)
    requires D.Inv(m) && !m.store.writer.Exited? && P.Load(m.store) == 0
    ensures m.store.done == m.store.enqueued && m.store.writer.Waiting?
  {
    hide G.Queued, G.Persisted, R.Inv, D.View, G.Log;
    G.CountersAddUp(m.store);
  }

  // ---------- Start, serve, stop ----------

  lemma StartStep(v: Service, v': Service)
    requires v.plant.process.Up? && C.Start(v.stream, v'.stream) && v' == v.(stream := v'.stream)
    ensures Next(v, v')
  {
    assert Outside(v, v');
  }

  /** The stop flag is raised, the thread ends, and the flush begins. */
  lemma StopSteps(v: Service) returns (a: Service, b: Service, c: Service)
    requires v.plant.process.Up? && v.plant.process.phase.Idle? && v.stream.queue == []
    requires v.stream.running && v.stream.threadAlive && v.stream.control.Free?
    requires !v.flushing && CONTROL !in v.plant.store.waiters
    ensures Next(v, a) && Next(a, b) && Next(b, c)
    ensures c.flushing && c.stream == v.stream.(running := false, stopping := true, control := C.Joining,
                                                threadAlive := false)
    ensures c.plant == D.Plant(v.plant.store.(waiters := v.plant.store.waiters[CONTROL := v.plant.store.enqueued]),
                               v.plant.process)
  {
    a := v.(stream := v.stream.(running := false, stopping := true, control := C.Joining));
    b := a.(stream := a.stream.(threadAlive := false));
    c := b.(flushing := true,
            plant := D.Plant(v.plant.store.(waiters := v.plant.store.waiters[CONTROL := v.plant.store.enqueued]),
                             v.plant.process));
    assert C.StopBegin(v.stream, a.stream);
    assert Outside(v, a);
    assert ThreadEnd(a, b);
    assert StopFlush(b, c);
  }

  lemma ReturnStep(v: Service) returns (v': Service)
    requires v.plant.process.Up? && v.flushing && v.stream.control.Joining? && !v.stream.threadAlive
    requires CONTROL in v.plant.store.waiters && v.plant.store.waiters[CONTROL] <= v.plant.store.done
    ensures Next(v, v')
    ensures v' == v.(flushing := false, stream := v.stream.(control := C.Free),
                     plant := D.Plant(v.plant.store.(waiters := v.plant.store.waiters - {CONTROL}), v.plant.process))
  {
    v' := v.(flushing := false, stream := v.stream.(control := C.Free),
             plant := D.Plant(v.plant.store.(waiters := v.plant.store.waiters - {CONTROL}), v.plant.process));
    assert StopReturn(v, v');
  }

  /** stop() on an engine with nothing left to serve returns, with everything settled and nothing more dropped. */
  lemma StopReturns(run: seq<Service>) returns (run': seq<Service>)
    requires Behavior(run)
    requires var v := run[|run| - 1];
             && v.plant.process.Up? && v.plant.process.phase.Idle? && v.stream.queue == []
             && v.stream.running && !v.plant.store.stopping
    ensures Behavior(run') && run <= run'
    ensures var v, v' := run[|run| - 1], run'[|run'| - 1];
            && C.Stopped(v'.stream) && v'.stream.queue == [] && v'.plant.process == v.plant.process
            && v'.stream.processed == v.stream.processed && v'.stream.pushed == v.stream.pushed
            && v'.plant.store.appended == v.plant.store.appended && v'.plant.store.base == v.plant.store.base
            && v'.plant.store.done == v'.plant.store.enqueued
            && (L.NoFailures(v.plant.store) ==> L.NoFailures(v'.plant.store))
  {
    hide Next, Init, D.Inv, Journaled;
    var v := run[|run| - 1];
    BehaviorKeepsInv(run, |run| - 1);
    StoreIsTended(run, |run| - 1);
    Enqueued(v.plant);
    var a, b, c := StopSteps(v);
    Extended(run, a);
    Extended(run + [a], b);
    Extended(run + [a] + [b], c);
    var more := WriterCatchesUp(run + [a] + [b] + [c]);
    var w := more[|more| - 1];
    BehaviorKeepsInv(more, |more| - 1);
    Enqueued(w.plant);
    var v' := ReturnStep(w);
    Extended(more, v');
    run' := more + [v'];
  }

  lemma Enqueued(m: D.Plant)
    requires D.Inv(m)
    ensures m.store.enqueued == |m.store.appended|
  {
    D.StoreCounts(m);
  }

  /** Any thread can push a command at any moment. */
  lemma PushIsQueued(run: seq<Service>, item: C.Item) returns (v': Service)
    requires Behavior(run)
    ensures Behavior(run + [v'])
    ensures var v := run[|run| - 1];
            v' == v.(stream := v.stream.(queue := v.stream.queue + [item], pushed := v.stream.pushed + [item]))
  {
    var v := run[|run| - 1];
    v' := v.(stream := v.stream.(queue := v.stream.queue + [item], pushed := v.stream.pushed + [item]));
    assert C.Push(v.stream, v'.stream, item);
    assert Outside(v, v');
    assert Next(v, v');
    hide Next;
    Extended(run, v');
  }

  /** A stopped engine is up, its commands are servable, and its journal is not being torn down. */
  predicate Startable(v: Service) {
    && C.Stopped(v.stream) && v.plant.process.Up? && !v.plant.store.stopping
    && v.plant.process.nextSeq + |v.stream.queue| <= TWO_63
    && AllServable(v.plant.process.book, CommandsOf(v.stream.queue))
  }

  lemma StartedIsReady(v: Service) returns (v': Service)
    requires Inv(v) && Startable(v)
    ensures Next(v, v') && Ready(v') && v' == v.(stream := v'.stream)
    ensures v'.stream.running && v'.stream.queue == v.stream.queue
    ensures v'.stream.processed == v.stream.processed && v'.stream.pushed == v.stream.pushed
  {
    hide AllServable, D.Inv, Journaled;
    var stream := C.StartIsPossible(v.stream);
    v' := v.(stream := stream);
    hide Next;
    StartStep(v, v');
  }

  /**
   From any state of any behavior in which the engine is up and stopped, whatever has been queued: start()
   can be called, every queued command is then journaled, applied and published in order, and stop() can
   be called and returns. If no batch was dropped before, none need be dropped now, and everything ever
   journaled is then in the table.
   */
  lemma StartServeStop(run: seq<Service>, now: int) returns (run': seq<Service>)
    requires Behavior(run) && Startable(run[|run| - 1])
    ensures Behavior(run') && run <= run'
    ensures var v, v' := run[|run| - 1], run'[|run'| - 1];
            var p, session := v.plant.process, RunFrom(v.plant.process.book, CommandsOf(v.stream.queue));
            && C.Stopped(v'.stream) && v'.stream.queue == [] && v'.stream.processed == v.stream.pushed
            && v'.plant.process ==
               R.Up(session.book, p.tradeLog + session.trades, p.nextSeq + |v.stream.queue|, R.Idle)
            && v'.plant.store.done == v'.plant.store.enqueued && D.Inv(v'.plant)
            && (L.NoFailures(v.plant.store) ==> G.DurableEvents(v'.plant.store) == G.Log(v'.plant.store))
  {
    hide Next, Init, D.Inv, Journaled, AllServable, RunFrom, G.DurableEvents, G.Log, Ready;
    var v := run[|run| - 1];
    BehaviorKeepsInv(run, |run| - 1);
    var a := StartedIsReady(v);
    Extended(run, a);
    var served := ServesTheQueue(run + [a], now);
    run' := StopReturns(served);
    BehaviorKeepsInv(run', |run'| - 1);
    if L.NoFailures(v.plant.store) {
      AllDurable(run'[|run'| - 1].plant);
    }
  }

  lemma AllDurable(m: D.Plant)
    requires D.Inv(m) && L.NoFailures(m.store) && m.store.done == m.store.enqueued
    ensures G.DurableEvents(m.store) == G.Log(m.store)
  {
    hide G.EventsOf, G.Committed, TableOf, R.Inv;
    D.StoreCounts(m);
    L.DurableIsPrefix(m.store);
    assert m.store.appended[..|m.store.fates|] == m.store.appended;
  }

  /** What a new process comes to from the stored log: an engine, or nothing when recovery throws. */
  function Comeback(log: seq<JournalEvent>): R.Process {
    var r := R.Recover(log);
    if r.None? then R.Down else R.Up(r.value.book, r.value.trades, r.value.maxSeq + 1, R.Idle)
  }

  lemma CrashSteps(v: Service) returns (a: Service, b: Service)
    requires D.Inv(v.plant)
    ensures Next(v, a) && Next(a, b)
    ensures a.plant.process.Down? && b.stream == NoStream() && !b.flushing
    ensures b.plant.process == Comeback(G.DurableEvents(v.plant.store))
    ensures b.plant.store.table == v.plant.store.table && b.plant.store.tradeTable == v.plant.store.tradeTable
  {
    hide D.Inv, G.DurableEvents, Loads, R.Recover;
    D.Fits(v.plant);
    var loaded := G.DurableEvents(v.plant.store);
    D.TableLoads(v.plant);
    a := Service(NoStream(), D.Plant(D.Opened(v.plant.store.table, v.plant.store.tradeTable, loaded), R.Down), false);
    b := a.(plant := D.Plant(a.plant.store, Comeback(loaded)));
    assert D.Crash(v.plant, a.plant, loaded) && D.Restart(a.plant, b.plant, loaded);
    assert Crash(v, a) && Restart(a, b);
  }

  /** At any moment of any behavior the process can die, and the next one comes up as recovery has it. */
  lemma ComesBack(run: seq<Service>) returns (run': seq<Service>)
    requires Behavior(run)
    ensures Behavior(run') && run <= run' && |run'| == |run| + 2
    ensures var v, v' := run[|run| - 1], run'[|run'| - 1];
            && |v.plant.store.fates| <= |v.plant.store.appended|
            && v'.plant.process == Comeback(G.DurableEvents(v.plant.store)) && v'.stream == NoStream()
  {
    hide Next, Init, D.Inv, Threads, Journaled, G.DurableEvents;
    BehaviorKeepsInv(run, |run| - 1);
    D.Fits(run[|run| - 1].plant);
    var a, b := CrashSteps(run[|run| - 1]);
    Extended(run, a);
    Extended(run + [a], b);
    run' := run + [a] + [b];
  }
}
