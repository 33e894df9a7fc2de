/**
 The engine object: one order book, one journal, one ordered stream of commands. Processing and
 recovery are loops over order objects; both are proved against the value-level run and replay.
 */
module Engines {
  import opened Trading
  import opened PriceTime
  import opened BookLaws
  import opened Orders
  import opened OrderBooks
  import opened Journal
  import opened StaleSubmissions
  import opened Recovery

  /** The in-memory journal: every append is kept at once, in order. */
  class InMemoryJournal {
    var events: seq<JournalEvent>

    constructor ()
      ensures events == []
    {
      events := [];
    }

    method Append(ev: JournalEvent)
      modifies this
      ensures events == old(events) + [ev]
    {
      events := events + [ev];
    }

    method LoadAll() returns (all: seq<JournalEvent>)
      ensures all == events
    {
      all := events;
    }
  }

  /** A mutex-protected queue of commands; each method is one critical section. */
  class ThreadSafeQueue<T> {
    var queue: seq<T>
    var stopping: bool

    constructor ()
      ensures queue == [] && !stopping
    {
      queue, stopping := [], false;
    }

    method Push(item: T)
      modifies this`queue
      ensures queue == old(queue) + [item]
    {
      queue := queue + [item];
    }

    /** Returns once there is an item or the queue is stopping; nothing only when stopped and empty. */
    method Pop() returns (item: Option<T>)
      requires queue != [] || stopping
      modifies this`queue
      ensures item.None? <==> old(queue) == []
      ensures item.None? ==> stopping && queue == old(queue)
      ensures item.Some? ==> old(queue) == [item.value] + queue
    {
      if queue == [] {
        return None;
      }
      item := Some(queue[0]);
      queue := queue[1..];
    }

    method Stop()
      modifies this`stopping
      ensures stopping
    {
      stopping := true;
    }
  }

  /** A command on the queue; a submission owns its order object. */
  datatype Request = SubmitOrder(order: Order) | CancelById(id: OrderId)

  function OrdersOf(r: Request): set<Order> {
    if r.SubmitOrder? then {r.order} else {}
  }

  ghost function AsCommand(r: Request): Command
    reads OrdersOf(r)
  {
    match r
    case SubmitOrder(o) => Submit(o.State())
    case CancelById(id) => Cancel(id)
  }

  function AllOrders(rs: seq<Request>): set<Order> {
    set i, o | 0 <= i < |rs| && o in OrdersOf(rs[i]) :: o
  }

  ghost function AsCommands(rs: seq<Request>): (cs: seq<Command>)
    reads AllOrders(rs)
    ensures |cs| == |rs| && forall i :: 0 <= i < |rs| ==> cs[i] == AsCommand(rs[i])
  {
    seq(|rs|, i requires 0 <= i < |rs| reads AllOrders(rs) => AsCommand(rs[i]))
  }

  /**
   From position k on, the requests still stand for the given commands, and each order object waits
   on the queue once, valid and not owned by a book.
   */
  ghost predicate Waiting(rs: seq<Request>, cs: seq<Command>, k: nat, owned: set<Order>)
    reads AllOrders(rs)
  {
    && |cs| == |rs| && k <= |rs|
    && (forall i :: k <= i < |rs| ==> AsCommand(rs[i]) == cs[i] && OrdersOf(rs[i]) !! owned)
    && (forall i :: k <= i < |rs| && rs[i].SubmitOrder? ==> ValidOrder(rs[i].order.State()))
    && (forall i, j :: k <= i < j < |rs| ==> OrdersOf(rs[i]) !! OrdersOf(rs[j]))
  }

  lemma RunFromStep(start: Book, cs: seq<Command>, k: nat)
    requires k < |cs|
    ensures var before := RunFrom(start, cs[..k]);
            var out := Apply(before.book, cs[k]);
            RunFrom(start, cs[..k + 1]) == Session(out.book, before.trades + out.trades, before.released + out.released)
  {
    assert cs[..k + 1][..k] == cs[..k];
  }

  // ---------- Progress of the matching loop ----------

  /** What an engine has to show: book, trade log, next sequence number and journal. */
  datatype Ledger = Ledger(book: Book, tradeLog: seq<Trade>, nextSeq: nat, events: seq<JournalEvent>)

  /** The effect of one command: it is journaled under the next number, applied and published. */
  predicate Handles(a: Ledger, c: Command, b: Ledger) {
    && b.nextSeq == a.nextSeq + 1
    && |b.events| == |a.events| + 1 && a.events <= b.events
    && b.events[|a.events|] == MakeEvent(c, a.nextSeq, b.events[|a.events|].epochNanos)
    && var out := Apply(a.book, c);
       b.book == out.book && b.tradeLog == a.tradeLog + out.trades
  }

  /** The effect of the first n commands of a stream. */
  predicate Progress(a: Ledger, cs: seq<Command>, n: nat, b: Ledger) {
    && n <= |cs|
    && b.nextSeq == a.nextSeq + n
    && |b.events| == |a.events| + n && a.events <= b.events
    && (forall i :: 0 <= i < n ==>
          b.events[|a.events| + i] == MakeEvent(cs[i], a.nextSeq + i, b.events[|a.events| + i].epochNanos))
    && var session := RunFrom(a.book, cs[..n]);
       b.book == session.book && b.tradeLog == a.tradeLog + session.trades
  }

  lemma ProgressStep(a: Ledger, cs: seq<Command>, n: nat, b: Ledger, b': Ledger)
    requires Progress(a, cs, n, b) && n < |cs| && Handles(b, cs[n], b')
    ensures Progress(a, cs, n + 1, b')
  {
    hide Apply, MakeEvent;
    RunFromStep(a.book, cs, n);
    forall i | 0 <= i < n + 1
      ensures b'.events[|a.events| + i] == MakeEvent(cs[i], a.nextSeq + i, b'.events[|a.events| + i].epochNanos)
    {
      assert i < n ==> b'.events[|a.events| + i] == b.events[|a.events| + i];
    }
  }

  lemma NoProgress(a: Ledger, cs: seq<Command>)
    ensures Progress(a, cs, 0, a)
  {
  }

  lemma ProgressIsRun(a: Ledger, cs: seq<Command>, n: nat, b: Ledger)
    requires Progress(a, cs, n, b)
    ensures n <= |cs|
    ensures b.book == RunFrom(a.book, cs[..n]).book && b.tradeLog == a.tradeLog + RunFrom(a.book, cs[..n]).trades
  {
  }

  /** None of the first n commands reuses an id that is active when it arrives. */
  predicate Clean(start: Book, cs: seq<Command>, n: nat)
    requires n <= |cs|
  {
    forall k :: 0 <= k < n ==> !Throws(RunFrom(start, cs[..k]).book, cs[k])
  }

  /** The loop has served n commands and is alive, or the last of them killed it. */
  predicate Served(a: Ledger, cs: seq<Command>, n: nat, b: Ledger, alive: bool) {
    && Progress(a, cs, n, b)
    && if alive then Clean(a.book, cs, n) else 0 < n && Clean(a.book, cs, n - 1) && !Clean(a.book, cs, n)
  }

  lemma NothingServed(a: Ledger, cs: seq<Command>)
    ensures Served(a, cs, 0, a, true)
  {
    NoProgress(a, cs);
  }

  lemma ServedOneMore(a: Ledger, cs: seq<Command>, n: nat, b: Ledger, b': Ledger, alive: bool)
    requires Served(a, cs, n, b, true) && n < |cs| && Handles(b, cs[n], b')
    requires alive <==> !Throws(b.book, cs[n])
    ensures Served(a, cs, n + 1, b', alive)
  {
    hide Progress, Handles, Throws, Clean, RunFrom;
    ProgressStep(a, cs, n, b, b');
    ProgressIsRun(a, cs, n, b);
    CleanGrows(a.book, cs, n);
  }

  /** The queue after further arrivals, as a stretch of the whole stream. */
  lemma ArrivalsExtend<T>(rs: seq<T>, queued: nat, arrivals: seq<T>, served: nat, arrived: nat, upTo: nat)
    requires queued <= |rs| && rs[queued..] == arrivals
    requires arrived <= upTo <= |arrivals| && served <= queued + arrived
    ensures rs[served..queued + arrived] + arrivals[arrived..upTo] == rs[served..queued + upTo]
  {
  }

  lemma QueueIsTheRest<T>(queue: seq<T>, arrivals: seq<T>, served: nat, arrived: nat)
    requires arrived <= |arrivals| && served <= |queue| + arrived
    ensures (queue + arrivals)[served..|queue| + arrived] == (queue + arrivals[..arrived])[served..]
  {
  }

  lemma CleanGrows(start: Book, cs: seq<Command>, n: nat)
    requires n < |cs| && Clean(start, cs, n)
    ensures Clean(start, cs, n + 1) <==> !Throws(RunFrom(start, cs[..n]).book, cs[n])
  {
    hide Throws, RunFrom;
  }

  lemma CleanUnwinds(start: Book, cs: seq<Command>, n: nat)
    requires 0 < n <= |cs| && Clean(start, cs, n)
    ensures Clean(start, cs, n - 1) && !Throws(RunFrom(start, cs[..n - 1]).book, cs[n - 1])
    ensures start == [] ==> !Throws(Run(cs[..n - 1]).book, cs[n - 1])
  {
    hide Throws, RunFrom;
  }

  // ---------- The loop body as a path of the recovery machine ----------

  ghost function LedgerOf(s: System): Ledger
    requires s.process.Up?
  {
    Ledger(s.process.book, s.process.tradeLog, s.process.nextSeq, s.log)
  }

  ghost predicate Path(path: seq<System>, s: System, s': System) {
    && path != [] && path[0] == s && path[|path| - 1] == s'
    && forall i :: 0 <= i < |path| - 1 ==> Next(path[i], path[i + 1])
  }

  /** Publishing one trade at a time ends with all of them logged. */
  lemma {:induction false} PublishAll(s: System) returns (path: seq<System>, s': System)
    requires s.process.Up? && s.process.phase.Publishing?
    ensures Path(path, s, s')
    ensures s' == s.(process := s.process.(tradeLog := s.process.tradeLog + s.process.phase.pending, phase := Idle))
    decreases |s.process.phase.pending|
  {
    hide Recover, Apply;
    var p := s.process;
    if p.phase.pending == [] {
      s' := s.(process := p.(phase := Idle));
      assert p.tradeLog + [] == p.tradeLog;
      assert Finish(s, s');
      path := [s, s'];
    } else {
      var t := s.(process := p.(tradeLog := p.tradeLog + [p.phase.pending[0]],
                                phase := Publishing(p.phase.pending[1..])));
      assert PublishOne(s, t);
      var rest;
      rest, s' := PublishAll(t);
      assert p.tradeLog + [p.phase.pending[0]] + p.phase.pending[1..] == p.tradeLog + p.phase.pending;
      path := [s] + rest;
    }
  }

  /**
   What Process does to an engine in one call, the recovery machine does in its small steps: stamp,
   append, apply and publish lead from one idle state to the next with the same effect.
   */
  lemma StepsHandleACommand(s: System, c: Command, now: int) returns (path: seq<System>, s': System)
    requires s.process.Up? && s.process.phase.Idle? && ValidCommand(c) && Exact(s.process.book, c)
    requires !Throws(s.process.book, c)
    ensures Path(path, s, s')
    ensures s'.process.Up? && s'.process.phase.Idle? && s'.durable == s.durable
    ensures Handles(LedgerOf(s), c, LedgerOf(s'))
  {
    hide Recover, Apply, Throws, Exact;
    var p := s.process;
    var ev, out := MakeEvent(c, p.nextSeq, now), Apply(p.book, c);
    var s1 := s.(process := p.(nextSeq := p.nextSeq + 1, phase := Stamped(ev, c)));
    var s2 := s1.(log := s.log + [ev], process := s1.process.(phase := Journaled(c)));
    var s3 := s2.(process := s2.process.(book := out.book, phase := Publishing(out.trades)));
    assert Stamp(s, s1, c, now);
    assert Append(s1, s2);
    assert ApplyStep(s2, s3);
    var rest;
    rest, s' := PublishAll(s3);
    path := [s, s1, s2] + rest;
    RebuildsWhatWasJournaled(c, p.nextSeq, now);
    assert ev == MakeEvent(c, p.nextSeq, ev.epochNanos) by { StampedTime(c, p.nextSeq, now); }
  }

  lemma StampedTime(c: Command, seqNo: nat, now: int)
    ensures MakeEvent(c, seqNo, now).epochNanos == now
  {
  }

  /** Each of the first n commands is one that replays exactly at the book it meets. */
  predicate ExactStream(cs: seq<Command>, n: nat)
    requires n <= |cs|
  {
    forall k :: 0 <= k < n ==> ValidCommand(cs[k]) && Exact(Run(cs[..k]).book, cs[k])
  }

  const NOTHING_YET: Ledger := Ledger([], [], 1, [])

  /**
   Whatever a fresh engine has served, its state is that of the run of the served commands, and
   recovery of its journal gives the same book and trade log and the same next sequence number.
   */
  lemma {:induction false} JournalRecoversTheEngine(cs: seq<Command>, n: nat, b: Ledger)
    requires Progress(NOTHING_YET, cs, n, b) && Clean([], cs, n) && ExactStream(cs, n)
    ensures Recover(b.events) == Some(Recovered(b.book, b.tradeLog, n)) && b.nextSeq == n + 1
    ensures b.book == Run(cs[..n]).book && b.tradeLog == Run(cs[..n]).trades
  {
    if n == 0 {
      assert b.events == [] && b.tradeLog == [] && b.book == [];
    } else {
      hide Progress, Clean, ExactStream, Run, RunFrom, Recover, Throws, Apply, MakeEvent, Rebuild, Exact;
      var before := ProgressUnwinds(cs, n, b);
      CleanUnwinds([], cs, n);
      ExactUnwinds(cs, n);
      JournalRecoversTheEngine(cs, n - 1, before);
      RunKeepsWellFormed(cs[..n - 1]);
      ReplayIsExactIff(before.book, cs[n - 1], n, b.events[n - 1].epochNanos);
      RecoverUnfolds(b.events);
      RunUnfolds(cs[..n]);
      assert cs[..n][..n - 1] == cs[..n - 1];
    }
  }

  lemma ExactUnwinds(cs: seq<Command>, n: nat)
    requires 0 < n <= |cs| && ExactStream(cs, n)
    ensures ExactStream(cs, n - 1) && ValidCommands(cs[..n - 1])
    ensures ValidCommand(cs[n - 1]) && Exact(Run(cs[..n - 1]).book, cs[n - 1])
  {
    hide Run, Exact;
  }

  lemma ProgressUnwinds(cs: seq<Command>, n: nat, b: Ledger) returns (before: Ledger)
    requires Progress(NOTHING_YET, cs, n, b) && n > 0
    ensures Progress(NOTHING_YET, cs, n - 1, before)
    ensures |b.events| == n && before.events == b.events[..n - 1] && b.nextSeq == n + 1
    ensures n <= |cs| && b.events[n - 1] == MakeEvent(cs[n - 1], n, b.events[n - 1].epochNanos)
    ensures var out := Apply(before.book, cs[n - 1]);
            b.book == out.book && b.tradeLog == before.tradeLog + out.trades
  {
    hide Apply, MakeEvent;
    var session := RunFrom([], cs[..n - 1]);
    before := Ledger(session.book, [] + session.trades, n, b.events[..n - 1]);
    RunFromStep([], cs, n - 1);
  }

  class Engine {
    const book: OrderBook
    const journal: InMemoryJournal
    const incoming: ThreadSafeQueue<Request>
    var nextSeq: nat
    var tradeLog: seq<Trade>

    ghost predicate Valid()
      reads book, book.owned.Values
    {
      book.Valid()
    }

    constructor (journal: InMemoryJournal)
      ensures Valid() && fresh(book) && fresh(incoming) && this.journal == journal
      ensures book.flat == [] && book.owned == map[] && tradeLog == [] && nextSeq == 1
    {
      this.journal := journal;
      book := new OrderBook();
      incoming := new ThreadSafeQueue<Request>();
      nextSeq, tradeLog := 1, [];
    }

    /**
     One iteration of the matching loop: stamp, journal, apply, publish. The event is in the journal
     whatever happens next; a duplicate active id kills the thread after that.
     */
    method Process(r: Request, now: int) returns (alive: bool)
      requires Valid()
      requires r.SubmitOrder? ==> ValidOrder(r.order.State())
      modifies this, book, book.owned.Values, journal, OrdersOf(r)
      ensures Valid()
      ensures nextSeq == old(nextSeq) + 1
      ensures journal.events == old(journal.events) + [MakeEvent(old(AsCommand(r)), old(nextSeq), now)]
      ensures alive <==> !Throws(old(book.flat), old(AsCommand(r)))
      ensures var out := Apply(old(book.flat), old(AsCommand(r)));
              book.flat == out.book && tradeLog == old(tradeLog) + out.trades
      ensures book.owned.Values <= old(book.owned.Values) + OrdersOf(r)
    {
      hide Match, Active, OrderBook.Valid;
      var stamp := nextSeq;
      nextSeq := nextSeq + 1;
      alive := true;
      match r
      case SubmitOrder(order) =>
        var ev := JournalEvent(stamp, SUBMIT, if order.terms.Limit? then LIMIT else MARKET, order.id, order.trader,
                               order.side, order.quantity, if order.terms.Limit? then order.terms.price else 0.0, now);
        journal.Append(ev);
        var added := book.AddOrder(order);
        if added.DuplicateId? {
          return false;
        }
        Publish(added.trades);
      case CancelById(id) =>
        journal.Append(MakeCancelEvent(id, stamp, now));
        var found := book.CancelOrder(id);
        assert tradeLog + [] == tradeLog;
    }

    ghost function Snapshot(): Ledger
      reads this, book, journal
    {
      Ledger(book.flat, tradeLog, nextSeq, journal.events)
    }

    /**
     What other threads do while the matching thread is about to pop: the next arrivals may be pushed
     and stop() may be called, at least until there is something to pop or the queue is stopping.
     */
    method OtherThreads(arrivals: seq<Request>, arrived: nat) returns (upTo: nat)
      requires arrived <= |arrivals|
      modifies incoming
      ensures arrived <= upTo <= |arrivals|
      ensures incoming.queue == old(incoming.queue) + arrivals[arrived..upTo]
      ensures incoming.queue != [] || incoming.stopping
    {
      upTo := arrived;
      var busy: bool := *;
      while upTo < |arrivals| && (busy || (incoming.queue == [] && !incoming.stopping))
        invariant arrived <= upTo <= |arrivals|
        invariant incoming.queue == old(incoming.queue) + arrivals[arrived..upTo]
      {
        incoming.Push(arrivals[upTo]);
        upTo := upTo + 1;
        busy := *;
      }
      var stop: bool := *;
      if stop || (incoming.queue == [] && !incoming.stopping) {
        incoming.Stop();
      }
    }

    /**
     The matching thread. While it runs, other threads push the given arrivals and call stop() at any
     moments. Commands are served in stream order: first those queued at the start, then the arrivals.
     The loop ends with the queue drained and stopping, or when a duplicate active id kills it;
     journal, book and trade log are those of the commands served.
     */
    method RunMatchingLoop(arrivals: seq<Request>) returns (alive: bool, arrived: nat, served: nat)
      requires Valid()
      requires Waiting(incoming.queue + arrivals, AsCommands(incoming.queue + arrivals), 0, book.owned.Values)
      modifies this, book, book.owned.Values, journal, incoming, AllOrders(incoming.queue + arrivals)
      ensures Valid()
      ensures arrived <= |arrivals| && served <= |old(incoming.queue)| + arrived
      ensures incoming.queue == (old(incoming.queue) + arrivals[..arrived])[served..]
      ensures alive ==> incoming.queue == [] && incoming.stopping
      ensures Served(old(Snapshot()), old(AsCommands(incoming.queue + arrivals)), served, Snapshot(), alive)
    {
      hide Served, Handles, Throws, Waiting, OrderBook.Valid;
      ghost var rs, start, queued := incoming.queue + arrivals, Snapshot(), |incoming.queue|;
      ghost var cs := AsCommands(rs);
      served, arrived, alive := 0, 0, true;
      var more := true;
      NothingServed(start, cs);
      while more && alive
        invariant Valid()
        invariant arrived <= |arrivals| && served <= queued + arrived
        invariant incoming.queue == rs[served..queued + arrived]
        invariant !more ==> incoming.queue == [] && incoming.stopping
        invariant Waiting(rs, cs, served, book.owned.Values)
        invariant book.owned.Values <= old(book.owned.Values) + AllOrders(rs)
        invariant Served(start, cs, served, Snapshot(), alive)
        decreases |rs| - served, more
      {
        ghost var before := Snapshot();
        arrived, more, alive := AwaitAndServe(arrivals, arrived, rs, cs, served, queued);
        if more {
          ServedOneMore(start, cs, served, before, Snapshot(), alive);
          served := served + 1;
        }
      }
      QueueIsTheRest(old(incoming.queue), arrivals, served, arrived);
    }

    /** Other threads go on for a while; then the next request is served, if there is one. */
    method AwaitAndServe(arrivals: seq<Request>, arrived: nat, ghost rs: seq<Request>, ghost cs: seq<Command>,
                         ghost k: nat, ghost queued: nat)
      returns (upTo: nat, more: bool, alive: bool)
      requires Valid() && queued <= |rs| && rs[queued..] == arrivals
      requires arrived <= |arrivals| && k <= queued + arrived && incoming.queue == rs[k..queued + arrived]
      requires Waiting(rs, cs, k, book.owned.Values)
      modifies this, book, book.owned.Values, journal, incoming, AllOrders(rs)
      ensures Valid() && |cs| == |rs| && arrived <= upTo <= |arrivals| && k <= queued + upTo
      ensures more <==> k < queued + upTo
      ensures !more ==> alive && incoming.queue == [] && incoming.stopping && Snapshot() == old(Snapshot())
      ensures more ==> incoming.queue == rs[k + 1..queued + upTo] && Handles(old(Snapshot()), cs[k], Snapshot())
      ensures more ==> (alive <==> !Throws(old(book.flat), cs[k]))
      ensures Waiting(rs, cs, if more then k + 1 else k, book.owned.Values)
      ensures book.owned.Values <= old(book.owned.Values) + AllOrders(rs)
    {
      hide Handles, Throws, Waiting, OrderBook.Valid;
      upTo := OtherThreads(arrivals, arrived);
      ArrivalsExtend(rs, queued, arrivals, k, arrived, upTo);
      more, alive := ServeNext(rs, cs, k, queued + upTo);
    }

    /** Pops the next request and processes it; there is none only when the queue is stopped and empty. */
    method ServeNext(ghost rs: seq<Request>, ghost cs: seq<Command>, ghost k: nat, ghost end: nat)
      returns (more: bool, alive: bool)
      requires Valid() && k <= end <= |rs| && incoming.queue == rs[k..end]
      requires incoming.queue != [] || incoming.stopping
      requires Waiting(rs, cs, k, book.owned.Values)
      modifies this, book, book.owned.Values, journal, incoming`queue, AllOrders(rs)
      ensures Valid() && |cs| == |rs|
      ensures more <==> k < end
      ensures !more ==> alive && incoming.queue == old(incoming.queue) && Snapshot() == old(Snapshot())
      ensures more ==> incoming.queue == rs[k + 1..end] && Handles(old(Snapshot()), cs[k], Snapshot())
      ensures more ==> (alive <==> !Throws(old(book.flat), cs[k]))
      ensures Waiting(rs, cs, if more then k + 1 else k, book.owned.Values)
      ensures book.owned.Values <= old(book.owned.Values) + AllOrders(rs)
    {
      hide Apply, Throws, OrderBook.Valid;
      var next := incoming.Pop();
      if next.None? {
        return false, true;
      }
      assert next.value == rs[k];
      var now: int := *;
      assert OrdersOf(rs[k]) <= AllOrders(rs);
      more := true;
      alive := Process(next.value, now);
    }

    method Publish(trades: seq<Trade>)
      modifies this`tradeLog
      ensures tradeLog == old(tradeLog) + trades
    {
      for k := 0 to |trades|
        invariant tradeLog == old(tradeLog) + trades[..k]
      {
        tradeLog := tradeLog + [trades[k]];
      }
    }

    /**
     Rebuilds the book from the journal, one event at a time, and continues numbering after the
     highest recovered sequence number. It fails exactly when the replay of the log does.
     */
    method Recover() returns (ok: bool)
      requires Valid()
      modifies this, book, book.owned.Values
      ensures Valid()
      ensures ok <==> Replay(old(book.flat), journal.events).Some?
      ensures ok ==>
                var r := Replay(old(book.flat), journal.events).value;
                book.flat == r.book && tradeLog == old(tradeLog) + r.trades && nextSeq == r.maxSeq + 1
      ensures !ok ==> nextSeq == old(nextSeq)
    {
      hide Apply, Throws, Rebuild, OrderBook.Valid;
      ghost var start, orders := book.flat, book.owned.Values;
      var events := journal.LoadAll();
      var maxSeq := 0;
      for k := 0 to |events|
        invariant Valid() && nextSeq == old(nextSeq)
        invariant forall o :: o in book.owned.Values ==> o in orders || fresh(o)
        invariant Replay(start, events[..k]).Some?
        invariant var r := Replay(start, events[..k]).value;
                  book.flat == r.book && tradeLog == old(tradeLog) + r.trades && maxSeq == r.maxSeq
      {
        assert events[..k + 1][..k] == events[..k];
        var trades := ApplyEvent(events[k]);
        if trades.None? {
          ReplayFailsForGood(start, events, k + 1);
          return false;
        }
        Publish(trades.value);
        maxSeq := if maxSeq < events[k].seqNo then events[k].seqNo else maxSeq;
      }
      assert events[..|events|] == events;
      nextSeq := maxSeq + 1;
      return true;
    }

    /** Replays one event; nothing when the factory or the book throws. */
    method ApplyEvent(ev: JournalEvent) returns (trades: Option<seq<Trade>>)
      requires Valid()
      modifies book, book.owned.Values
      ensures Valid()
      ensures forall o :: o in book.owned.Values ==> o in old(book.owned.Values) || fresh(o)
      ensures trades.None? <==> Rebuild(ev).None? || Throws(old(book.flat), Rebuild(ev).value)
      ensures trades.Some? ==>
                var out := Apply(old(book.flat), Rebuild(ev).value);
                book.flat == out.book && trades.value == out.trades
    {
      hide Match, Active, OrderBook.Valid;
      match ev.command
      case SUBMIT =>
        var order := CreateOrder(ev.kind, ev.orderId, ev.traderId, ev.side, ev.quantity, ev.price);
        if order == null {
          return None;
        }
        var added := book.AddOrder(order);
        if added.DuplicateId? {
          return None;
        }
        return Some(added.trades);
      case CANCEL =>
        var found := book.CancelOrder(ev.orderId);
        return Some([]);
    }
  }

  /**
   The life of two engines on one journal: the first serves a stream and goes away, the second starts
   empty and recovers. Both end in the state of the run of the commands served.
   */
  method ServeThenRecover(first: Engine, second: Engine, arrivals: seq<Request>)
    returns (alive: bool, served: nat, ok: bool)
    requires first.Valid() && first.Snapshot() == NOTHING_YET
    requires Waiting(first.incoming.queue + arrivals, AsCommands(first.incoming.queue + arrivals), 0,
                     first.book.owned.Values)
    requires var cs := AsCommands(first.incoming.queue + arrivals); ExactStream(cs, |cs|)
    requires second.Valid() && second.journal == first.journal && second.Snapshot() == NOTHING_YET
    requires second != first && second.book != first.book && second.book.owned == map[]
    modifies first, first.book, first.book.owned.Values, first.journal
    modifies first.incoming, AllOrders(first.incoming.queue + arrivals), second, second.book
    ensures served <= |old(first.incoming.queue) + arrivals|
    ensures alive ==>
              var session := Run(old(AsCommands(first.incoming.queue + arrivals))[..served]);
              && ok && second.Snapshot() == first.Snapshot()
              && Recover(first.journal.events) == Some(Recovered(session.book, session.trades, served))
              && first.book.flat == session.book && first.tradeLog == session.trades
  {
    hide Progress, Clean, Waiting, Replay, RunFrom, OrderBook.Valid;
    ghost var cs := AsCommands(first.incoming.queue + arrivals);
    var arrived;
    alive, arrived, served := first.RunMatchingLoop(arrivals);
    assert second.book.owned.Values == {};
    if alive {
      ExactPrefix(cs, served);
      JournalRecoversTheEngine(cs, served, first.Snapshot());
    }
    ok := second.Recover();
  }

  lemma ExactPrefix(cs: seq<Command>, n: nat)
    requires n <= |cs| && ExactStream(cs, |cs|)
    ensures ExactStream(cs, n)
  {
    hide Run, Exact;
  }
}
