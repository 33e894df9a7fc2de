/**
 The whole service: producers and a control thread around the command queue, the matching thread, the
 journal and its writer, and the database, over any number of processes. stop() raises the stop flag,
 waits for the matching thread to drain the queue and then flushes the journal.
 */
module Service {
  import opened Trading
  import opened PriceTime
  import opened Journal
  import opened EventTable
  import C = CommandStream
  import D = DurableRecovery
  import G = GroupCommit
  import L = StoredLog
  import R = Recovery

  /** `flushing` says that the control thread is inside the flush of stop(). */
  datatype Service = Service(stream: C.Stream, plant: D.Plant, flushing: bool)

  /** The flush of stop() is the waiter of the control thread. */
  const CONTROL: nat := 0

  // ---------- Steps ----------

  function NoStream(): C.Stream {
    C.Stream([], false, false, false, C.Free, [], [])
  }

  ghost predicate Init(v: Service) {
    v.stream == NoStream() && D.Init(v.plant) && !v.flushing
  }

  /** Any thread pushes; the control thread starts the engine or begins to stop it. */
  ghost predicate Outside(v: Service, v': Service) {
    && v'.plant == v.plant && v'.flushing == v.flushing
    && (|| (exists item :: C.Push(v.stream, v'.stream, item))
        || (C.Start(v.stream, v'.stream) && v.plant.process.Up?)
        || C.StopBegin(v.stream, v'.stream))
  }

  /** The matching thread pops a command and stamps it. */
  predicate Take(v: Service, v': Service, now: int) {
    && v'.flushing == v.flushing && v'.plant.store == v.plant.store && v'.plant.process.Up?
    && C.Serve(v.stream, v'.stream)
    && R.Stamp(D.Engine(v.plant), D.Engine(v'.plant), v.stream.queue[0].command, now)
  }

  /** It journals, applies and publishes the command. A duplicate active id leaves only the crash. */
  predicate Work(v: Service, v': Service) {
    && v'.flushing == v.flushing && v'.stream == v.stream
    && (|| D.Append(v.plant, v'.plant)
        || D.Publish(v.plant, v'.plant)
        || (&& v'.plant.store == v.plant.store && v'.plant.process.Up?
            && (|| R.ApplyStep(D.Engine(v.plant), D.Engine(v'.plant))
                || R.Finish(D.Engine(v.plant), D.Engine(v'.plant)))))
  }

  /** Between commands, with the queue stopped and empty, it ends. */
  predicate ThreadEnd(v: Service, v': Service) {
    && v'.flushing == v.flushing && v'.plant == v.plant
    && v.plant.process.Up? && v.plant.process.phase.Idle?
    && C.ThreadEnd(v.stream, v'.stream)
  }

  /** The writer, and flush callers other than the control thread. */
  ghost predicate Background(v: Service, v': Service) {
    && v'.flushing == v.flushing && v'.stream == v.stream
    && D.Background(v.plant, v'.plant)
    && (CONTROL in v.plant.store.waiters <==> CONTROL in v'.plant.store.waiters)
  }

  /** The matching thread has ended: stop() calls flush(). */
  predicate StopFlush(v: Service, v': Service) {
    && v.stream.control.Joining? && !v.stream.threadAlive && !v.flushing && v'.flushing
    && v'.stream == v.stream && v.plant.process.Up? && v'.plant.process == v.plant.process
    && G.FlushBegin(v.plant.store, v'.plant.store, CONTROL)
  }

  predicate StopReturn(v: Service, v': Service) {
    && v.flushing && !v'.flushing
    && C.StopReturn(v.stream, v'.stream)
    && v.plant.process.Up? && v'.plant.process == v.plant.process
    && G.FlushReturn(v.plant.store, v'.plant.store, CONTROL)
  }

  /** The process dies; queued commands are gone with it. */
  ghost predicate Crash(v: Service, v': Service) {
    && v'.stream == NoStream() && !v'.flushing
    && exists loaded :: D.Crash(v.plant, v'.plant, loaded)
  }

  ghost predicate Restart(v: Service, v': Service) {
    && v'.stream == v.stream && v'.flushing == v.flushing
    && exists loaded :: D.Restart(v.plant, v'.plant, loaded)
  }

  ghost predicate Next(v: Service, v': Service) {
    || Outside(v, v')
    || (exists now :: Take(v, v', now))
    || Work(v, v')
    || ThreadEnd(v, v')
    || Background(v, v')
    || StopFlush(v, v')
    || StopReturn(v, v')
    || Crash(v, v')
    || Restart(v, v')
  }

  ghost predicate Behavior(run: seq<Service>) {
    && run != [] && Init(run[0])
    && forall i :: 0 <= i < |run| - 1 ==> Next(run[i], run[i + 1])
  }

  // ---------- The service as a plant ----------

  lemma StepRefines(v: Service, v': Service)
    requires Next(v, v')
    ensures D.Next(v.plant, v'.plant)
  {
    hide D.Append, D.Publish, R.Stamp, R.ApplyStep, R.Finish, D.Engine, D.Crash, D.Restart;
  }

  ghost function Plants(run: seq<Service>): (plants: seq<D.Plant>)
    ensures |plants| == |run| && forall i :: 0 <= i < |run| ==> plants[i] == run[i].plant
  {
    seq(|run|, i requires 0 <= i < |run| => run[i].plant)
  }

  /** The engine and database inside the service behave as the machine that recovery is proved about. */
  lemma ServiceRefinesPlant(run: seq<Service>)
    requires Behavior(run)
    ensures D.Behavior(Plants(run))
  {
    hide Next, D.Next, D.Init;
    var plants := Plants(run);
    forall i | 0 <= i < |plants| - 1 ensures D.Next(plants[i], plants[i + 1]) {
      StepRefines(run[i], run[i + 1]);
    }
  }

  // ---------- What was taken is what was journaled ----------

  /** The event records the command, under some number and time. */
  predicate Records(item: C.Item, ev: JournalEvent) {
    ev == MakeEvent(item.command, ev.seqNo, ev.epochNanos)
  }

  predicate AllRecorded(items: seq<C.Item>, events: seq<JournalEvent>) {
    |items| == |events| && forall k :: 0 <= k < |items| ==> Records(items[k], events[k])
  }

  function StampedEvent(p: R.Process): seq<JournalEvent> {
    if p.Up? && p.phase.Stamped? then [p.phase.ev] else []
  }

  /** Every command taken by this process is journaled, but for the one that is stamped. */
  predicate Journaled(v: Service) {
    AllRecorded(v.stream.processed, G.EventsOf(v.plant.store.appended) + StampedEvent(v.plant.process))
  }

  predicate Threads(v: Service) {
    && C.Inv(v.stream)
    && (v.flushing ==> v.stream.control.Joining? && !v.stream.threadAlive)
    && (CONTROL in v.plant.store.waiters <==> v.flushing)
    && (v.plant.process.Down? ==> !v.stream.threadAlive && !v.flushing && v.stream.control.Free?)
    && (v.plant.process.Up? && !v.stream.threadAlive ==> v.plant.process.phase.Idle?)
  }

  lemma StreamMoves(v: Service, v': Service)
    requires Next(v, v') && !Crash(v, v')
    ensures v'.stream == v.stream || C.Next(v.stream, v'.stream)
  {
    hide D.Append, D.Publish, R.Stamp, R.ApplyStep, R.Finish, D.Engine, D.Crash, D.Restart, G.Next;
  }

  lemma StepKeepsThreads(v: Service, v': Service)
    requires Threads(v) && D.Inv(v.plant) && Next(v, v')
    ensures Threads(v')
  {
    hide D.Inv, G.Log, R.Recover, Apply, Throws, G.Next, G.EventsOf, Loads;
    if !Crash(v, v') {
      StreamMoves(v, v');
      if C.Next(v.stream, v'.stream) {
        C.NextKeepsInv(v.stream, v'.stream);
      }
    }
  }

  lemma StampRecords(c: Command, seqNo: nat, now: int)
    ensures var ev := MakeEvent(c, seqNo, now); ev.seqNo == seqNo && ev.epochNanos == now
  {
  }

  lemma TakeKeepsJournaled(v: Service, v': Service, now: int)
    requires Journaled(v) && Take(v, v', now)
    ensures Journaled(v')
  {
    hide G.EventsOf, MakeEvent;
    var p, c := v.plant.process, v.stream.queue[0].command;
    StampRecords(c, p.nextSeq, now);
    var events, ev := G.EventsOf(v.plant.store.appended), MakeEvent(c, p.nextSeq, now);
    assert StampedEvent(p) == [] && StampedEvent(v'.plant.process) == [ev];
    assert events + [] == events;
    assert Records(v.stream.queue[0], ev);
  }

  lemma WorkKeepsJournaled(v: Service, v': Service)
    requires Journaled(v) && Work(v, v')
    ensures Journaled(v')
  {
    hide G.EventsOf, MakeEvent, Records, Apply, Throws, G.Log;
    var s, p := v.plant.store, v.plant.process;
    if D.Append(v.plant, v'.plant) {
      G.SplitsPush(s.appended, G.Event(p.phase.ev));
      assert G.EventsOf(s.appended) + [p.phase.ev] + [] == G.EventsOf(s.appended) + [p.phase.ev];
    } else if D.Publish(v.plant, v'.plant) {
      G.SplitsPush(s.appended, G.TradeRow(p.phase.pending[0]));
    }
  }

  lemma StepKeepsJournaled(v: Service, v': Service)
    requires D.Inv(v.plant) && Threads(v) && Journaled(v) && Next(v, v')
    ensures Journaled(v')
  {
    hide D.Inv, Take, Work, G.Next, MakeEvent, Records, R.Recover, Loads;
    if now :| Take(v, v', now) {
      TakeKeepsJournaled(v, v', now);
    } else if Work(v, v') {
      WorkKeepsJournaled(v, v');
    }
  }

  ghost predicate Inv(v: Service) {
    D.Inv(v.plant) && Threads(v) && Journaled(v)
  }

  lemma InitHasInv(v: Service)
    requires Init(v)
    ensures Inv(v)
  {
    D.InitHasInv(v.plant);
  }

  lemma {:induction false} BehaviorKeepsInv(run: seq<Service>, i: nat)
    requires Behavior(run) && i < |run|
    ensures Inv(run[i])
  {
    hide Next, Init, D.Inv, Threads, Journaled, D.Next;
    if i > 0 {
      var v, v' := run[i - 1], run[i];
      BehaviorKeepsInv(run, i - 1);
      StepKeepsThreads(v, v');
      StepKeepsJournaled(v, v');
      StepRefines(v, v');
      D.StepRefines(v.plant, v'.plant);
    } else {
      InitHasInv(run[0]);
    }
  }

  // ---------- What stop() is worth ----------

  /** Inside stop(): what was pushed before the call has been taken, or the thread is still at it. */
  predicate Draining(v: Service, before: seq<C.Item>, base: seq<JournalEvent>) {
    && before <= v.stream.pushed && (v.stream.threadAlive || before <= v.stream.processed)
    && v.plant.store.base == base
  }

  lemma JoiningStep(v: Service, v': Service, before: seq<C.Item>, base: seq<JournalEvent>)
    requires Inv(v) && Next(v, v') && v.stream.control.Joining? && v'.stream.control.Joining?
    requires Draining(v, before, base)
    ensures Draining(v', before, base) && (v'.flushing && !v.flushing ==> StopFlush(v, v'))
  {
    hide D.Inv, G.Next, Journaled, R.Recover, Apply, Throws, G.EventsOf, Loads;
    StreamMoves(v, v');
    if C.Next(v.stream, v'.stream) {
      C.JoiningStep(v.stream, v'.stream, before);
    }
    if Background(v, v') {
      G.HistoryGrows(v.plant.store, v'.plant.store);
    }
  }

  /** Between the call of stop() and a later moment inside it. */
  ghost predicate Stopping(run: seq<Service>, a: nat, b: nat) {
    && Behavior(run) && a < b < |run|
    && run[a].stream.running && C.StopBegin(run[a].stream, run[a + 1].stream)
    && forall k :: a < k <= b ==> run[k].stream.control.Joining?
  }

  lemma StopBegins(v: Service, v': Service)
    requires Inv(v) && Next(v, v') && v.stream.running && C.StopBegin(v.stream, v'.stream)
    ensures Draining(v', v.stream.pushed, v.plant.store.base) && !v'.flushing
  {
    hide D.Inv, G.Next, Journaled, R.Recover, Apply, Throws, G.EventsOf, Loads;
    if Background(v, v') {
      G.HistoryGrows(v.plant.store, v'.plant.store);
    }
  }

  lemma {:induction false} DrainsWhileStopping(run: seq<Service>, a: nat, b: nat)
    requires Stopping(run, a, b)
    ensures Draining(run[b], run[a].stream.pushed, run[a].plant.store.base)
    ensures b == a + 1 ==> !run[b].flushing
    decreases b
  {
    hide Next, Inv, Draining;
    BehaviorKeepsInv(run, b - 1);
    if b == a + 1 {
      StopBegins(run[a], run[b]);
    } else {
      DrainsWhileStopping(run, a, b - 1);
      JoiningStep(run[b - 1], run[b], run[a].stream.pushed, run[a].plant.store.base);
    }
  }

  /** The step in which the flush of stop() begins. */
  lemma {:induction false} FlushBegins(run: seq<Service>, a: nat, b: nat) returns (f: nat)
    requires Stopping(run, a, b) && run[b].flushing
    ensures a < f < b && StopFlush(run[f], run[f + 1]) && forall k :: f < k <= b ==> run[k].flushing
    decreases b
  {
    hide Next, Inv, Draining, StopFlush;
    DrainsWhileStopping(run, a, b);
    if run[b - 1].flushing {
      f := FlushBegins(run, a, b - 1);
    } else {
      f := b - 1;
      BehaviorKeepsInv(run, f);
      DrainsWhileStopping(run, a, f);
      JoiningStep(run[f], run[b], run[a].stream.pushed, run[a].plant.store.base);
    }
  }

  /** When the flush of stop() begins, everything pushed before the call is journaled. */
  lemma JournaledWhenFlushing(v: Service, v': Service, before: seq<C.Item>, base: seq<JournalEvent>)
    requires Inv(v) && StopFlush(v, v') && Draining(v, before, base)
    ensures var log, n := G.Log(v.plant.store), |base|;
            base <= log && n + |before| <= |log| && AllRecorded(before, log[n..n + |before|])
  {
    hide D.Inv, Records, G.EventsOf;
    var events, n := G.EventsOf(v.plant.store.appended), |base|;
    assert events + [] == events;
    assert forall k :: 0 <= k < |events| ==> (base + events)[n + k] == events[k];
  }

  lemma FrontOf(before: seq<C.Item>, base: seq<JournalEvent>, log: seq<JournalEvent>, loaded: seq<JournalEvent>)
    requires base <= log <= loaded && |base| + |before| <= |log|
    requires AllRecorded(before, log[|base|..|base| + |before|])
    ensures base <= loaded && AllRecorded(before, loaded[|base|..|base| + |before|])
  {
    hide Records;
    assert loaded[|base|..|base| + |before|] == log[|base|..|base| + |before|];
  }

  /**
   stop(), from call to return outside teardown, with no batch of this process dropped: every command
   pushed before the call is permanent. Through any number of later crashes and restarts, and whatever
   batches fail then, every reload returns first what the process had found at its start and then the
   events of these commands, all of them and in the order of the pushes.
   */
  lemma StopIsDurable(run: seq<Service>, a: nat, b: nat, after: Service, j: nat, loaded: seq<JournalEvent>)
    requires Stopping(run, a, b) && b <= j < |run| && StopReturn(run[b], after)
    requires !run[b].plant.store.stopping && L.NoFailures(run[b].plant.store)
    requires Loads(run[j].plant.store.table, loaded)
    ensures var before, base := run[a].stream.pushed, run[a].plant.store.base;
            && base <= loaded && |base| + |before| <= |loaded|
            && AllRecorded(before, loaded[|base|..|base| + |before|])
  {
    hide Next, D.Next, D.Inv, Draining, AllRecorded, Loads, G.Log, Journaled;
    var f := FlushBegins(run, a, b);
    DrainsWhileStopping(run, a, f);
    BehaviorKeepsInv(run, f);
    var before, base := run[a].stream.pushed, run[a].plant.store.base;
    JournaledWhenFlushing(run[f], run[f + 1], before, base);
    forall k | f < k <= b ensures CONTROL in run[k].plant.store.waiters {
      BehaviorKeepsInv(run, k);
    }
    ServiceRefinesPlant(run);
    D.FlushedEventsSurvive(Plants(run), f, b, after.plant.store, CONTROL, j, loaded);
    FrontOf(before, base, G.Log(run[f].plant.store), loaded);
  }
}
