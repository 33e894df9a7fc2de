/**
 The engine on its database. The matching thread journals into the group-commit store, whose writer
 commits or drops batches on its own schedule; the process may die at any moment, taking with it
 whatever is queued or in flight, and the next one opens the tables as it finds them, loads the
 events and replays them. A plant is the store of the current process and its engine.
 */
module DurableRecovery {
  import opened Trading
  import opened PriceTime
  import opened Journal
  import opened EventTable
  import G = GroupCommit
  import F = Flushing
  import L = StoredLog
  import R = Recovery

  datatype Plant = Plant(store: G.Store, process: R.Process)

  // ---------- Steps ----------

  /** The engine with everything ever journaled, no part of which it knows to be durable. */
  function Engine(m: Plant): R.System {
    R.System(G.Log(m.store), 0, m.process)
  }

  /** A journal opened on existing tables. */
  function Opened(table: Table, trades: seq<Trade>, events: seq<JournalEvent>): G.Store {
    G.Store([], [], 0, 0, false, G.Waiting, map[], table, trades, events, trades, [], [])
  }

  predicate Init(m: Plant) {
    m == Plant(Opened(map[], [], []), R.Down)
  }

  /** Steps of the matching thread that do not reach the store. A submission that throws leaves only the crash. */
  ghost predicate Compute(m: Plant, m': Plant) {
    && m'.store == m.store && m'.process.Up?
    && (|| (exists c, now :: R.Stamp(Engine(m), Engine(m'), c, now))
        || R.ApplyStep(Engine(m), Engine(m'))
        || R.Finish(Engine(m), Engine(m')))
  }

  predicate Append(m: Plant, m': Plant) {
    && R.Append(Engine(m), Engine(m'))
    && m.process.phase.ev.seqNo < TWO_63
    && G.Append(m.store, m'.store, m.process.phase.ev)
  }

  predicate Publish(m: Plant, m': Plant) {
    && R.PublishOne(Engine(m), Engine(m'))
    && G.RecordTrade(m.store, m'.store, m.process.phase.pending[0])
  }

  /** The writer, flush callers and the destructor. */
  ghost predicate Background(m: Plant, m': Plant) {
    && m.process.Up? && m'.process == m.process
    && G.Next(m.store, m'.store) && m'.store.appended == m.store.appended
  }

  /** The process dies, or ends; the next one opens the tables as they are. */
  ghost predicate Crash(m: Plant, m': Plant, loaded: seq<JournalEvent>) {
    && Loads(m.store.table, loaded)
    && m' == Plant(Opened(m.store.table, m.store.tradeTable, loaded), R.Down)
  }

  ghost predicate Restart(m: Plant, m': Plant, loaded: seq<JournalEvent>) {
    && Loads(m.store.table, loaded) && m'.store == m.store
    && R.Restart(R.System(loaded, 0, m.process), R.System(loaded, 0, m'.process))
  }

  /** The last case is a step elsewhere in the process, such as a push to the command queue. */
  ghost predicate Next(m: Plant, m': Plant) {
    || Compute(m, m')
    || Append(m, m')
    || Publish(m, m')
    || Background(m, m')
    || (exists loaded :: Crash(m, m', loaded))
    || (exists loaded :: Restart(m, m', loaded))
    || m' == m
  }

  ghost predicate Behavior(run: seq<Plant>) {
    && run != [] && Init(run[0])
    && forall i :: 0 <= i < |run| - 1 ==> Next(run[i], run[i + 1])
  }

  // ---------- The plant as a recovery machine ----------

  /** The log, and how much of it is certain to survive. */
  function View(m: Plant): R.System
    requires |m.store.fates| <= |m.store.appended|
  {
    R.System(G.Log(m.store), L.Front(m.store), m.process)
  }

  predicate Below(log: seq<JournalEvent>) {
    forall i :: 0 <= i < |log| ==> log[i].seqNo < TWO_63
  }

  ghost predicate Inv(m: Plant) {
    && G.Inv(m.store) && R.Inv(View(m)) && Below(G.Log(m.store))
    && (m.process.Down? ==> m.store.appended == [])
  }

  /** The durable events are in the order of their keys. */
  lemma DurableIncreases(m: Plant)
    requires Inv(m)
    ensures var held := G.DurableEvents(m.store);
            && held == Keep(G.Log(m.store), L.Mask(m.store))
            && Rising(held) && Rebuildable(held) && Below(held) && AllStorable(held) && Increasing(KeysOf(held))
  {
    hide G.EventsOf, G.Committed, L.Mask, Keep, TableOf;
    var log, mask, held := G.Log(m.store), L.Mask(m.store), G.DurableEvents(m.store);
    L.DurableIsSelected(m.store);
    KeepRises(log, mask);
    KeepRebuildable(log, mask);
    KeepMembers(log, mask);
    forall i | 0 <= i < |held| ensures held[i].seqNo < TWO_63 {
      assert held[i] in log;
    }
    RisingIncreases(held);
  }

  /** What loading the table returns, whatever batches have failed. */
  lemma Reload(m: Plant, loaded: seq<JournalEvent>)
    requires Inv(m) && Loads(m.store.table, loaded)
    ensures loaded == G.DurableEvents(m.store) == Keep(G.Log(m.store), L.Mask(m.store))
    ensures Rising(loaded) && Rebuildable(loaded) && Below(loaded)
  {
    hide G.EventsOf, G.Committed, L.Mask, Keep, TableOf, Loads;
    DurableIncreases(m);
    LogRoundTrip(G.DurableEvents(m.store), loaded);
  }

  /** The table can always be loaded. */
  lemma TableLoads(m: Plant)
    requires Inv(m)
    ensures Loads(m.store.table, G.DurableEvents(m.store))
  {
    hide G.EventsOf, G.Committed, TableOf, Loads;
    DurableIncreases(m);
    LoadsItself(G.DurableEvents(m.store));
  }

  lemma ComputeRefines(m: Plant, m': Plant)
    requires Inv(m) && Compute(m, m')
    ensures Inv(m') && R.Step(View(m), View(m'))
  {
    hide G.Log, L.Front, G.Inv, Apply, Throws;
    StoreFits(m);
    if c, now :| R.Stamp(Engine(m), Engine(m'), c, now) {
      assert R.Stamp(View(m), View(m'), c, now);
    } else if R.ApplyStep(Engine(m), Engine(m')) {
      assert R.ApplyStep(View(m), View(m'));
    } else {
      assert R.Finish(View(m), View(m'));
    }
    R.StepKeepsInv(View(m), View(m'));
  }

  lemma StoreFits(m: Plant)
    requires G.Inv(m.store)
    ensures |m.store.fates| <= |m.store.appended|
  {
  }

  lemma AppendRefines(m: Plant, m': Plant)
    requires Inv(m) && Append(m, m')
    ensures Inv(m') && R.Step(View(m), View(m'))
  {
    hide G.EventsOf, L.Front, G.Inv, R.Inv;
    var ev := m.process.phase.ev;
    assert G.Next(m.store, m'.store);
    G.NextKeepsInv(m.store, m'.store);
    StoreFits(m);
    StoreFits(m');
    L.FrontGrows(m.store, m'.store);
    assert R.Append(View(m), View(m'));
    R.StepKeepsInv(View(m), View(m'));
    assert G.Log(m'.store) == G.Log(m.store) + [ev];
  }

  lemma PublishRefines(m: Plant, m': Plant)
    requires Inv(m) && Publish(m, m')
    ensures Inv(m') && R.Step(View(m), View(m'))
  {
    hide G.EventsOf, L.Front, G.Inv, R.Inv;
    assert G.Next(m.store, m'.store);
    G.NextKeepsInv(m.store, m'.store);
    StoreFits(m);
    StoreFits(m');
    L.FrontGrows(m.store, m'.store);
    assert R.PublishOne(View(m), View(m'));
    R.StepKeepsInv(View(m), View(m'));
  }

  lemma BackgroundRefines(m: Plant, m': Plant)
    requires Inv(m) && Background(m, m')
    ensures Inv(m') && R.Step(View(m), View(m'))
  {
    hide G.EventsOf, L.Front, G.Inv, R.Inv, G.Next;
    G.NextKeepsInv(m.store, m'.store);
    G.HistoryGrows(m.store, m'.store);
    StoreFits(m);
    StoreFits(m');
    L.FrontGrows(m.store, m'.store);
    L.FrontIsSelected(m'.store);
    assert R.Harden(View(m), View(m'), L.Front(m'.store));
    R.StepKeepsInv(View(m), View(m'));
  }

  /** A crash and the opening of the tables by the next process is a crash of the recovery machine. */
  lemma CrashRefines(m: Plant, m': Plant, loaded: seq<JournalEvent>)
    requires Inv(m) && Crash(m, m', loaded)
    ensures Inv(m') && View(m') == R.System(loaded, |loaded|, R.Down)
    ensures R.Crash(View(m), View(m'), L.Mask(m.store))
  {
    Reload(m, loaded);
    L.FrontIsSelected(m.store);
    OpenedView(m');
    assert R.Crash(View(m), View(m'), L.Mask(m.store));
    R.CrashKeepsInv(View(m), View(m'), L.Mask(m.store));
    assert G.Init(m'.store);
    G.InitHasInv(m'.store);
  }

  lemma OpenedView(m: Plant)
    requires m.store.appended == [] && m.store.fates == []
    ensures View(m) == R.System(m.store.base, |m.store.base|, m.process)
    ensures G.DurableEvents(m.store) == G.Log(m.store) == m.store.base
  {
  }

  lemma RestartRefines(m: Plant, m': Plant, loaded: seq<JournalEvent>)
    requires Inv(m) && Restart(m, m', loaded)
    ensures Inv(m') && R.Step(View(m), View(m'))
    ensures loaded == m.store.base && m.store.appended == []
  {
    hide G.EventsOf, G.Committed, L.Front, R.Recover;
    Reload(m, loaded);
    OpenedView(m);
    assert R.Restart(View(m), View(m'));
    R.StepKeepsInv(View(m), View(m'));
  }

  lemma StutterRefines(m: Plant)
    requires Inv(m)
    ensures R.Step(View(m), View(m))
  {
    assert R.Harden(View(m), View(m), L.Front(m.store));
  }

  lemma StepRefines(m: Plant, m': Plant)
    requires Inv(m) && Next(m, m')
    ensures Inv(m') && R.Next(View(m), View(m'))
  {
    hide Inv, View, Compute, Append, Publish, Background, Crash, Restart, R.Step, R.Crash;
    Fits(m);
    if Compute(m, m') {
      ComputeRefines(m, m');
    } else if Append(m, m') {
      AppendRefines(m, m');
    } else if Publish(m, m') {
      PublishRefines(m, m');
    } else if Background(m, m') {
      BackgroundRefines(m, m');
    } else if loaded :| Crash(m, m', loaded) {
      CrashRefines(m, m', loaded);
    } else if loaded :| Restart(m, m', loaded) {
      RestartRefines(m, m', loaded);
    } else {
      StutterRefines(m);
    }
    Fits(m');
  }

  lemma Fits(m: Plant)
    requires Inv(m)
    ensures |m.store.fates| <= |m.store.appended|
  {
  }

  lemma InitHasInv(m: Plant)
    requires Init(m)
    ensures Inv(m) && R.Init(View(m))
  {
    assert G.Init(m.store);
    G.InitHasInv(m.store);
  }

  /** The invariant holds in every state of every behavior. */
  lemma {:induction false} BehaviorKeepsInv(run: seq<Plant>, i: nat)
    requires Behavior(run) && i < |run|
    ensures Inv(run[i])
  {
    hide Inv, Next, Init;
    if i > 0 {
      BehaviorKeepsInv(run, i - 1);
      StepRefines(run[i - 1], run[i]);
    } else {
      InitHasInv(run[0]);
    }
  }

  ghost predicate Fitting(run: seq<Plant>) {
    forall i :: 0 <= i < |run| ==> |run[i].store.fates| <= |run[i].store.appended|
  }

  ghost function Views(run: seq<Plant>): (views: seq<R.System>)
    requires Fitting(run)
    ensures |views| == |run| && forall i :: 0 <= i < |run| ==> views[i] == View(run[i])
  {
    seq(|run|, i requires 0 <= i < |run| => View(run[i]))
  }

  lemma BehaviorFits(run: seq<Plant>)
    requires Behavior(run)
    ensures Fitting(run)
  {
    hide Next, Init, Inv;
    forall i | 0 <= i < |run| ensures |run[i].store.fates| <= |run[i].store.appended| {
      BehaviorKeepsInv(run, i);
      Fits(run[i]);
    }
  }

  /**
   The engine on its database implements the recovery machine, step for step, over any number of
   processes and whatever batches fail. Everything proved of that machine holds of it.
   */
  lemma PlantRefinesRecovery(run: seq<Plant>)
    requires Behavior(run)
    ensures Fitting(run) && R.Behavior(Views(run))
  {
    hide Next, Inv, Init, View, R.Next, R.Init;
    BehaviorFits(run);
    InitHasInv(run[0]);
    var views := Views(run);
    forall i | 0 <= i < |views| - 1 ensures R.Next(views[i], views[i + 1]) {
      BehaviorKeepsInv(run, i);
      StepRefines(run[i], run[i + 1]);
    }
  }

  /** Once the stored log cannot be recovered and the engine is dead, no engine ever comes up again. */
  lemma SpoiledForGood(run: seq<Plant>, i: nat, j: nat)
    requires Behavior(run) && i <= j < |run| && Fitting(run) && R.Spoiled(View(run[i]))
    ensures View(run[j]) == View(run[i]) && run[j].process.Down?
  {
    hide Next, R.Next, R.Recover;
    PlantRefinesRecovery(run);
    R.SpoiledForGood(Views(run), i, j);
  }

  // ---------- Commits can succeed ----------

  /** The log up to the last settled record, committed or not. */
  function SettledLog(s: G.Store): seq<JournalEvent>
    requires |s.fates| <= |s.appended|
  {
    s.base + G.EventsOf(s.appended[..|s.fates|])
  }

  lemma DurableIsSettled(m: Plant, e: JournalEvent)
    requires Inv(m) && e in G.DurableEvents(m.store)
    ensures e in SettledLog(m.store)
  {
    hide G.EventsOf, G.Committed, TableOf, R.Inv;
    var s := m.store;
    if e !in s.base {
      F.EventOrigin(G.Committed(s.appended, s.fates), e);
      F.CommittedOrigin(s.appended, s.fates, G.Event(e));
      var i :| 0 <= i < |s.fates| && s.fates[i] && s.appended[i] == G.Event(e);
      assert s.appended[..|s.fates|][i] == G.Event(e);
      G.EventMember(s.appended[..|s.fates|], e);
    }
  }

  /** The batch in flight follows what is settled. */
  lemma BatchFollows(m: Plant)
    requires Inv(m) && m.store.writer.Holding?
    ensures SettledLog(m.store) + m.store.writer.batch.events <= G.Log(m.store)
  {
    hide G.EventsOf, G.Committed, TableOf, R.Inv, G.Persisted;
    var s := m.store;
    var rs, a, b := s.appended, s.done, s.done + G.InFlight(s);
    G.EventsConcat(rs[..a], rs[a..]);
    G.EventsConcat(rs[a..b], rs[b..]);
    assert rs == rs[..a] + rs[a..] && rs[a..] == rs[a..b] + rs[b..];
  }

  /** Along a log with rising numbers, what comes later has other keys. */
  lemma LaterIsNew(log: seq<JournalEvent>, settled: seq<JournalEvent>, events: seq<JournalEvent>)
    requires settled + events <= log && Rising(log) && Below(log)
    ensures AllStorable(events) && DistinctKeys(events)
    ensures forall k, i :: 0 <= k < |settled| && 0 <= i < |events| ==> settled[k].seqNo < events[i].seqNo < TWO_63
  {
    var n := |settled|;
    assert forall k :: 0 <= k < n ==> settled[k] == log[k];
    assert forall i :: 0 <= i < |events| ==> events[i] == log[n + i];
  }

  /** The numbers of a batch in flight are new to the table, so its commit has no reason to fail. */
  lemma BatchIsInsertable(m: Plant)
    requires Inv(m) && m.store.writer.Holding?
    ensures G.Insertable(m.store.table, m.store.writer.batch.events)
  {
    hide G.Log, TableOf, G.DurableEvents, SettledLog, Rising;
    var s := m.store;
    var events, held := s.writer.batch.events, G.DurableEvents(s);
    BatchFollows(m);
    LaterIsNew(G.Log(s), SettledLog(s), events);
    TableIsTyped(held);
    forall i | 0 <= i < |events| ensures Key(events[i]) !in s.table {
      forall j | 0 <= j < |held| ensures Key(held[j]) != Key(events[i]) {
        DurableIsSettled(m, held[j]);
        var k :| 0 <= k < |SettledLog(s)| && SettledLog(s)[k] == held[j];
      }
    }
  }

  // ---------- Reloading ----------

  /**
   Loading the events table at any moment of any behavior, whatever batches failed in this process
   or earlier ones, returns exactly the log less the dropped and unsettled events. That is a prefix
   of the log if and only if no lost event precedes a kept one. Replaying it succeeds if and only if
   no submission in it reuses an active id, and is then the run of the loaded commands. Dying at
   that moment is a crash of the recovery machine that leaves what is loaded.
   */
  lemma ReloadAtAnyMoment(run: seq<Plant>, i: nat, loaded: seq<JournalEvent>)
    requires Behavior(run) && i < |run| && Loads(run[i].store.table, loaded)
    ensures var s := run[i].store;
            && |s.fates| <= |s.appended|
            && loaded == G.DurableEvents(s)
            && (loaded <= G.Log(s) <==> L.NoGap(s.appended, s.fates))
            && R.Crash(View(run[i]), R.System(loaded, |loaded|, R.Down), L.Mask(s))
    ensures Rising(loaded) && Rebuildable(loaded)
    ensures var r := R.Recover(loaded);
            && (r.Some? <==> R.NoActiveDuplicate(Commands(loaded)))
            && (r.Some? ==>
                  && r.value.book == Run(Commands(loaded)).book && r.value.trades == Run(Commands(loaded)).trades
                  && r.value.maxSeq == LastSeq(loaded))
  {
    hide Next, G.EventsOf, G.Committed, L.Mask, Keep, TableOf, Loads, R.Recover, R.Replay, Run;
    BehaviorKeepsInv(run, i);
    var m := run[i];
    Reload(m, loaded);
    L.PrefixIffNoGap(m.store);
    CrashRefines(m, Plant(Opened(m.store.table, m.store.tradeTable, loaded), R.Down), loaded);
    R.RecoveryIsTheRun(loaded);
  }

  // ---------- Runs that lose only the end of the log ----------

  predicate Gapless(m: Plant) {
    |m.store.fates| <= |m.store.appended| && L.NoGap(m.store.appended, m.store.fates)
  }

  /** The mask that keeps exactly the first `kept` of n. */
  function Cut(n: nat, kept: nat): (mask: seq<bool>)
    requires kept <= n
    ensures |mask| == n && Truncates(mask) && forall i :: 0 <= i < n ==> (mask[i] <==> i < kept)
  {
    seq(n, i => i < kept)
  }

  lemma {:induction false} CutKeepsFront<T>(log: seq<T>, kept: nat)
    requires kept <= |log|
    ensures Keep(log, Cut(|log|, kept)) == log[..kept]
  {
    if log != [] {
      var last := |log| - 1;
      if kept == |log| {
        KeepFront(log, Cut(|log|, kept), kept);
        KeepMembers(log, Cut(|log|, kept));
      } else {
        CutKeepsFront(log[..last], kept);
        assert Cut(|log|, kept)[..last] == Cut(last, kept);
      }
    }
  }

  /** Without a gap, a crash cuts the log off where the table ends. */
  lemma CrashCuts(m: Plant, m': Plant, loaded: seq<JournalEvent>)
    requires Inv(m) && Gapless(m) && Crash(m, m', loaded)
    ensures loaded <= G.Log(m.store)
    ensures View(m') == R.System(loaded, |loaded|, R.Down)
    ensures R.Crash(View(m), View(m'), Cut(|G.Log(m.store)|, |loaded|))
  {
    hide G.EventsOf, G.Committed, L.Mask, L.Front, Keep, TableOf, Loads, R.Replay;
    var s, log := m.store, G.Log(m.store);
    Reload(m, loaded);
    CrashRefines(m, m', loaded);
    L.PrefixIffNoGap(s);
    CutKeepsFront(log, |loaded|);
    L.FrontIsSelected(s);
    KeepFront(log, L.Mask(s), L.Front(s));
  }

  ghost predicate GaplessBehavior(run: seq<Plant>) {
    Behavior(run) && forall i :: 0 <= i < |run| ==> Gapless(run[i])
  }

  lemma StepRefinesTail(m: Plant, m': Plant)
    requires Inv(m) && Gapless(m) && Next(m, m')
    ensures Inv(m') && R.TailNext(View(m), View(m'))
  {
    hide Inv, View, Gapless, Compute, Append, Publish, Background, Crash, Restart, R.Step, R.Crash, Truncates;
    StepRefines(m, m');
    Fits(m);
    Fits(m');
    if loaded :| Crash(m, m', loaded) {
      CrashCuts(m, m', loaded);
    } else if Compute(m, m') {
      ComputeRefines(m, m');
    } else if Append(m, m') {
      AppendRefines(m, m');
    } else if Publish(m, m') {
      PublishRefines(m, m');
    } else if Background(m, m') {
      BackgroundRefines(m, m');
    } else if loaded :| Restart(m, m', loaded) {
      RestartRefines(m, m', loaded);
    } else {
      StutterRefines(m);
    }
  }

  /** As long as no failed batch leaves a gap, crashes lose only the end of the log. */
  lemma GaplessRefinesTail(run: seq<Plant>)
    requires GaplessBehavior(run)
    ensures Fitting(run) && R.TailBehavior(Views(run))
  {
    hide Next, Inv, Init, View, R.TailNext, R.Init, Gapless;
    BehaviorFits(run);
    InitHasInv(run[0]);
    var views := Views(run);
    forall i | 0 <= i < |views| - 1 ensures R.TailNext(views[i], views[i + 1]) {
      BehaviorKeepsInv(run, i);
      StepRefinesTail(run[i], run[i + 1]);
    }
  }

  /**
   Over any number of processes none of which left a gap, loading the events table at any moment
   returns a prefix of everything ever journaled, numbered 1, 2, 3, ...; if no batch of this process
   failed, it contains everything settled. Dying at that moment cuts the log off at exactly this
   length. Only the complete log can fail to replay, and then its last event alone is to blame.
   */
  lemma ReloadIsAPrefixOfTheLog(run: seq<Plant>, i: nat, loaded: seq<JournalEvent>)
    requires GaplessBehavior(run) && i < |run| && Loads(run[i].store.table, loaded)
    ensures var s := run[i].store;
            && loaded <= G.Log(s) && Numbered(loaded)
            && s.done <= |s.fates| <= |s.appended|
            && (L.NoFailures(s) ==> s.base + G.EventsOf(s.appended[..s.done]) <= loaded)
            && R.Crash(View(run[i]), R.System(loaded, |loaded|, R.Down), Cut(|G.Log(s)|, |loaded|))
            && (R.Recover(loaded).None? ==>
                  loaded == G.Log(s) && loaded != [] && R.Recover(loaded[..|loaded| - 1]).Some?)
  {
    hide Next, G.EventsOf, G.Committed, L.Mask, Keep, TableOf, Loads, R.Recover, R.TailBehavior, R.Inv, R.Crash;
    BehaviorKeepsInv(run, i);
    var m, s, log := run[i], run[i].store, G.Log(run[i].store);
    Reload(m, loaded);
    CrashCuts(m, Plant(Opened(s.table, s.tradeTable, loaded), R.Down), loaded);
    GaplessRefinesTail(run);
    R.CutLogsRecover(Views(run), i, |loaded|);
    assert loaded == log[..|loaded|];
    if L.NoFailures(s) {
      L.DurableIsPrefix(s);
    }
  }

  // ---------- What a flush is worth ----------

  lemma StoreMoves(m: Plant, m': Plant)
    requires Next(m, m')
    ensures m'.store == m.store || G.Next(m.store, m'.store) || (m'.store.waiters == map[] && m'.store.writer.Waiting?)
  {
  }

  lemma {:induction false} PendingFlush(run: seq<Plant>, a: nat, b: nat, w: nat)
    requires Behavior(run) && a < b < |run| && G.FlushBegin(run[a].store, run[a + 1].store, w)
    requires forall k :: a < k <= b ==> w in run[k].store.waiters
    ensures run[b].store.waiters[w] == |run[a].store.appended|
    ensures run[a].store.appended <= run[b].store.appended
    ensures run[b].store.base == run[a].store.base && run[b].store.baseTrades == run[a].store.baseTrades
    decreases b
  {
    hide Next, Inv, G.Next;
    if b == a + 1 {
      BehaviorKeepsInv(run, a);
      StoreCounts(run[a]);
    } else {
      PendingFlush(run, a, b - 1, w);
      StoreMoves(run[b - 1], run[b]);
      if G.Next(run[b - 1].store, run[b].store) {
        G.HistoryGrows(run[b - 1].store, run[b].store);
        G.WaiterStays(run[b - 1].store, run[b].store, w);
      }
    }
  }

  lemma StoreCounts(m: Plant)
    requires Inv(m)
    ensures m.store.enqueued == |m.store.appended| && m.store.done <= |m.store.fates| <= |m.store.appended|
  {
  }

  /**
   A flush that returns outside teardown, with no batch of its records dropped, makes everything
   journaled before the call permanent: through any number of later crashes and restarts, and
   whatever batches fail then, every reload returns it first, complete and in order.
   */
  lemma FlushedEventsSurvive(run: seq<Plant>, a: nat, b: nat, after: G.Store, w: nat, j: nat, loaded: seq<JournalEvent>)
    requires Behavior(run) && a < b <= j < |run| && G.FlushBegin(run[a].store, run[a + 1].store, w)
    requires forall k :: a < k <= b ==> w in run[k].store.waiters
    requires G.FlushReturn(run[b].store, after, w) && !run[b].store.stopping
    requires forall k :: 0 <= k < |run[a].store.appended| && k < |run[b].store.fates| ==> run[b].store.fates[k]
    requires Loads(run[j].store.table, loaded)
    ensures G.Log(run[a].store) <= loaded
  {
    hide Next, G.EventsOf, G.Committed, L.Mask, Keep, TableOf, Loads, Inv, R.Next;
    PendingFlush(run, a, b, w);
    BehaviorKeepsInv(run, b);
    StoreCounts(run[b]);
    FlushedIsInFront(run[a].store, run[b].store);
    PlantRefinesRecovery(run);
    R.DurableEventsSurvive(Views(run), b, j);
    BehaviorKeepsInv(run, j);
    FrontIsLoaded(run[j], loaded);
  }

  /** No step takes a row out of the trades table. */
  lemma TradeRowsStay(m: Plant, m': Plant)
    requires Next(m, m')
    ensures m.store.tradeTable <= m'.store.tradeTable
  {
    hide TableOf, G.Insertable, Storable, Apply, Throws, R.Recover;
  }

  lemma {:induction false} TradeTableGrows(run: seq<Plant>, i: nat, j: nat)
    requires Behavior(run) && i <= j < |run|
    ensures run[i].store.tradeTable <= run[j].store.tradeTable
    decreases j
  {
    hide Next;
    if i < j {
      TradeTableGrows(run, i, j - 1);
      TradeRowsStay(run[j - 1], run[j]);
    }
  }

  /** The same for trade rows: those recorded before the flush are in every later trades table, in order. */
  lemma FlushedTradesSurvive(run: seq<Plant>, a: nat, b: nat, after: G.Store, w: nat, j: nat)
    requires Behavior(run) && a < b <= j < |run| && G.FlushBegin(run[a].store, run[a + 1].store, w)
    requires forall k :: a < k <= b ==> w in run[k].store.waiters
    requires G.FlushReturn(run[b].store, after, w) && !run[b].store.stopping
    requires forall k :: 0 <= k < |run[a].store.appended| && k < |run[b].store.fates| ==> run[b].store.fates[k]
    ensures run[a].store.baseTrades + G.TradesOf(run[a].store.appended) <= run[j].store.tradeTable
  {
    hide Next, G.TradesOf, G.Committed, G.DurableEvents, TableOf, R.Inv;
    PendingFlush(run, a, b, w);
    BehaviorKeepsInv(run, b);
    StoreCounts(run[b]);
    var s, n := run[b].store, |run[a].store.appended|;
    G.CommittedFront(s.appended, s.fates, n);
    assert s.appended[..n] == run[a].store.appended;
    var kept := G.Committed(s.appended, s.fates);
    G.TradesConcat(kept[..n], kept[n..]);
    assert kept == kept[..n] + kept[n..];
    TradeTableGrows(run, b, j);
  }

  lemma FlushedIsInFront(s: G.Store, s': G.Store)
    requires s.appended <= s'.appended && s'.base == s.base && |s.appended| <= |s'.fates| <= |s'.appended|
    requires forall k :: 0 <= k < |s.appended| ==> s'.fates[k]
    ensures L.Front(s') <= |G.Log(s')| && G.Log(s) <= G.Log(s')[..L.Front(s')]
  {
    hide G.EventsOf;
    var lead := L.Lead(s'.fates);
    assert |s.appended| <= lead;
    assert s'.appended[..lead][..|s.appended|] == s.appended;
    G.EventsPrefix(s'.appended[..lead], |s.appended|);
    G.EventsPrefix(s'.appended, lead);
  }

  lemma FrontIsLoaded(m: Plant, loaded: seq<JournalEvent>)
    requires Inv(m) && Loads(m.store.table, loaded)
    ensures |m.store.fates| <= |m.store.appended| && L.Front(m.store) <= |G.Log(m.store)|
    ensures G.Log(m.store)[..L.Front(m.store)] <= loaded
  {
    hide G.EventsOf, G.Committed, L.Mask, Keep, TableOf, Loads, R.Inv;
    Reload(m, loaded);
    L.FrontIsSelected(m.store);
    KeepFront(G.Log(m.store), L.Mask(m.store), L.Front(m.store));
  }
}
