/**
 Event-sourced recovery. The engine stamps each command with a sequence number, appends it to the
 log, applies it to the book and then publishes its trades one by one; the process may die between
 any two of these steps, and be restarted from what is left of the log any number of times. What a
 crash leaves is the durable front of the log and any selection of the rest.
 */
module Recovery {
  import opened Trading
  import opened PriceTime
  import opened BookLaws
  import opened Journal
  import opened StaleSubmissions

  // ---------- Replay ----------

  datatype Recovered = Recovered(book: Book, trades: seq<Trade>, maxSeq: nat)

  function Max(a: nat, b: nat): nat {
    if a < b then b else a
  }

  /** recover() over a log, starting from any book: nothing when the factory or the book throws. */
  function Replay(start: Book, log: seq<JournalEvent>): Option<Recovered> {
    if log == [] then Some(Recovered(start, [], 0))
    else
      var last := |log| - 1;
      var before, c := Replay(start, log[..last]), Rebuild(log[last]);
      if before.None? || c.None? || Throws(before.value.book, c.value) then None
      else
        var out := Apply(before.value.book, c.value);
        Some(Recovered(out.book, before.value.trades + out.trades, Max(before.value.maxSeq, log[last].seqNo)))
  }

  /** recover() of a fresh engine. */
  function Recover(log: seq<JournalEvent>): Option<Recovered> {
    Replay([], log)
  }

  /** No submission of the stream reuses an id that is active when it arrives. */
  predicate NoActiveDuplicate(cs: seq<Command>) {
    forall k :: 0 <= k < |cs| ==> !Throws(Run(cs[..k]).book, cs[k])
  }

  /**
   Recovery of a log succeeds exactly when no submission in it reuses an active id, and it then
   yields the uninterrupted run of the logged commands.
   */
  lemma {:induction false} RecoveryIsTheRun(log: seq<JournalEvent>)
    requires Rebuildable(log)
    ensures Recover(log).Some? <==> NoActiveDuplicate(Commands(log))
    ensures Recover(log).Some? ==>
              && Recover(log).value.book == Run(Commands(log)).book
              && Recover(log).value.trades == Run(Commands(log)).trades
    ensures Recover(log).Some? && Rising(log) ==> Recover(log).value.maxSeq == LastSeq(log)
  {
    if log != [] {
      hide Recover, Run, Apply, Throws, NoActiveDuplicate, Rebuild;
      var last := |log| - 1;
      var cs := Commands(log);
      RecoveryIsTheRun(log[..last]);
      assert Commands(log[..last]) == cs[..last];
      DuplicatesByPrefix(cs);
      RecoverUnfolds(log);
      RunUnfolds(cs);
    }
  }

  lemma RecoverUnfolds(log: seq<JournalEvent>)
    requires log != []
    ensures var last := |log| - 1;
            var before, c := Recover(log[..last]), Rebuild(log[last]);
            Recover(log) ==
            if before.None? || c.None? || Throws(before.value.book, c.value) then None
            else
              var out := Apply(before.value.book, c.value);
              Some(Recovered(out.book, before.value.trades + out.trades, Max(before.value.maxSeq, log[last].seqNo)))
  {
  }

  lemma RunUnfolds(cs: seq<Command>)
    requires cs != []
    ensures var before := Run(cs[..|cs| - 1]);
            var out := Apply(before.book, cs[|cs| - 1]);
            Run(cs).book == out.book && Run(cs).trades == before.trades + out.trades
  {
  }

  lemma DuplicatesByPrefix(cs: seq<Command>)
    requires cs != []
    ensures var last := |cs| - 1;
            NoActiveDuplicate(cs) <==> NoActiveDuplicate(cs[..last]) && !Throws(Run(cs[..last]).book, cs[last])
  {
    hide Run, Throws;
    var last := |cs| - 1;
    assert forall k :: 0 <= k < last ==> cs[..last][..k] == cs[..k] && cs[..last][k] == cs[k];
  }

  /** A log that cannot be replayed cannot be replayed with more events after it. */
  lemma {:induction false} ReplayFailsForGood(start: Book, log: seq<JournalEvent>, k: nat)
    requires k <= |log| && Replay(start, log[..k]).None?
    ensures Replay(start, log).None?
  {
    if k < |log| {
      var last := |log| - 1;
      assert log[..last][..k] == log[..k];
      ReplayFailsForGood(start, log[..last], k);
    } else {
      assert log[..k] == log;
    }
  }

  lemma PrefixRecovers(log: seq<JournalEvent>, k: nat)
    requires Recover(log).Some? && k <= |log|
    ensures Recover(log[..k]).Some?
  {
    hide Replay;
    if Recover(log[..k]).None? {
      ReplayFailsForGood([], log, k);
    }
  }

  // ---------- The machine ----------

  /** Where the matching thread is within one command. */
  datatype Phase =
    | Idle
    | Stamped(ev: JournalEvent, c: Command)
    | Journaled(c: Command)
    | Publishing(pending: seq<Trade>)

  datatype Process =
    | Down
    | Up(book: Book, tradeLog: seq<Trade>, nextSeq: nat, phase: Phase)

  /** `durable` counts the leading events of the log that are known to be on stable storage. */
  datatype System = System(log: seq<JournalEvent>, durable: nat, process: Process)

  predicate Init(s: System) {
    s == System([], 0, Down)
  }

  /** The sequence number is taken and the event built. */
  predicate Stamp(s: System, s': System, c: Command, now: int) {
    && s.process.Up? && s.process.phase.Idle? && ValidCommand(c) && Exact(s.process.book, c)
    && var ev := MakeEvent(c, s.process.nextSeq, now);
       s' == s.(process := s.process.(nextSeq := s.process.nextSeq + 1, phase := Stamped(ev, c)))
  }

  predicate Append(s: System, s': System) {
    && s.process.Up? && s.process.phase.Stamped?
    && s' == s.(log := s.log + [s.process.phase.ev],
                process := s.process.(phase := Journaled(s.process.phase.c)))
  }

  /** A duplicate active id throws on the matching thread, which ends the process. */
  predicate ApplyStep(s: System, s': System) {
    && s.process.Up? && s.process.phase.Journaled?
    && var p := s.process;
       if Throws(p.book, p.phase.c) then s' == s.(process := Down)
       else
         var out := Apply(p.book, p.phase.c);
         s' == s.(process := p.(book := out.book, phase := Publishing(out.trades)))
  }

  predicate PublishOne(s: System, s': System) {
    && s.process.Up? && s.process.phase.Publishing? && s.process.phase.pending != []
    && var p := s.process;
       s' == s.(process := p.(tradeLog := p.tradeLog + [p.phase.pending[0]],
                              phase := Publishing(p.phase.pending[1..])))
  }

  predicate Finish(s: System, s': System) {
    && s.process.Up? && s.process.phase.Publishing? && s.process.phase.pending == []
    && s' == s.(process := s.process.(phase := Idle))
  }

  /** The journal makes some longer part of the log durable. */
  predicate Harden(s: System, s': System, durable: nat) {
    s.durable <= durable <= |s.log| && s' == s.(durable := durable)
  }

  /**
   The process dies. Of the log the durable front survives, and of the rest whatever the mask
   selects; what is left is what stable storage holds.
   */
  predicate Crash(s: System, s': System, mask: seq<bool>) {
    && |mask| == |s.log| && (forall i :: 0 <= i < s.durable && i < |mask| ==> mask[i])
    && s' == System(Keep(s.log, mask), |Keep(s.log, mask)|, Down)
  }

  /** A fresh engine recovers from the log. When recovery throws, no engine comes up. */
  predicate Restart(s: System, s': System) {
    && s.process.Down?
    && var r := Recover(s.log);
       s' == if r.None? then s
             else s.(process := Up(r.value.book, r.value.trades, r.value.maxSeq + 1, Idle))
  }

  /** Every step but a crash. */
  ghost predicate Step(s: System, s': System) {
    || (exists c, now :: Stamp(s, s', c, now))
    || Append(s, s')
    || ApplyStep(s, s')
    || PublishOne(s, s')
    || Finish(s, s')
    || (exists durable :: Harden(s, s', durable))
    || Restart(s, s')
  }

  ghost predicate Next(s: System, s': System) {
    Step(s, s') || exists mask :: Crash(s, s', mask)
  }

  ghost predicate Behavior(run: seq<System>) {
    && run != [] && Init(run[0])
    && forall i :: 0 <= i < |run| - 1 ==> Next(run[i], run[i + 1])
  }

  /** Crashes lose only the end of the log, as they do when no batch of the journal fails. */
  ghost predicate TailNext(s: System, s': System) {
    Step(s, s') || exists mask :: Crash(s, s', mask) && Truncates(mask)
  }

  ghost predicate TailBehavior(run: seq<System>) {
    && run != [] && Init(run[0])
    && forall i :: 0 <= i < |run| - 1 ==> TailNext(run[i], run[i + 1])
  }

  // ---------- The invariant ----------

  /** The log replays to exactly this book and trade history. */
  predicate ReplaysTo(log: seq<JournalEvent>, book: Book, trades: seq<Trade>) {
    Recover(log) == Some(Recovered(book, trades, LastSeq(log)))
  }

  predicate PhaseInv(log: seq<JournalEvent>, p: Process)
    requires p.Up?
  {
    match p.phase
    case Idle => p.nextSeq == LastSeq(log) + 1 && ReplaysTo(log, p.book, p.tradeLog)
    case Stamped(ev, c) =>
      && p.nextSeq == LastSeq(log) + 2 && ReplaysTo(log, p.book, p.tradeLog)
      && ev.seqNo == LastSeq(log) + 1 && Replays(p.book, ev, c)
    case Journaled(c) =>
      && p.nextSeq == LastSeq(log) + 1 && log != []
      && ReplaysTo(log[..|log| - 1], p.book, p.tradeLog)
      && Replays(p.book, log[|log| - 1], c)
    case Publishing(pending) =>
      p.nextSeq == LastSeq(log) + 1 && ReplaysTo(log, p.book, p.tradeLog + pending)
  }

  predicate Inv(s: System) {
    && s.durable <= |s.log|
    && Rising(s.log) && Rebuildable(s.log)
    && (s.process.Up? ==> PhaseInv(s.log, s.process))
  }

  lemma ReplayedIsWellFormed(log: seq<JournalEvent>, book: Book, trades: seq<Trade>)
    requires Rebuildable(log) && ReplaysTo(log, book, trades)
    ensures WellFormed(book)
  {
    hide Recover, Run;
    RecoveryIsTheRun(log);
    RebuiltIsValid(log);
    RunKeepsWellFormed(Commands(log));
  }

  lemma StampKeepsInv(s: System, s': System, c: Command, now: int)
    requires Inv(s) && Stamp(s, s', c, now)
    ensures Inv(s')
  {
    hide Replays, Exact, Recover;
    var p := s.process;
    ReplayedIsWellFormed(s.log, p.book, p.tradeLog);
    RebuildsWhatWasJournaled(c, p.nextSeq, now);
    ReplayIsExactIff(p.book, c, p.nextSeq, now);
  }

  lemma AppendKeepsInv(s: System, s': System)
    requires Inv(s) && Append(s, s')
    ensures Inv(s')
  {
    assert Rebuild(s.process.phase.ev).Some?;
    hide Recover, Replays;
    assert s'.log[..|s'.log| - 1] == s.log;
  }

  lemma ApplyKeepsInv(s: System, s': System)
    requires Inv(s) && ApplyStep(s, s')
    ensures Inv(s')
  {
  }

  lemma PublishKeepsInv(s: System, s': System)
    requires Inv(s) && PublishOne(s, s')
    ensures Inv(s')
  {
    hide Recover;
    var p := s.process;
    assert p.tradeLog + [p.phase.pending[0]] + p.phase.pending[1..] == p.tradeLog + p.phase.pending;
  }

  lemma FinishKeepsInv(s: System, s': System)
    requires Inv(s) && Finish(s, s')
    ensures Inv(s')
  {
    hide Recover;
    assert s.process.tradeLog + [] == s.process.tradeLog;
  }

  lemma CrashKeepsInv(s: System, s': System, mask: seq<bool>)
    requires Inv(s) && Crash(s, s', mask)
    ensures Inv(s')
    ensures s.log[..s.durable] <= s'.log && s.durable <= s'.durable
  {
    KeepRises(s.log, mask);
    KeepRebuildable(s.log, mask);
    KeepFront(s.log, mask, s.durable);
  }

  lemma RestartKeepsInv(s: System, s': System)
    requires Inv(s) && Restart(s, s')
    ensures Inv(s')
  {
    RecoveryIsTheRun(s.log);
  }

  lemma StepKeepsInv(s: System, s': System)
    requires Inv(s) && Step(s, s')
    ensures Inv(s')
    ensures s.log <= s'.log && s.durable <= s'.durable
  {
    if c, now :| Stamp(s, s', c, now) {
      StampKeepsInv(s, s', c, now);
    } else if Append(s, s') {
      AppendKeepsInv(s, s');
    } else if ApplyStep(s, s') {
      ApplyKeepsInv(s, s');
    } else if PublishOne(s, s') {
      PublishKeepsInv(s, s');
    } else if Finish(s, s') {
      FinishKeepsInv(s, s');
    } else if durable :| Harden(s, s', durable) {
    } else {
      RestartKeepsInv(s, s');
    }
  }

  lemma NextKeepsInv(s: System, s': System)
    requires Inv(s) && Next(s, s')
    ensures Inv(s')
    ensures s.log[..s.durable] <= s'.log && s.durable <= s'.durable
  {
    hide Inv, Step, Crash;
    if Step(s, s') {
      StepKeepsInv(s, s');
      DurableFits(s);
    } else {
      var mask :| Crash(s, s', mask);
      CrashKeepsInv(s, s', mask);
    }
  }

  lemma DurableFits(s: System)
    requires Inv(s)
    ensures s.durable <= |s.log|
  {
  }

  /** The invariant holds in every state of every behavior. */
  lemma {:induction false} BehaviorKeepsInv(run: seq<System>, i: nat)
    requires Behavior(run) && i < |run|
    ensures Inv(run[i])
  {
    hide Inv, Next;
    if i > 0 {
      BehaviorKeepsInv(run, i - 1);
      NextKeepsInv(run[i - 1], run[i]);
    } else {
      InitHasInv(run[0]);
    }
  }

  lemma InitHasInv(s: System)
    requires Init(s)
    ensures Inv(s)
  {
  }

  // ---------- What recovery guarantees ----------

  /**
   Recovery equals the live run: whenever a live engine is between commands, however many crashes
   and restarts came before and whatever they lost, replaying its log into a fresh engine gives the
   same book, trade log and next sequence number, namely those of one uninterrupted run of the
   logged commands.
   */
  lemma RecoveryEqualsLiveRun(run: seq<System>, i: nat)
    requires Behavior(run) && i < |run|
    requires run[i].process.Up? && run[i].process.phase.Idle?
    ensures Rebuildable(run[i].log)
    ensures var p, r, session := run[i].process, Recover(run[i].log), Run(Commands(run[i].log));
            && r.Some? && r.value.book == p.book && r.value.trades == p.tradeLog && r.value.maxSeq + 1 == p.nextSeq
            && p.book == session.book && p.tradeLog == session.trades
  {
    hide Recover, Run, Next;
    BehaviorKeepsInv(run, i);
    RecoveryIsTheRun(run[i].log);
  }

  /**
   The condition under which commands are journaled in this machine is exactly the one recovery
   needs: replaying a live engine's log with one more event gives the book and the trades the
   command itself would give if and only if the condition holds.
   */
  lemma RecoveryStaysExactIff(run: seq<System>, i: nat, c: Command, now: int)
    requires Behavior(run) && i < |run|
    requires run[i].process.Up? && run[i].process.phase.Idle?
    requires ValidCommand(c) && !Throws(run[i].process.book, c)
    ensures var p, out := run[i].process, Apply(run[i].process.book, c);
            var r := Recover(run[i].log + [MakeEvent(c, p.nextSeq, now)]);
            (r.Some? && r.value.book == out.book && r.value.trades == p.tradeLog + out.trades)
            <==> Exact(p.book, c)
  {
    hide Next, Exact, Apply;
    BehaviorKeepsInv(run, i);
    var p, log := run[i].process, run[i].log;
    var ev := MakeEvent(c, p.nextSeq, now);
    ReplayedIsWellFormed(log, p.book, p.tradeLog);
    RebuildsWhatWasJournaled(c, p.nextSeq, now);
    ReplayIsExactIff(p.book, c, p.nextSeq, now);
    assert (log + [ev])[..|log|] == log;
    var live, replay := Apply(p.book, c).trades, Apply(p.book, Restored(c)).trades;
    assert p.tradeLog + live == p.tradeLog + replay ==> live == replay by { CancelFront(p.tradeLog, live, replay); }
  }

  lemma CancelFront(a: seq<Trade>, b: seq<Trade>, c: seq<Trade>)
    ensures a + b == a + c ==> b == c
  {
    if a + b == a + c {
      assert b == (a + b)[|a|..] && c == (a + c)[|a|..];
    }
  }

  /** Two engines that are between commands and have logged the same commands hold the same book and trades. */
  lemma LifetimesDoNotMatter(run1: seq<System>, i: nat, run2: seq<System>, j: nat)
    requires Behavior(run1) && i < |run1| && run1[i].process.Up? && run1[i].process.phase.Idle?
    requires Behavior(run2) && j < |run2| && run2[j].process.Up? && run2[j].process.phase.Idle?
    requires Rebuildable(run1[i].log) && Rebuildable(run2[j].log)
    requires Commands(run1[i].log) == Commands(run2[j].log)
    ensures run1[i].process.book == run2[j].process.book && run1[i].process.tradeLog == run2[j].process.tradeLog
    ensures LastSeq(run1[i].log) == LastSeq(run2[j].log) ==> run1[i].process == run2[j].process
  {
    hide Recover, Run, Next;
    BehaviorKeepsInv(run1, i);
    BehaviorKeepsInv(run2, j);
    RecoveryEqualsLiveRun(run1, i);
    RecoveryEqualsLiveRun(run2, j);
  }

  /**
   Crash at any step: the log replays to the live book, or to the live book after the one command
   that is journaled but not yet applied; the live trade log is always a prefix of the replayed one.
   Replay fails only when that one command is a duplicate that is about to kill the live engine too.
   */
  lemma CrashAtAnyStep(run: seq<System>, i: nat)
    requires Behavior(run) && i < |run| && run[i].process.Up?
    ensures var p, r := run[i].process, Recover(run[i].log);
            if p.phase.Journaled? then
              var out := Apply(p.book, p.phase.c);
              if Throws(p.book, p.phase.c) then r.None?
              else r.Some? && r.value.book == out.book && r.value.trades == p.tradeLog + out.trades
            else
              r.Some? && r.value.book == p.book && p.tradeLog <= r.value.trades
  {
    hide Next, Apply, Throws;
    BehaviorKeepsInv(run, i);
  }

  /** Replay of a live engine's log, if it succeeds, brings back at least all trades published so far. */
  lemma PublishedIsReplayed(s: System)
    requires Inv(s) && s.process.Up? && Recover(s.log).Some?
    ensures s.process.tradeLog <= Recover(s.log).value.trades
  {
    hide Apply, Throws;
  }

  /** A live engine's book is well-formed and uncrossed at every step of every behavior. */
  lemma LiveBookIsWellFormed(run: seq<System>, i: nat)
    requires Behavior(run) && i < |run| && run[i].process.Up?
    ensures WellFormed(run[i].process.book)
  {
    hide Next, Recover, Run, WellFormed;
    BehaviorKeepsInv(run, i);
    var log, p := run[i].log, run[i].process;
    if p.phase.Journaled? {
      ReplayedIsWellFormed(log[..|log| - 1], p.book, p.tradeLog);
    } else {
      ReplayedIsWellFormed(log, p.book, if p.phase.Publishing? then p.tradeLog + p.phase.pending else p.tradeLog);
    }
  }

  /** What was durable at some moment is at the front of the log at every later one, crashes included. */
  lemma {:induction false} DurableEventsSurvive(run: seq<System>, i: nat, j: nat)
    requires Behavior(run) && i <= j < |run|
    ensures run[i].durable <= |run[i].log| && run[i].durable <= run[j].durable <= |run[j].log|
    ensures run[i].log[..run[i].durable] <= run[j].log
    decreases j - i
  {
    hide Inv, Next;
    BehaviorKeepsInv(run, i);
    BehaviorKeepsInv(run, j);
    DurableFits(run[i]);
    DurableFits(run[j]);
    if i < j {
      DurableEventsSurvive(run, i, j - 1);
      BehaviorKeepsInv(run, j - 1);
      NextKeepsInv(run[j - 1], run[j]);
    }
  }

  /** Numbers rise strictly along every reachable log, and a live engine is about to use a higher one. */
  lemma SequenceNumbersRise(run: seq<System>, i: nat)
    requires Behavior(run) && i < |run|
    ensures Rising(run[i].log)
    ensures run[i].process.Up? ==> LastSeq(run[i].log) < run[i].process.nextSeq
  {
    hide Next, Recover;
    BehaviorKeepsInv(run, i);
  }

  // ---------- When crashes lose only the end of the log ----------

  predicate TailInv(s: System) {
    && Inv(s) && Numbered(s.log)
    && (s.log != [] ==> Recover(s.log[..|s.log| - 1]).Some?)
  }

  lemma NumberedLastSeq(log: seq<JournalEvent>)
    requires Numbered(log)
    ensures LastSeq(log) == |log|
  {
  }

  lemma TruncationKeepsTailInv(s: System, s': System, mask: seq<bool>)
    requires TailInv(s) && Crash(s, s', mask) && Truncates(mask)
    ensures TailInv(s')
  {
    hide Recover;
    CrashKeepsInv(s, s', mask);
    TruncatedIsPrefix(s.log, mask);
    var kept := |s'.log|;
    if 0 < kept < |s.log| {
      var last := |s.log| - 1;
      PrefixRecovers(s.log[..last], kept - 1);
      assert s.log[..last][..kept - 1] == s'.log[..kept - 1];
    } else if kept == |s.log| {
      assert s'.log == s.log;
    }
  }

  lemma OnlyAppendGrows(s: System, s': System)
    requires Step(s, s') && !Append(s, s')
    ensures s'.log == s.log
  {
    hide Recover, Apply, Throws, Exact;
  }

  lemma AppendedIsNumbered(s: System, s': System)
    requires TailInv(s) && Append(s, s')
    ensures Numbered(s'.log) && Recover(s'.log[..|s'.log| - 1]).Some?
  {
    hide Recover, Replays, Rebuildable, Rising;
    NumberedLastSeq(s.log);
    assert s'.log[..|s'.log| - 1] == s.log;
  }

  lemma StepKeepsTailInv(s: System, s': System)
    requires TailInv(s) && Step(s, s')
    ensures TailInv(s')
  {
    hide Recover, Inv, Step, Append;
    StepKeepsInv(s, s');
    if Append(s, s') {
      AppendedIsNumbered(s, s');
    } else {
      OnlyAppendGrows(s, s');
    }
  }

  lemma {:induction false} TailBehaviorKeepsInv(run: seq<System>, i: nat)
    requires TailBehavior(run) && i < |run|
    ensures TailInv(run[i])
  {
    hide TailInv, Step, Crash;
    if i > 0 {
      TailBehaviorKeepsInv(run, i - 1);
      if Step(run[i - 1], run[i]) {
        StepKeepsTailInv(run[i - 1], run[i]);
      } else {
        var mask :| Crash(run[i - 1], run[i], mask) && Truncates(mask);
        TruncationKeepsTailInv(run[i - 1], run[i], mask);
      }
    } else {
      TailInitHasInv(run[0]);
    }
  }

  lemma TailInitHasInv(s: System)
    requires Init(s)
    ensures TailInv(s)
  {
  }

  /**
   Sequence numbers: as long as crashes lose only the end of the log, it is numbered 1, 2, 3, ...
   without gap or reuse, and a live engine is about to use the next number.
   */
  lemma SequenceNumbersAreDense(run: seq<System>, i: nat)
    requires TailBehavior(run) && i < |run|
    ensures forall k :: 0 <= k < |run[i].log| ==> run[i].log[k].seqNo == k + 1
    ensures run[i].process.Up? && !run[i].process.phase.Stamped? ==> run[i].process.nextSeq == |run[i].log| + 1
  {
    hide Recover;
    TailBehaviorKeepsInv(run, i);
    NumberedLastSeq(run[i].log);
  }

  /**
   As long as crashes lose only the end of the log, a log that cannot be recovered is spoiled by its
   very last event, a submission under an active id.
   */
  lemma OnlyTheLastEventSpoils(run: seq<System>, i: nat)
    requires TailBehavior(run) && i < |run| && Recover(run[i].log).None?
    ensures var log := run[i].log;
            && log != []
            && Recover(log[..|log| - 1]).Some?
            && Rebuild(log[|log| - 1]).Some?
            && Throws(Recover(log[..|log| - 1]).value.book, Rebuild(log[|log| - 1]).value)
  {
    TailBehaviorKeepsInv(run, i);
  }

  /** Cutting a reachable log short leaves it numbered, and recoverable unless nothing is cut off. */
  lemma CutLogsRecover(run: seq<System>, i: nat, kept: nat)
    requires TailBehavior(run) && i < |run| && kept <= |run[i].log|
    ensures var log := run[i].log;
            && Numbered(log[..kept])
            && (Recover(log[..kept]).None? ==> 0 < kept == |log| && Recover(log[..kept - 1]).Some?)
  {
    TailBehaviorKeepsInv(run, i);
    var log := run[i].log;
    if 0 < |log| && kept < |log| {
      var last := |log| - 1;
      assert log[..last][..kept] == log[..kept];
      PrefixRecovers(log[..last], kept);
    }
  }

  // ---------- Spoiled logs ----------

  /** A dead engine whose whole log is durable and cannot be recovered. */
  predicate Spoiled(s: System) {
    s.process.Down? && s.durable == |s.log| && Recover(s.log).None?
  }

  lemma SpoiledStep(s: System, s': System)
    requires Spoiled(s) && Next(s, s')
    ensures s' == s
  {
    hide Recover;
    if mask :| Crash(s, s', mask) {
      KeepFront(s.log, mask, |s.log|);
      KeepMembers(s.log, mask);
    }
  }

  /** Once a log is spoiled, no engine ever comes up again: every later state is the same. */
  lemma {:induction false} SpoiledForGood(run: seq<System>, i: nat, j: nat)
    requires Behavior(run) && i <= j < |run| && Spoiled(run[i])
    ensures run[j] == run[i]
    decreases j - i
  {
    hide Spoiled, Next;
    if i < j {
      SpoiledForGood(run, i, j - 1);
      SpoiledStep(run[j - 1], run[j]);
    }
  }
}
