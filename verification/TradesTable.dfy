/**
 The trades table is an output projection: replaying the events is meant to regenerate every row of
 it. This module relates the two, over any number of processes.
 */
module TradesTable {
  import opened Trading
  import opened PriceTime
  import opened Journal
  import opened EventTable
  import opened DurableRecovery
  import G = GroupCommit
  import L = StoredLog
  import R = Recovery

  // ---------- Subsequences ----------

  /** a is b with some elements left out, the others in their order. */
  ghost predicate Within(a: seq<Trade>, b: seq<Trade>) {
    exists mask: seq<bool> :: |mask| == |b| && Keep(b, mask) == a
  }

  lemma WithinExtends(a: seq<Trade>, b: seq<Trade>, both: seq<Trade>, c: seq<Trade>)
    requires Within(a, b) && b + both <= c
    ensures Within(a + both, c)
  {
    hide Keep;
    var mask: seq<bool> :| |mask| == |b| && Keep(b, mask) == a;
    var more := c[|b| + |both|..];
    var yes, no := Cut(|both|, |both|), Cut(|more|, 0);
    CutKeepsFront(both, |both|);
    CutKeepsFront(more, 0);
    KeepConcat(b, both, mask, yes);
    KeepConcat(b + both, more, mask + yes, no);
    assert c == b + both + more;
    assert both[..|both|] == both && a + both + more[..0] == a + both;
  }

  lemma WithinConcat(a: seq<Trade>, b: seq<Trade>, c: seq<Trade>, d: seq<Trade>)
    requires Within(a, b) && Within(c, d)
    ensures Within(a + c, b + d)
  {
    hide Keep;
    var x: seq<bool> :| |x| == |b| && Keep(b, x) == a;
    var y: seq<bool> :| |y| == |d| && Keep(d, y) == c;
    KeepConcat(b, d, x, y);
    assert |x + y| == |b + d|;
  }

  lemma WithinIsNoLonger(a: seq<Trade>, b: seq<Trade>)
    requires Within(a, b)
    ensures |a| <= |b|
  {
    hide Keep;
    var mask: seq<bool> :| |mask| == |b| && Keep(b, mask) == a;
    KeepMembers(b, mask);
  }

  lemma WithinItself(a: seq<Trade>)
    ensures Within(a, a)
  {
    hide Keep;
    CutKeepsFront(a, |a|);
    assert a[..|a|] == a;
  }

  // ---------- The published trades of one process ----------

  function LogUpTo(s: G.Store, n: nat): seq<JournalEvent>
    requires n <= |s.appended|
  {
    s.base + G.EventsOf(s.appended[..n])
  }

  /** The trades recorded among the first n records are regenerated by the events among them. */
  predicate Covered(s: G.Store, n: nat)
    requires n <= |s.appended|
  {
    var start, r := R.Recover(s.base), R.Recover(LogUpTo(s, n));
    r.Some? ==> start.Some? && start.value.trades + G.TradesOf(s.appended[..n]) <= r.value.trades
  }

  /** A live engine's trade log is what it recovered and what it has recorded since. */
  predicate Published(m: Plant) {
    m.process.Up? ==>
      var start := R.Recover(m.store.base);
      start.Some? && m.process.tradeLog == start.value.trades + G.TradesOf(m.store.appended)
  }

  /** When an event is journaled, every trade of the events before it has been recorded. */
  predicate CaughtUp(s: G.Store, n: nat)
    requires n < |s.appended|
  {
    s.appended[n].Event? ==>
      var start, r := R.Recover(s.base), R.Recover(LogUpTo(s, n));
      start.Some? && r.Some? && r.value.trades == start.value.trades + G.TradesOf(s.appended[..n])
  }

  ghost predicate Ledger(m: Plant) {
    && Published(m)
    && (forall n :: 0 <= n <= |m.store.appended| ==> Covered(m.store, n))
    && (forall n :: 0 <= n < |m.store.appended| ==> CaughtUp(m.store, n))
  }

  lemma LiveIsCovered(m: Plant)
    requires Inv(m) && Published(m) && m.process.Up?
    ensures Covered(m.store, |m.store.appended|)
  {
    hide G.EventsOf, G.TradesOf, G.Committed, R.Recover, R.PhaseInv, TableOf, L.Front;
    var rs := m.store.appended;
    assert rs[..|rs|] == rs;
    if R.Recover(G.Log(m.store)).Some? {
      R.PublishedIsReplayed(View(m));
    }
  }

  lemma RecordKeepsLedger(m: Plant, m': Plant, r: G.Record)
    requires Ledger(m) && Inv(m') && Published(m') && m'.process.Up?
    requires m'.store.base == m.store.base && m'.store.appended == m.store.appended + [r]
    requires CaughtUp(m'.store, |m.store.appended|)
    ensures Ledger(m')
  {
    hide Inv, Published, G.EventsOf, G.TradesOf, R.Recover;
    var s, s' := m.store, m'.store;
    forall n | 0 <= n <= |s'.appended| ensures Covered(s', n) {
      if n < |s'.appended| {
        assert s'.appended[..n] == s.appended[..n];
        assert Covered(s, n);
      } else {
        LiveIsCovered(m');
      }
    }
    forall n | 0 <= n < |s'.appended| ensures CaughtUp(s', n) {
      if n < |s.appended| {
        assert s'.appended[..n] == s.appended[..n];
        assert CaughtUp(s, n);
      }
    }
  }

  /** A stamped command finds everything before it published. */
  lemma StampedIsCaughtUp(m: Plant, s': G.Store)
    requires Inv(m) && Published(m) && m.process.Up? && m.process.phase.Stamped?
    requires s'.base == m.store.base && s'.appended == m.store.appended + [G.Event(m.process.phase.ev)]
    ensures CaughtUp(s', |m.store.appended|)
  {
    hide G.EventsOf, G.TradesOf, G.Committed, R.Recover, TableOf, L.Front;
    assert s'.appended[..|m.store.appended|] == m.store.appended;
  }

  lemma AppendKeepsLedger(m: Plant, m': Plant)
    requires Inv(m) && Ledger(m) && Append(m, m')
    ensures Ledger(m')
  {
    hide Inv, G.EventsOf, G.TradesOf, R.Recover, Covered;
    var r := G.Event(m.process.phase.ev);
    AppendRefines(m, m');
    G.SplitsPush(m.store.appended, r);
    StampedIsCaughtUp(m, m'.store);
    RecordKeepsLedger(m, m', r);
  }

  lemma PublishKeepsLedger(m: Plant, m': Plant)
    requires Inv(m) && Ledger(m) && Publish(m, m')
    ensures Ledger(m')
  {
    hide Inv, G.EventsOf, G.TradesOf, R.Recover, Covered;
    var r := G.TradeRow(m.process.phase.pending[0]);
    PublishRefines(m, m');
    G.SplitsPush(m.store.appended, r);
    var start, old', t := R.Recover(m.store.base), G.TradesOf(m.store.appended), m.process.phase.pending[0];
    assert start.value.trades + old' + [t] == start.value.trades + (old' + [t]);
    RecordKeepsLedger(m, m', r);
  }

  lemma SameHistory(m: Plant, m': Plant)
    requires Ledger(m) && m'.store.base == m.store.base && m'.store.appended == m.store.appended
    requires Published(m')
    ensures Ledger(m')
  {
    hide Published, R.Recover, G.EventsOf, G.TradesOf;
    forall n | 0 <= n <= |m'.store.appended| ensures Covered(m'.store, n) {
      assert Covered(m.store, n);
    }
    forall n | 0 <= n < |m'.store.appended| ensures CaughtUp(m'.store, n) {
      assert CaughtUp(m.store, n);
    }
  }

  lemma FreshLedger(m: Plant)
    requires m.store.appended == [] && Published(m)
    ensures Ledger(m)
  {
    hide Published, R.Replay;
    var s := m.store;
    assert LogUpTo(s, 0) == s.base;
    assert G.TradesOf(s.appended[..0]) == [];
    assert forall a: seq<Trade> :: a + [] == a;
    assert Covered(s, 0);
  }

  lemma RestartKeepsLedger(m: Plant, m': Plant, loaded: seq<JournalEvent>)
    requires Inv(m) && Ledger(m) && Restart(m, m', loaded)
    ensures Ledger(m')
  {
    hide R.Replay;
    RestartRefines(m, m', loaded);
    if m'.process.Up? {
      var trades := R.Recover(loaded).value.trades;
      assert trades + [] == trades;
    }
    FreshLedger(m');
  }

  lemma StepKeepsLedger(m: Plant, m': Plant)
    requires Inv(m) && Ledger(m) && Next(m, m')
    ensures Ledger(m')
  {
    hide Inv, Append, Publish, Restart, R.Recover, G.EventsOf, G.TradesOf, G.Next, Apply, Throws;
    if Append(m, m') {
      AppendKeepsLedger(m, m');
    } else if Publish(m, m') {
      PublishKeepsLedger(m, m');
    } else if loaded :| Crash(m, m', loaded) {
      FreshLedger(m');
    } else if loaded :| Restart(m, m', loaded) {
      RestartKeepsLedger(m, m', loaded);
    } else {
      if Background(m, m') {
        G.HistoryGrows(m.store, m'.store);
      }
      SameHistory(m, m');
    }
  }

  // ---------- The table against the events ----------

  /** No lost event precedes a kept record, be it an event or a trade. */
  predicate Tidy(s: G.Store) {
    && |s.fates| <= |s.appended|
    && forall i, j :: 0 <= i < j < |s.fates| && s.appended[i].Event? && s.fates[j] ==> s.fates[i]
  }

  /** The first event whose batch was dropped, or else the number of settled records. */
  function FirstLost(rs: seq<G.Record>, fates: seq<bool>): (f: nat)
    requires |fates| <= |rs|
    ensures f <= |fates| && forall i :: 0 <= i < f && rs[i].Event? ==> fates[i]
    ensures f < |fates| ==> rs[f].Event? && !fates[f]
  {
    if fates == [] then 0
    else
      var last := |fates| - 1;
      var f := FirstLost(rs, fates[..last]);
      if f < last then f else if rs[last].Event? && !fates[last] then last else last + 1
  }

  lemma {:induction false} NothingKeptAfter(rs: seq<G.Record>, fates: seq<bool>, f: nat)
    requires f <= |fates| <= |rs| && forall j :: f <= j < |fates| ==> !fates[j]
    ensures G.Committed(rs, fates) == G.Committed(rs, fates[..f])
  {
    if f < |fates| {
      NothingKeptAfter(rs, fates[..|fates| - 1], f);
      assert fates[..|fates| - 1][..f] == fates[..f];
    } else {
      assert fates[..f] == fates;
    }
  }

  /** Of the first n records, no trade row was dropped. */
  predicate TradesKept(rs: seq<G.Record>, fates: seq<bool>, n: nat)
    requires n <= |fates| <= |rs|
  {
    forall k :: 0 <= k < n && rs[k].TradeRow? ==> fates[k]
  }

  /** a is a selection of b, and all of it if and only if the flag is set. */
  ghost predicate Selected(a: seq<Trade>, b: seq<Trade>, whole: bool) {
    Within(a, b) && |a| <= |b| && (|a| == |b| <==> whole)
  }

  /** One more record adds at most one trade. */
  lemma RecordedStep(rs: seq<G.Record>, n: nat)
    requires n < |rs|
    ensures var b := G.TradesOf(rs[..n]);
            G.TradesOf(rs[..n + 1]) == if rs[n].TradeRow? then b + [rs[n].trade] else b
  {
    hide G.TradesOf;
    assert rs[..n + 1] == rs[..n] + [rs[n]];
    G.SplitsPush(rs[..n], rs[n]);
  }

  lemma CommittedTradesStep(rs: seq<G.Record>, fates: seq<bool>, ok: bool)
    requires |fates| < |rs|
    ensures var a, r := G.TradesOf(G.Committed(rs, fates)), rs[|fates|];
            G.TradesOf(G.Committed(rs, fates + [ok])) == if r.TradeRow? && ok then a + [r.trade] else a
  {
    hide G.TradesOf, G.Committed;
    var kept := G.Committed(rs, fates);
    G.CommittedNext(rs, fates, ok);
    if ok {
      G.SplitsPush(kept, rs[|fates|]);
    } else {
      assert kept + [] == kept;
    }
  }

  lemma SelectedMore(a: seq<Trade>, b: seq<Trade>, whole: bool, t: Trade, ok: bool)
    requires Selected(a, b, whole)
    ensures Selected(if ok then a + [t] else a, b + [t], whole && ok)
  {
    hide Within;
    assert a + [] == a && b + [] == b;
    WithinExtends(a, b, if ok then [t] else [], b + [t]);
  }

  ghost predicate KeptUpTo(rs: seq<G.Record>, fates: seq<bool>, n: nat)
    requires n <= |fates| <= |rs|
  {
    Selected(G.TradesOf(G.Committed(rs, fates[..n])), G.TradesOf(rs[..n]), TradesKept(rs, fates, n))
  }

  lemma KeptStep(rs: seq<G.Record>, fates: seq<bool>, n: nat)
    requires n < |fates| <= |rs| && KeptUpTo(rs, fates, n)
    ensures KeptUpTo(rs, fates, n + 1)
  {
    hide G.TradesOf, G.Committed, Selected;
    var a, b, whole := G.TradesOf(G.Committed(rs, fates[..n])), G.TradesOf(rs[..n]), TradesKept(rs, fates, n);
    RecordedStep(rs, n);
    CommittedTradesStep(rs, fates[..n], fates[n]);
    assert fates[..n + 1] == fates[..n] + [fates[n]];
    if rs[n].TradeRow? {
      SelectedMore(a, b, whole, rs[n].trade, fates[n]);
      assert TradesKept(rs, fates, n + 1) == (whole && fates[n]);
    } else {
      assert TradesKept(rs, fates, n + 1) == whole;
    }
  }

  /** The committed trades are a selection of the recorded ones. */
  lemma {:induction false} KeptTrades(rs: seq<G.Record>, fates: seq<bool>, n: nat)
    requires n <= |fates| <= |rs|
    ensures KeptUpTo(rs, fates, n)
  {
    if n == 0 {
      WithinItself([]);
    } else {
      hide KeptUpTo;
      KeptTrades(rs, fates, n - 1);
      KeptStep(rs, fates, n - 1);
    }
  }

  /** In a tidy store the first lost event is where both tables stop. */
  lemma TidyTables(m: Plant)
    requires Inv(m) && Tidy(m.store)
    ensures var s, f := m.store, FirstLost(m.store.appended, m.store.fates);
            var kept := G.TradesOf(G.Committed(s.appended, s.fates[..f]));
            && G.DurableEvents(s) == LogUpTo(s, f)
            && s.tradeTable == s.baseTrades + kept
            && Within(kept, G.TradesOf(s.appended[..f]))
            && (kept == G.TradesOf(s.appended[..f]) <==> forall k :: 0 <= k < f ==> s.fates[k])
  {
    hide G.EventsOf, G.TradesOf, G.Committed, TableOf, R.Inv, Within;
    var rs, fates := m.store.appended, m.store.fates;
    var f := FirstLost(rs, fates);
    var front := fates[..f];
    NothingKeptAfter(rs, fates, f);
    L.KeptWithoutLoss(rs, front);
    KeptTrades(rs, fates, f);
    if forall k :: 0 <= k < f ==> fates[k] {
      G.CommittedAll(rs, front);
    }
  }

  /** The rows found at the start are regenerated by the events found at the start. */
  ghost predicate Inherited(m: Plant) {
    R.Recover(m.store.base).Some? ==> Within(m.store.baseTrades, R.Recover(m.store.base).value.trades)
  }

  lemma RowsAreRegenerated(m: Plant)
    requires Inv(m) && Ledger(m) && Inherited(m) && Tidy(m.store)
    requires R.Recover(G.DurableEvents(m.store)).Some?
    ensures Within(m.store.tradeTable, R.Recover(G.DurableEvents(m.store)).value.trades)
  {
    hide G.EventsOf, G.TradesOf, G.Committed, R.Recover, Within, TableOf, R.Inv;
    var s, f := m.store, FirstLost(m.store.appended, m.store.fates);
    var start, all := R.Recover(s.base), G.TradesOf(s.appended[..f]);
    TidyTables(m);
    assert Covered(s, f);
    WithinConcat(s.baseTrades, start.value.trades, G.TradesOf(G.Committed(s.appended, s.fates[..f])), all);
    assert start.value.trades + all + [] == start.value.trades + all && s.tradeTable + [] == s.tradeTable;
    WithinExtends(s.tradeTable, start.value.trades + all, [], R.Recover(G.DurableEvents(s)).value.trades);
  }

  lemma InitHasLedger(m: Plant)
    requires Init(m)
    ensures Ledger(m) && Inherited(m)
  {
    FreshLedger(m);
    assert Keep<Trade>([], []) == [];
  }

  lemma {:induction false} BehaviorKeepsLedger(run: seq<Plant>, i: nat)
    requires Behavior(run) && i < |run|
    ensures Ledger(run[i])
  {
    hide Ledger, Next, Init, Inv;
    if i > 0 {
      BehaviorKeepsLedger(run, i - 1);
      BehaviorKeepsInv(run, i - 1);
      StepKeepsLedger(run[i - 1], run[i]);
    } else {
      InitHasLedger(run[0]);
    }
  }

  lemma StepKeepsInherited(m: Plant, m': Plant)
    requires Inv(m) && Ledger(m) && Inherited(m) && Tidy(m.store) && Next(m, m')
    ensures Inherited(m')
  {
    hide Inv, Ledger, R.Recover, G.Next, Apply, Throws, Within;
    if loaded :| Crash(m, m', loaded) {
      Reload(m, loaded);
      if R.Recover(loaded).Some? {
        RowsAreRegenerated(m);
      }
    } else if Background(m, m') {
      G.HistoryGrows(m.store, m'.store);
    }
  }

  lemma {:induction false} BehaviorKeepsInherited(run: seq<Plant>, i: nat)
    requires Behavior(run) && i < |run| && forall k :: 0 <= k < i ==> Tidy(run[k].store)
    ensures Inherited(run[i])
  {
    hide Ledger, Next, Init, Inv, Inherited, Tidy;
    if i > 0 {
      BehaviorKeepsInherited(run, i - 1);
      BehaviorKeepsLedger(run, i - 1);
      BehaviorKeepsInv(run, i - 1);
      StepKeepsInherited(run[i - 1], run[i]);
    } else {
      InitHasLedger(run[0]);
    }
  }

  /**
   As long as no lost event precedes a kept record, in any process, replaying the loaded events
   regenerates every row of the trades table, in order and no more often than it happened, at any
   moment of any behavior.
   */
  lemma TradesTableIsRegenerated(run: seq<Plant>, i: nat, loaded: seq<JournalEvent>)
    requires Behavior(run) && i < |run| && forall k :: 0 <= k <= i ==> Tidy(run[k].store)
    requires Loads(run[i].store.table, loaded) && R.Recover(loaded).Some?
    ensures Within(run[i].store.tradeTable, R.Recover(loaded).value.trades)
  {
    hide Ledger, Next, Inv, Inherited, Within, R.Recover, Loads, Tidy;
    BehaviorKeepsInherited(run, i);
    BehaviorKeepsLedger(run, i);
    BehaviorKeepsInv(run, i);
    Reload(run[i], loaded);
    RowsAreRegenerated(run[i]);
  }

  lemma CancelBack(a: seq<Trade>, b: seq<Trade>, c: seq<Trade>)
    ensures a + c == b + c <==> a == b
  {
    if a + c == b + c {
      assert |a| == |b|;
      assert a == (a + c)[..|a|] && b == (b + c)[..|b|];
    }
  }

  /**
   Clean shutdown. When the engine is between commands, everything is settled and no batch of this
   process was dropped, which is how stop() leaves it, then the table holds exactly the trades that
   replay regenerates if and only if it did when the process started.
   */
  lemma CleanStopKeepsTradesComplete(run: seq<Plant>, i: nat, loaded: seq<JournalEvent>)
    requires Behavior(run) && i < |run| && Loads(run[i].store.table, loaded)
    requires run[i].process.Up? && run[i].process.phase.Idle?
    requires run[i].store.done == run[i].store.enqueued && L.NoFailures(run[i].store)
    ensures R.Recover(loaded).Some? && R.Recover(run[i].store.base).Some?
    ensures run[i].store.tradeTable == R.Recover(loaded).value.trades
            <==> run[i].store.baseTrades == R.Recover(run[i].store.base).value.trades
  {
    hide Next, Covered, R.Recover, Loads, G.EventsOf, G.TradesOf, G.Committed, TableOf;
    BehaviorKeepsLedger(run, i);
    BehaviorKeepsInv(run, i);
    var m, s := run[i], run[i].store;
    Reload(m, loaded);
    L.DurableIsPrefix(s);
    G.CommittedAll(s.appended, s.fates);
    assert s.appended[..|s.fates|] == s.appended;
    CancelBack(s.baseTrades, R.Recover(s.base).value.trades, G.TradesOf(s.appended));
  }

  // ---------- When the table is complete ----------

  /** The trades of the journaled events that the engine has yet to publish. */
  function Unpublished(p: R.Process): seq<Trade> {
    if p.Down? then []
    else
      match p.phase
      case Idle => []
      case Stamped(_, _) => []
      case Journaled(c) => Apply(p.book, c).trades
      case Publishing(pending) => pending
  }

  /** The records end, after the first n, where nothing is owed: before an event, or with all published. */
  predicate Boundary(m: Plant, n: nat)
    requires n <= |m.store.appended|
  {
    if n < |m.store.appended| then m.store.appended[n].Event? else Unpublished(m.process) == []
  }

  /** Replay of a live engine's log brings back what it has published and what it has yet to publish. */
  lemma ReplayIsPublishedAndOwed(m: Plant)
    requires Inv(m) && Published(m) && R.Recover(G.Log(m.store)).Some?
    ensures var start, r := R.Recover(m.store.base), R.Recover(G.Log(m.store));
            start.Some? && r.value.trades == start.value.trades + G.TradesOf(m.store.appended) + Unpublished(m.process)
  {
    hide G.Committed, TableOf, L.Front, Apply, Throws, Rebuild;
    if m.process.Up? {
      LiveReplay(View(m));
    } else {
      OpenedView(m);
      var trades := R.Recover(m.store.base).value.trades;
      assert trades + [] + [] == trades;
    }
  }

  lemma LiveReplay(s: R.System)
    requires R.Inv(s) && s.process.Up? && R.Recover(s.log).Some?
    ensures R.Recover(s.log).value.trades == s.process.tradeLog + Unpublished(s.process)
  {
    hide Apply, Throws;
    assert s.process.tradeLog + [] == s.process.tradeLog;
  }

  /** What the events among the first n records owe beyond the trades among them is nothing exactly at a boundary. */
  lemma OwedIsNothingIff(m: Plant, n: nat)
    requires Inv(m) && Ledger(m) && n <= |m.store.appended| && R.Recover(LogUpTo(m.store, n)).Some?
    ensures var start, r := R.Recover(m.store.base), R.Recover(LogUpTo(m.store, n));
            var all := G.TradesOf(m.store.appended[..n]);
            && start.Some? && start.value.trades + all <= r.value.trades
            && (|r.value.trades| == |start.value.trades| + |all| <==> Boundary(m, n))
  {
    hide G.EventsOf, G.TradesOf, R.Recover, Inv, Unpublished;
    var s, rs := m.store, m.store.appended;
    assert Covered(s, n);
    if n < |rs| {
      assert CaughtUp(s, n);
      if rs[n].TradeRow? {
        assert rs[..n + 1] == rs[..n] + [rs[n]];
        G.SplitsPush(rs[..n], rs[n]);
        assert LogUpTo(s, n + 1) == LogUpTo(s, n);
        assert Covered(s, n + 1);
      }
    } else {
      assert rs[..n] == rs;
      ReplayIsPublishedAndOwed(m);
    }
  }

  /** No record before the first lost event was dropped, and the records up to there owe nothing. */
  predicate Whole(m: Plant) {
    var s := m.store;
    && |s.fates| <= |s.appended|
    && var f := FirstLost(s.appended, s.fates);
       (forall k :: 0 <= k < f ==> s.fates[k]) && Boundary(m, f)
  }

  predicate StartedComplete(m: Plant) {
    R.Recover(m.store.base).Some? && m.store.baseTrades == R.Recover(m.store.base).value.trades
  }

  lemma CompleteIff(m: Plant)
    requires Inv(m) && Ledger(m) && Inherited(m) && Tidy(m.store)
    requires R.Recover(G.DurableEvents(m.store)).Some?
    ensures m.store.tradeTable == R.Recover(G.DurableEvents(m.store)).value.trades
            <==> StartedComplete(m) && Whole(m)
  {
    hide G.EventsOf, G.TradesOf, G.Committed, R.Recover, Within, TableOf, R.Inv, Boundary, G.DurableEvents, LogUpTo;
    var s, f := m.store, FirstLost(m.store.appended, m.store.fates);
    TidyTables(m);
    OwedIsNothingIff(m, f);
    var start, all := R.Recover(s.base).value.trades, G.TradesOf(s.appended[..f]);
    var kept, replay := G.TradesOf(G.Committed(s.appended, s.fates[..f])), R.Recover(G.DurableEvents(s)).value.trades;
    WithinIsNoLonger(s.baseTrades, start);
    WithinIsNoLonger(kept, all);
    SumsMatch(s.baseTrades, kept, start, all, replay);
  }

  lemma SumsMatch(b: seq<Trade>, k: seq<Trade>, start: seq<Trade>, all: seq<Trade>, replay: seq<Trade>)
    requires |b| <= |start| && |k| <= |all| && start + all <= replay
    ensures b + k == replay <==> b == start && k == all && |replay| == |start| + |all|
  {
    if b + k == replay {
      assert b == replay[..|b|] && start == replay[..|start|];
      assert k == replay[|b|..] && all == replay[|start|..][..|all|];
    }
  }

  // ---------- Completeness over whole histories ----------

  /** The process dies, or ends, in step k. */
  ghost predicate DiesAt(run: seq<Plant>, k: nat)
    requires k + 1 < |run|
  {
    Dies(run[k], run[k + 1])
  }

  ghost predicate Dies(m: Plant, m': Plant) {
    exists loaded :: Crash(m, m', loaded)
  }

  /** Every process that ended before state i left the tables whole. */
  ghost predicate EndedWhole(run: seq<Plant>, i: nat)
    requires i < |run|
  {
    forall k :: 0 <= k < i && DiesAt(run, k) ==> Whole(run[k])
  }

  lemma CrashHandsOver(m: Plant, m': Plant, loaded: seq<JournalEvent>)
    requires Inv(m) && Ledger(m) && Inherited(m) && Tidy(m.store) && Crash(m, m', loaded)
    requires R.Recover(m'.store.base).Some?
    ensures R.Recover(m.store.base).Some?
    ensures StartedComplete(m') <==> StartedComplete(m) && Whole(m)
  {
    hide Inv, Inherited, R.Recover, Whole, Tidy, G.DurableEvents;
    Reload(m, loaded);
    CompleteIff(m);
    RecoveredFromBase(m);
  }

  lemma RecoveredFromBase(m: Plant)
    requires Inv(m) && Ledger(m) && Tidy(m.store) && R.Recover(G.DurableEvents(m.store)).Some?
    ensures R.Recover(m.store.base).Some?
  {
    hide G.EventsOf, G.TradesOf, G.Committed, R.Recover, TableOf, R.Inv, G.DurableEvents;
    TidyTables(m);
    assert Covered(m.store, FirstLost(m.store.appended, m.store.fates));
  }

  lemma StepKeepsBase(m: Plant, m': Plant)
    requires Inv(m) && Next(m, m') && !Dies(m, m')
    ensures m'.store.base == m.store.base && m'.store.baseTrades == m.store.baseTrades
  {
    hide Inv, G.Next, Apply, Throws, R.Recover;
    if Background(m, m') {
      G.HistoryGrows(m.store, m'.store);
    }
  }

  lemma {:induction false} StartedCompleteIff(run: seq<Plant>, i: nat)
    requires Behavior(run) && i < |run| && forall k :: 0 <= k < i ==> Tidy(run[k].store)
    requires R.Recover(run[i].store.base).Some?
    ensures StartedComplete(run[i]) <==> EndedWhole(run, i)
  {
    hide Ledger, Next, Inv, Inherited, Tidy, Whole, R.Recover, Crash;
    if i == 0 {
      FirstStartIsComplete(run[0]);
    } else {
      var m, m' := run[i - 1], run[i];
      BehaviorKeepsInv(run, i - 1);
      BehaviorKeepsLedger(run, i - 1);
      BehaviorKeepsInherited(run, i - 1);
      if loaded :| Crash(m, m', loaded) {
        CrashHandsOver(m, m', loaded);
        StartedCompleteIff(run, i - 1);
        assert DiesAt(run, i - 1);
      } else {
        StepKeepsBase(m, m');
        StartedCompleteIff(run, i - 1);
      }
    }
  }

  lemma FirstStartIsComplete(m: Plant)
    requires Init(m)
    ensures StartedComplete(m)
  {
  }

  /**
   The trades table is exactly what replaying the loaded events regenerates if and only if no trade
   row was dropped and neither the table as it stands nor any earlier process left off between an
   event and the last of its trades: for every state of every behavior in which no lost event
   precedes a kept record. A process that dies elsewhere than at such a boundary loses rows for good.
   */
  lemma TradesTableIsCompleteIff(run: seq<Plant>, i: nat, loaded: seq<JournalEvent>)
    requires Behavior(run) && i < |run| && forall k :: 0 <= k <= i ==> Tidy(run[k].store)
    requires Loads(run[i].store.table, loaded) && R.Recover(loaded).Some?
    ensures run[i].store.tradeTable == R.Recover(loaded).value.trades <==> EndedWhole(run, i) && Whole(run[i])
  {
    hide Ledger, Next, Inv, Inherited, Tidy, Whole, R.Recover, EndedWhole, Loads, G.DurableEvents;
    BehaviorKeepsInv(run, i);
    BehaviorKeepsLedger(run, i);
    BehaviorKeepsInherited(run, i);
    Reload(run[i], loaded);
    RecoveredFromBase(run[i]);
    StartedCompleteIff(run, i);
    CompleteIff(run[i]);
  }

  // ---------- The converse: rows that nothing regenerates ----------

  lemma CommittedEventsStep(rs: seq<G.Record>, fates: seq<bool>, ok: bool)
    requires |fates| < |rs| && (rs[|fates|].Event? ==> !ok)
    ensures G.EventsOf(G.Committed(rs, fates + [ok])) == G.EventsOf(G.Committed(rs, fates))
  {
    hide G.EventsOf, G.Committed;
    var kept := G.Committed(rs, fates);
    G.CommittedNext(rs, fates, ok);
    if ok {
      G.SplitsPush(kept, rs[|fates|]);
    } else {
      assert kept + [] == kept;
    }
  }

  /** When the events from f on are all dropped, the stored ones are those before f. */
  lemma {:induction false} EventsStop(rs: seq<G.Record>, fates: seq<bool>, f: nat, n: nat)
    requires f <= n <= |fates| <= |rs| && forall j :: f <= j < n && rs[j].Event? ==> !fates[j]
    ensures G.EventsOf(G.Committed(rs, fates[..n])) == G.EventsOf(G.Committed(rs, fates[..f]))
  {
    if f < n {
      hide G.EventsOf, G.Committed;
      EventsStop(rs, fates, f, n - 1);
      CommittedEventsStep(rs, fates[..n - 1], fates[n - 1]);
      assert fates[..n] == fates[..n - 1] + [fates[n - 1]];
    }
  }

  /** How many trades of the first n records were kept. */
  function KeptCount(rs: seq<G.Record>, fates: seq<bool>, n: nat): nat
    requires n <= |fates| <= |rs|
  {
    |G.TradesOf(G.Committed(rs, fates[..n]))|
  }

  lemma KeptCountStep(rs: seq<G.Record>, fates: seq<bool>, n: nat)
    requires n < |fates| <= |rs|
    ensures KeptCount(rs, fates, n + 1) == KeptCount(rs, fates, n) + if rs[n].TradeRow? && fates[n] then 1 else 0
  {
    hide G.TradesOf, G.Committed;
    CommittedTradesStep(rs, fates[..n], fates[n]);
    assert fates[..n + 1] == fates[..n] + [fates[n]];
  }

  lemma {:induction false} RowsGrow(rs: seq<G.Record>, fates: seq<bool>, f: nat, j: nat, n: nat)
    requires f <= j && f <= n <= |fates| <= |rs|
    ensures KeptCount(rs, fates, f) <= KeptCount(rs, fates, n)
    ensures j < n && fates[j] && rs[j].TradeRow? ==> KeptCount(rs, fates, f) < KeptCount(rs, fates, n)
  {
    hide KeptCount;
    if f < n {
      RowsGrow(rs, fates, f, j, n - 1);
      KeptCountStep(rs, fates, n - 1);
    }
  }

  /**
   When no record before the first lost event was dropped, no event after it was kept and the process
   started with a complete table, then replay regenerates every row if and only if no trade is kept
   after a lost event.
   */
  lemma RegeneratedIffTidy(run: seq<Plant>, i: nat, loaded: seq<JournalEvent>)
    requires Behavior(run) && i < |run| && Gapless(run[i]) && StartedComplete(run[i])
    requires var s := run[i].store; forall k :: 0 <= k < FirstLost(s.appended, s.fates) ==> s.fates[k]
    requires Loads(run[i].store.table, loaded) && R.Recover(loaded).Some?
    ensures Within(run[i].store.tradeTable, R.Recover(loaded).value.trades) <==> Tidy(run[i].store)
  {
    hide Ledger, Next, Inv, Within, R.Recover, Loads, G.DurableEvents, Gapless, Tidy;
    BehaviorKeepsLedger(run, i);
    BehaviorKeepsInv(run, i);
    var m := run[i];
    Reload(m, loaded);
    if Tidy(m.store) {
      WithinItself(m.store.baseTrades);
      RowsAreRegenerated(m);
    } else {
      StrayRowIsNotRegenerated(m);
    }
  }

  /** A trade kept after a lost event is one more than the trades before that event. */
  lemma StrayTables(m: Plant, a: nat, b: nat)
    requires Inv(m) && Gapless(m) && a < b < |m.store.fates|
    requires m.store.appended[a].Event? && !m.store.fates[a] && m.store.fates[b]
    requires var s := m.store; forall k :: 0 <= k < FirstLost(s.appended, s.fates) ==> s.fates[k]
    ensures var s, f := m.store, FirstLost(m.store.appended, m.store.fates);
            && f < |s.fates| && G.DurableEvents(s) == LogUpTo(s, f)
            && |s.tradeTable| > |s.baseTrades| + |G.TradesOf(s.appended[..f])|
  {
    hide G.EventsOf, G.TradesOf, G.Committed, TableOf, R.Inv;
    var rs, fates := m.store.appended, m.store.fates;
    var f := FirstLost(rs, fates);
    EventsStop(rs, fates, f, |fates|);
    RowsGrow(rs, fates, f, b, |fates|);
    G.CommittedAll(rs, fates[..f]);
    assert fates[..|fates|] == fates && rs[..|fates[..f]|] == rs[..f];
  }

  lemma StrayRowIsNotRegenerated(m: Plant)
    requires Inv(m) && Ledger(m) && Gapless(m) && StartedComplete(m) && !Tidy(m.store)
    requires var s := m.store; forall k :: 0 <= k < FirstLost(s.appended, s.fates) ==> s.fates[k]
    requires R.Recover(G.DurableEvents(m.store)).Some?
    ensures !Within(m.store.tradeTable, R.Recover(G.DurableEvents(m.store)).value.trades)
  {
    hide G.EventsOf, G.TradesOf, G.Committed, R.Recover, TableOf, Inv, Within, G.DurableEvents;
    Fits(m);
    var s, f := m.store, FirstLost(m.store.appended, m.store.fates);
    var a, b :| 0 <= a < b < |s.fates| && s.appended[a].Event? && s.fates[b] && !s.fates[a];
    StrayTables(m, a, b);
    assert CaughtUp(s, f);
    var replay := R.Recover(G.DurableEvents(s)).value.trades;
    if Within(s.tradeTable, replay) {
      WithinIsNoLonger(s.tradeTable, replay);
    }
  }
}
