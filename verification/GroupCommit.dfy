/**
 The asynchronous group-commit journal. Callers enqueue events and trades; a writer thread takes
 everything queued as one batch, commits it as one transaction that either succeeds as a whole or
 leaves no trace, and then advances the done counter either way. flush() waits for that counter.
 Each action is one atomic step. The tables may hold rows of earlier processes: `base` and
 `baseTrades` are what this process found when it opened them. `appended` and `fates` record the
 history of enqueued records and whether the batch of each was committed.
 */
module GroupCommit {
  import opened Trading
  import opened Journal
  import opened EventTable

  datatype Record = Event(event: JournalEvent) | TradeRow(trade: Trade)

  datatype Batch = Batch(events: seq<JournalEvent>, trades: seq<Trade>)

  datatype Writer = Waiting | Holding(batch: Batch) | Settled(batch: Batch) | Exited

  datatype Store = Store(
    eventQueue: seq<JournalEvent>,
    tradeQueue: seq<Trade>,
    enqueued: nat,
    done: nat,
    stopping: bool,
    writer: Writer,
    waiters: map<nat, nat>,
    table: Table,
    tradeTable: seq<Trade>,
    base: seq<JournalEvent>,
    baseTrades: seq<Trade>,
    appended: seq<Record>,
    fates: seq<bool>)

  function Size(b: Batch): nat {
    |b.events| + |b.trades|
  }

  function Repeat(v: bool, n: nat): (r: seq<bool>)
    ensures |r| == n && forall i :: 0 <= i < n ==> r[i] == v
  {
    seq(n, _ => v)
  }

  // ---------- Steps ----------

  /** A journal opened on tables that already hold any events, with distinct numbers, and any trades. */
  ghost predicate Init(s: Store) {
    && AllStorable(s.base) && DistinctKeys(s.base)
    && s == Store([], [], 0, 0, false, Waiting, map[], TableOf(s.base), s.baseTrades, s.base, s.baseTrades, [], [])
  }

  predicate Append(s: Store, s': Store, ev: JournalEvent) {
    && Storable(ev)
    && s' == s.(eventQueue := s.eventQueue + [ev], enqueued := s.enqueued + 1, appended := s.appended + [Event(ev)])
  }

  predicate RecordTrade(s: Store, s': Store, t: Trade) {
    s' == s.(tradeQueue := s.tradeQueue + [t], enqueued := s.enqueued + 1, appended := s.appended + [TradeRow(t)])
  }

  /** A flush call notes how much has been enqueued so far. */
  predicate FlushBegin(s: Store, s': Store, w: nat) {
    w !in s.waiters && s' == s.(waiters := s.waiters[w := s.enqueued])
  }

  predicate FlushReturn(s: Store, s': Store, w: nat) {
    && w in s.waiters && (s.done >= s.waiters[w] || s.stopping)
    && s' == s.(waiters := s.waiters - {w})
  }

  /** The writer swaps out both queues at once. */
  predicate TakeBatch(s: Store, s': Store) {
    && s.writer.Waiting? && (s.eventQueue != [] || s.tradeQueue != [])
    && s' == s.(eventQueue := [], tradeQueue := [], writer := Holding(Batch(s.eventQueue, s.tradeQueue)))
  }

  /** The table accepts a batch of rows: no sequence number is repeated or already present. */
  predicate Insertable(t: Table, events: seq<JournalEvent>) {
    && AllStorable(events) && DistinctKeys(events)
    && forall i :: 0 <= i < |events| ==> Key(events[i]) !in t
  }

  predicate CommitOk(s: Store, s': Store) {
    && s.writer.Holding? && Insertable(s.table, s.writer.batch.events)
    && s' == s.(writer := Settled(s.writer.batch),
                table := s.table + TableOf(s.writer.batch.events),
                tradeTable := s.tradeTable + s.writer.batch.trades,
                fates := s.fates + Repeat(true, Size(s.writer.batch)))
  }

  /** The transaction fails for any reason at all; its records are dropped. */
  predicate CommitFail(s: Store, s': Store) {
    && s.writer.Holding?
    && s' == s.(writer := Settled(s.writer.batch), fates := s.fates + Repeat(false, Size(s.writer.batch)))
  }

  /** done advances whether the commit succeeded or failed. */
  predicate Advance(s: Store, s': Store) {
    && s.writer.Settled?
    && s' == s.(writer := Waiting, done := s.done + Size(s.writer.batch))
  }

  predicate Stop(s: Store, s': Store) {
    s' == s.(stopping := true)
  }

  predicate Exit(s: Store, s': Store) {
    && s.writer.Waiting? && s.stopping && s.eventQueue == [] && s.tradeQueue == []
    && s' == s.(writer := Exited)
  }

  ghost predicate Next(s: Store, s': Store) {
    || (exists ev :: Append(s, s', ev))
    || (exists t :: RecordTrade(s, s', t))
    || (exists w :: FlushBegin(s, s', w))
    || (exists w :: FlushReturn(s, s', w))
    || TakeBatch(s, s')
    || CommitOk(s, s')
    || CommitFail(s, s')
    || Advance(s, s')
    || Stop(s, s')
    || Exit(s, s')
  }

  ghost predicate Behavior(run: seq<Store>) {
    && run != [] && Init(run[0])
    && forall i :: 0 <= i < |run| - 1 ==> Next(run[i], run[i + 1])
  }

  // ---------- Histories ----------

  function EventsOf(rs: seq<Record>): seq<JournalEvent> {
    if rs == [] then []
    else EventsOf(rs[..|rs| - 1]) + if rs[|rs| - 1].Event? then [rs[|rs| - 1].event] else []
  }

  function TradesOf(rs: seq<Record>): seq<Trade> {
    if rs == [] then []
    else TradesOf(rs[..|rs| - 1]) + if rs[|rs| - 1].TradeRow? then [rs[|rs| - 1].trade] else []
  }

  /** The records whose batch was committed. */
  function Committed(rs: seq<Record>, fates: seq<bool>): seq<Record>
    requires |fates| <= |rs|
  {
    if fates == [] then []
    else
      var last := |fates| - 1;
      Committed(rs, fates[..last]) + if fates[last] then [rs[last]] else []
  }

  lemma {:induction false} EventsConcat(a: seq<Record>, b: seq<Record>)
    ensures EventsOf(a + b) == EventsOf(a) + EventsOf(b)
  {
    if b == [] {
      assert a + b == a;
    } else {
      var last := |b| - 1;
      EventsConcat(a, b[..last]);
      assert (a + b)[..|a + b| - 1] == a + b[..last];
      assert (a + b)[|a + b| - 1] == b[last];
    }
  }

  lemma {:induction false} TradesConcat(a: seq<Record>, b: seq<Record>)
    ensures TradesOf(a + b) == TradesOf(a) + TradesOf(b)
  {
    if b == [] {
      assert a + b == a;
    } else {
      var last := |b| - 1;
      TradesConcat(a, b[..last]);
      assert (a + b)[..|a + b| - 1] == a + b[..last];
      assert (a + b)[|a + b| - 1] == b[last];
    }
  }

  lemma {:induction false} SplitsCount(rs: seq<Record>)
    ensures |EventsOf(rs)| + |TradesOf(rs)| == |rs|
  {
    if rs != [] {
      SplitsCount(rs[..|rs| - 1]);
    }
  }

  lemma SplitsPush(rs: seq<Record>, r: Record)
    ensures EventsOf(rs + [r]) == if r.Event? then EventsOf(rs) + [r.event] else EventsOf(rs)
    ensures TradesOf(rs + [r]) == if r.TradeRow? then TradesOf(rs) + [r.trade] else TradesOf(rs)
  {
  }

  lemma CommittedStep(rs: seq<Record>, fates: seq<bool>)
    requires 0 < |fates| <= |rs|
    ensures var last := |fates| - 1;
            var before := Committed(rs, fates[..last]);
            Committed(rs, fates) == if fates[last] then before + [rs[last]] else before
  {
  }

  /** Later records do not change what was committed earlier. */
  lemma {:induction false} CommittedLocal(rs: seq<Record>, more: seq<Record>, fates: seq<bool>)
    requires |fates| <= |rs|
    ensures Committed(rs + more, fates) == Committed(rs, fates)
  {
    if fates != [] {
      CommittedLocal(rs, more, fates[..|fates| - 1]);
    }
  }

  lemma CommittedNext(rs: seq<Record>, fates: seq<bool>, ok: bool)
    requires |fates| < |rs|
    ensures Committed(rs, fates + [ok]) == Committed(rs, fates) + if ok then [rs[|fates|]] else []
  {
    assert (fates + [ok])[..|fates|] == fates;
  }

  /** A batch is committed as a whole or not at all. */
  lemma {:induction false} CommittedBatch(rs: seq<Record>, fates: seq<bool>, ok: bool, n: nat)
    requires |fates| + n <= |rs|
    ensures Committed(rs, fates + Repeat(ok, n)) ==
            Committed(rs, fates) + if ok then rs[|fates|..|fates| + n] else []
  {
    hide Committed;
    var d := |fates|;
    if n == 0 {
      assert fates + Repeat(ok, n) == fates && rs[d..d] == [];
    } else {
      var most, front := fates + Repeat(ok, n - 1), rs[d..d + n - 1];
      CommittedBatch(rs, fates, ok, n - 1);
      CommittedNext(rs, most, ok);
      assert fates + Repeat(ok, n) == most + [ok];
      if ok {
        assert rs[d..d + n] == front + [rs[d + n - 1]];
        assert Committed(rs, fates) + front + [rs[d + n - 1]] == Committed(rs, fates) + (front + [rs[d + n - 1]]);
      }
    }
  }

  /** Without failed batches, the committed records are simply the settled ones, in order. */
  lemma {:induction false} CommittedAll(rs: seq<Record>, fates: seq<bool>)
    requires |fates| <= |rs| && forall i :: 0 <= i < |fates| ==> fates[i]
    ensures Committed(rs, fates) == rs[..|fates|]
  {
    if fates != [] {
      CommittedAll(rs, fates[..|fates| - 1]);
    }
  }

  /** A stretch committed whole at the front stays at the front. */
  lemma {:induction false} CommittedFront(rs: seq<Record>, fates: seq<bool>, n: nat)
    requires n <= |fates| <= |rs| && forall i :: 0 <= i < n ==> fates[i]
    ensures rs[..n] <= Committed(rs, fates)
    ensures n <= |Committed(rs, fates)| && Committed(rs, fates)[..n] == rs[..n]
  {
    if n < |fates| {
      CommittedFront(rs, fates[..|fates| - 1], n);
    } else {
      CommittedAll(rs, fates);
    }
  }

  lemma {:induction false} CommittedMember(rs: seq<Record>, fates: seq<bool>, i: nat)
    requires i < |fates| <= |rs| && fates[i]
    ensures rs[i] in Committed(rs, fates)
  {
    if i < |fates| - 1 {
      CommittedMember(rs, fates[..|fates| - 1], i);
    }
  }

  lemma {:induction false} EventMember(rs: seq<Record>, e: JournalEvent)
    requires Event(e) in rs
    ensures e in EventsOf(rs)
  {
    var last := |rs| - 1;
    if rs[last] != Event(e) {
      assert rs == rs[..last] + [rs[last]];
      EventMember(rs[..last], e);
    }
  }

  // ---------- The invariant ----------

  function InFlight(s: Store): nat {
    if s.writer.Holding? || s.writer.Settled? then Size(s.writer.batch) else 0
  }

  /** Everything ever journaled: what was found in the table and what this process appended. */
  function Log(s: Store): seq<JournalEvent> {
    s.base + EventsOf(s.appended)
  }

  function DurableEvents(s: Store): seq<JournalEvent>
    requires |s.fates| <= |s.appended|
  {
    s.base + EventsOf(Committed(s.appended, s.fates))
  }

  ghost predicate Counting(s: Store) {
    && s.enqueued == |s.appended|
    && s.done + InFlight(s) <= |s.appended|
    && |s.fates| == s.done + (if s.writer.Settled? then InFlight(s) else 0)
    && (forall w :: w in s.waiters ==> s.waiters[w] <= s.enqueued)
  }

  ghost predicate Queued(s: Store)
    requires s.done + InFlight(s) <= |s.appended|
  {
    var a, b := s.done, s.done + InFlight(s);
    && s.eventQueue == EventsOf(s.appended[b..]) && s.tradeQueue == TradesOf(s.appended[b..])
    && (s.writer.Holding? || s.writer.Settled? ==>
          s.writer.batch == Batch(EventsOf(s.appended[a..b]), TradesOf(s.appended[a..b])))
  }

  ghost predicate Persisted(s: Store)
    requires |s.fates| <= |s.appended|
  {
    && AllStorable(DurableEvents(s)) && DistinctKeys(DurableEvents(s))
    && s.table == TableOf(DurableEvents(s))
    && s.tradeTable == s.baseTrades + TradesOf(Committed(s.appended, s.fates))
  }

  ghost predicate Inv(s: Store) {
    Counting(s) && Queued(s) && Persisted(s)
  }

  /** In every state, enqueued records are done, in flight or still queued. */
  lemma CountersAddUp(s: Store)
    requires Inv(s)
    ensures s.enqueued == s.done + InFlight(s) + |s.eventQueue| + |s.tradeQueue|
  {
    SplitsCount(s.appended[s.done + InFlight(s)..]);
  }

  // ---------- Preservation ----------

  /** Enqueuing a record of either kind. */
  lemma EnqueueKeepsInv(s: Store, s': Store, r: Record)
    requires Inv(s)
    requires s' == s.(eventQueue := s.eventQueue + (if r.Event? then [r.event] else []),
                      tradeQueue := s.tradeQueue + (if r.TradeRow? then [r.trade] else []),
                      enqueued := s.enqueued + 1, appended := s.appended + [r])
    ensures Inv(s')
  {
    hide EventsOf, TradesOf, Committed, TableOf;
    var a, b := s.done, s.done + InFlight(s);
    SplitsPush(s.appended[b..], r);
    assert s'.appended[b..] == s.appended[b..] + [r];
    assert s'.appended[a..b] == s.appended[a..b];
    CommittedLocal(s.appended, [r], s.fates);
  }

  lemma TakeKeepsInv(s: Store, s': Store)
    requires Inv(s) && TakeBatch(s, s')
    ensures Inv(s')
  {
    hide Committed, TableOf;
    var a := s.done;
    SplitsCount(s.appended[a..]);
    var b := a + InFlight(s');
    assert b == |s.appended|;
    assert s.appended[a..b] == s.appended[a..] && s.appended[b..] == [];
  }

  lemma {:induction false} TableConcat(a: seq<JournalEvent>, b: seq<JournalEvent>)
    requires AllStorable(a) && AllStorable(b)
    ensures AllStorable(a + b) && TableOf(a + b) == TableOf(a) + TableOf(b)
  {
    if b == [] {
      assert a + b == a;
    } else {
      TableConcat(a, b[..|b| - 1]);
      assert (a + b)[..|a + b| - 1] == a + b[..|b| - 1];
    }
  }

  /** The fate of the batch in flight is appended to the history. */
  lemma SettleHistory(s: Store, ok: bool)
    requires Inv(s) && s.writer.Holding?
    ensures var fates := s.fates + Repeat(ok, Size(s.writer.batch));
            && |fates| <= |s.appended|
            && var kept := Committed(s.appended, fates);
               && s.base + EventsOf(kept) == DurableEvents(s) + (if ok then s.writer.batch.events else [])
               && s.baseTrades + TradesOf(kept) == s.tradeTable + (if ok then s.writer.batch.trades else [])
  {
    hide EventsOf, TradesOf, Committed, TableOf;
    var a, b := s.done, s.done + InFlight(s);
    CommittedBatch(s.appended, s.fates, ok, b - a);
    var before, batch := Committed(s.appended, s.fates), s.appended[a..b];
    EventsConcat(before, batch);
    TradesConcat(before, batch);
    if !ok {
      assert before + [] == before;
    }
  }

  lemma CommitOkKeepsInv(s: Store, s': Store)
    requires Inv(s) && CommitOk(s, s')
    ensures Inv(s')
  {
    hide EventsOf, TradesOf, Committed, TableOf;
    var old', new' := DurableEvents(s), s.writer.batch.events;
    SettleHistory(s, true);
    TableConcat(old', new');
    forall i | 0 <= i < |old'| ensures Key(old'[i]) in s.table {
      TableHolds(old', i);
    }
    assert DistinctKeys(old' + new');
  }

  lemma CommitFailKeepsInv(s: Store, s': Store)
    requires Inv(s) && CommitFail(s, s')
    ensures Inv(s')
  {
    hide EventsOf, TradesOf, Committed, TableOf;
    SettleHistory(s, false);
    assert DurableEvents(s) + [] == DurableEvents(s);
    assert s.tradeTable + [] == s.tradeTable;
  }

  lemma AdvanceKeepsInv(s: Store, s': Store)
    requires Inv(s) && Advance(s, s')
    ensures Inv(s')
  {
    hide EventsOf, TradesOf, Committed, TableOf;
  }

  /** Steps of flush callers, of the destructor and the writer's exit touch neither queues nor tables. */
  lemma ControlKeepsInv(s: Store, s': Store)
    requires Inv(s) && s' == s.(waiters := s'.waiters, stopping := s'.stopping, writer := s'.writer)
    requires s'.writer == s.writer || (s.writer.Waiting? && s'.writer.Exited?)
    requires forall w :: w in s'.waiters ==> s'.waiters[w] <= s.enqueued
    ensures Inv(s')
  {
    hide EventsOf, TradesOf, Committed, TableOf;
    assert InFlight(s') == InFlight(s) && DurableEvents(s') == DurableEvents(s);
  }

  lemma ControlSteps(s: Store, s': Store)
    requires Inv(s)
    requires (exists w :: FlushBegin(s, s', w) || FlushReturn(s, s', w)) || Stop(s, s') || Exit(s, s')
    ensures Inv(s')
  {
    hide Queued, Persisted;
    ControlKeepsInv(s, s');
  }

  lemma NextKeepsInv(s: Store, s': Store)
    requires Inv(s) && Next(s, s')
    ensures Inv(s')
  {
    hide Inv, TakeBatch, CommitOk, CommitFail, Advance, Stop, Exit, FlushBegin, FlushReturn;
    if ev :| Append(s, s', ev) {
      assert s.tradeQueue + [] == s.tradeQueue;
      EnqueueKeepsInv(s, s', Event(ev));
    } else if t :| RecordTrade(s, s', t) {
      assert s.eventQueue + [] == s.eventQueue;
      EnqueueKeepsInv(s, s', TradeRow(t));
    } else if TakeBatch(s, s') {
      TakeKeepsInv(s, s');
    } else if CommitOk(s, s') {
      CommitOkKeepsInv(s, s');
    } else if CommitFail(s, s') {
      CommitFailKeepsInv(s, s');
    } else if Advance(s, s') {
      AdvanceKeepsInv(s, s');
    } else {
      ControlSteps(s, s');
    }
  }

  lemma InitHasInv(s: Store)
    requires Init(s)
    ensures Inv(s)
  {
    assert s.base + [] == s.base && s.baseTrades + [] == s.baseTrades;
  }

  lemma {:induction false} BehaviorKeepsInv(run: seq<Store>, i: nat)
    requires Behavior(run) && i < |run|
    ensures Inv(run[i])
  {
    hide Inv, Next, Init;
    if i > 0 {
      BehaviorKeepsInv(run, i - 1);
      NextKeepsInv(run[i - 1], run[i]);
    } else {
      InitHasInv(run[0]);
    }
  }

  lemma EnqueuedAddsUp(run: seq<Store>, i: nat)
    requires Behavior(run) && i < |run|
    ensures var s := run[i]; s.enqueued == s.done + InFlight(s) + |s.eventQueue| + |s.tradeQueue|
  {
    BehaviorKeepsInv(run, i);
    CountersAddUp(run[i]);
  }

  /** The writer exits only when everything enqueued has been settled. */
  lemma ExitDrains(run: seq<Store>, i: nat, s': Store)
    requires Behavior(run) && i < |run| && Exit(run[i], s')
    ensures run[i].done == run[i].enqueued
  {
    BehaviorKeepsInv(run, i);
    CountersAddUp(run[i]);
  }

  /** The history of appended records only grows. */
  lemma HistoryGrows(s: Store, s': Store)
    requires Next(s, s')
    ensures s.appended <= s'.appended && s.fates <= s'.fates && s'.base == s.base && s'.baseTrades == s.baseTrades
  {
    hide TableOf, Insertable, Storable, Size;
  }

  /** A pending flush keeps its target. */
  lemma WaiterStays(s: Store, s': Store, w: nat)
    requires Next(s, s') && w in s.waiters && w in s'.waiters
    ensures s'.waiters[w] == s.waiters[w]
  {
    hide TableOf, Insertable, Storable, Size;
  }

  lemma Enqueued(s: Store)
    requires Inv(s)
    ensures s.enqueued == |s.appended|
  {
  }

  lemma {:induction false} EventsPrefix(rs: seq<Record>, k: nat)
    requires k <= |rs|
    ensures EventsOf(rs[..k]) <= EventsOf(rs)
  {
    hide EventsOf;
    EventsConcat(rs[..k], rs[k..]);
    assert rs == rs[..k] + rs[k..];
  }
}
