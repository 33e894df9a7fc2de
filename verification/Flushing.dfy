/** Which records are durable, and what a flush that returns has settled. */
module Flushing {
  import opened Trading
  import opened Journal
  import opened EventTable
  import opened GroupCommit

  // ---------- Which events are durable ----------

  /** An event can be read back from the table. */
  predicate Durable(t: Table, e: JournalEvent) {
    Storable(e) && Key(e) in t && WellTyped(t[Key(e)]) && Decode(t[Key(e)]) == e
  }

  lemma HeldIsDurable(s: Store, e: JournalEvent)
    requires Inv(s) && e in DurableEvents(s)
    ensures Durable(s.table, e)
  {
    hide EventsOf, TradesOf, Committed, TableOf;
    var events := DurableEvents(s);
    var j :| 0 <= j < |events| && events[j] == e;
    TableHolds(events, j);
    RowRoundTrip(e);
  }

  lemma CommittedIsHeld(s: Store, k: nat)
    requires Inv(s) && k < |s.fates| && s.fates[k]
    ensures s.appended[k].Event? ==> s.appended[k].event in DurableEvents(s)
    ensures s.appended[k].TradeRow? ==> s.appended[k].trade in s.tradeTable
  {
    hide EventsOf, TradesOf, Committed, TableOf;
    CommittedMember(s.appended, s.fates, k);
    if s.appended[k].Event? {
      EventMember(Committed(s.appended, s.fates), s.appended[k].event);
    } else {
      TradeMember(Committed(s.appended, s.fates), s.appended[k].trade);
    }
  }

  lemma {:induction false} TradeMember(rs: seq<Record>, t: Trade)
    requires TradeRow(t) in rs
    ensures t in TradesOf(rs)
  {
    var last := |rs| - 1;
    if rs[last] != TradeRow(t) {
      assert rs == rs[..last] + [rs[last]];
      TradeMember(rs[..last], t);
    }
  }

  lemma {:induction false} EventOrigin(rs: seq<Record>, e: JournalEvent)
    requires e in EventsOf(rs)
    ensures Event(e) in rs
  {
    var last := |rs| - 1;
    assert rs == rs[..last] + [rs[last]];
    if e in EventsOf(rs[..last]) {
      EventOrigin(rs[..last], e);
    }
  }

  lemma {:induction false} CommittedOrigin(rs: seq<Record>, fates: seq<bool>, r: Record)
    requires |fates| <= |rs| && r in Committed(rs, fates)
    ensures exists i :: 0 <= i < |fates| && fates[i] && rs[i] == r
  {
    var last := |fates| - 1;
    if r in Committed(rs, fates[..last]) {
      CommittedOrigin(rs, fates[..last], r);
      var i :| 0 <= i < last && fates[..last][i] && rs[i] == r;
      assert fates[i];
    }
  }

  /** No two events of a log carry the same sequence number. */
  predicate DistinctNumbers(log: seq<JournalEvent>) {
    forall i, j :: 0 <= i < j < |log| ==> log[i].seqNo != log[j].seqNo
  }

  /** Where an appended event is in the log. */
  function Position(s: Store, k: nat): nat
    requires k <= |s.appended|
  {
    |s.base| + |EventsOf(s.appended[..k])|
  }

  lemma PositionOf(s: Store, k: nat)
    requires k < |s.appended| && s.appended[k].Event?
    ensures Position(s, k) < |Log(s)| && Log(s)[Position(s, k)] == s.appended[k].event
  {
    var rs := s.appended;
    assert rs[..k + 1] == rs[..k] + [rs[k]];
    SplitsPush(rs[..k], rs[k]);
    EventsPrefix(rs, k + 1);
  }

  lemma PositionsRise(s: Store, i: nat, j: nat)
    requires i < j <= |s.appended| && s.appended[i].Event?
    ensures Position(s, i) < Position(s, j)
  {
    hide EventsOf;
    var rs := s.appended;
    assert rs[..j][..i + 1] == rs[..i] + [rs[i]];
    SplitsPush(rs[..i], rs[i]);
    EventsPrefix(rs[..j], i + 1);
  }

  lemma BaseNumbersDiffer(s: Store, j: nat, k: nat)
    requires DistinctNumbers(Log(s)) && j < |s.base| && k < |s.appended| && s.appended[k].Event?
    ensures s.base[j].seqNo != s.appended[k].event.seqNo
  {
    hide EventsOf;
    PositionOf(s, k);
    assert Log(s)[j] == s.base[j];
  }

  lemma AppendedNumbersDiffer(s: Store, i: nat, k: nat)
    requires DistinctNumbers(Log(s)) && i < k < |s.appended| && s.appended[i].Event? && s.appended[k].Event?
    ensures s.appended[i].event.seqNo != s.appended[k].event.seqNo
  {
    hide EventsOf;
    PositionOf(s, i);
    PositionOf(s, k);
    PositionsRise(s, i, k);
  }

  lemma HeldWasCommitted(s: Store, k: nat)
    requires Inv(s) && DistinctNumbers(Log(s))
    requires k < |s.fates| && s.appended[k].Event? && Durable(s.table, s.appended[k].event)
    ensures s.fates[k]
  {
    hide EventsOf, TradesOf, Committed, TableOf, DistinctNumbers;
    var e, events := s.appended[k].event, DurableEvents(s);
    TableIsTyped(events);
    var j :| 0 <= j < |events| && Key(events[j]) == Key(e);
    assert events[j].seqNo == e.seqNo;
    forall i | 0 <= i < |s.base| ensures s.base[i].seqNo != e.seqNo {
      BaseNumbersDiffer(s, i, k);
    }
    assert events[j] in EventsOf(Committed(s.appended, s.fates));
    EventOrigin(Committed(s.appended, s.fates), events[j]);
    CommittedOrigin(s.appended, s.fates, Event(events[j]));
    var i: nat :| i < |s.fates| && s.fates[i] && s.appended[i] == Event(events[j]);
    if i < k {
      AppendedNumbersDiffer(s, i, k);
    } else if k < i {
      AppendedNumbersDiffer(s, k, i);
    }
  }

  /** An event with a number of its own is durable if and only if its batch was committed. */
  lemma DurableIffCommitted(s: Store, k: nat)
    requires Inv(s) && DistinctNumbers(Log(s))
    requires k < |s.fates| && s.appended[k].Event?
    ensures Durable(s.table, s.appended[k].event) <==> s.fates[k]
  {
    hide EventsOf, TradesOf, Committed, TableOf, DistinctNumbers;
    if s.fates[k] {
      CommittedIsHeld(s, k);
      HeldIsDurable(s, s.appended[k].event);
    } else if Durable(s.table, s.appended[k].event) {
      HeldWasCommitted(s, k);
    }
  }

  // ---------- flush() ----------

  /** From a flush call on, while it is pending: its target is what had been appended at the call. */
  lemma {:induction false} PendingFlush(run: seq<Store>, a: nat, b: nat, w: nat)
    requires Behavior(run) && a < b < |run| && FlushBegin(run[a], run[a + 1], w)
    requires forall k :: a < k <= b ==> w in run[k].waiters
    ensures run[b].waiters[w] == |run[a].appended| && run[a].appended <= run[b].appended
    decreases b
  {
    hide Next, Inv;
    if b == a + 1 {
      BehaviorKeepsInv(run, a);
      Enqueued(run[a]);
      HistoryGrows(run[a], run[b]);
    } else {
      PendingFlush(run, a, b - 1, w);
      HistoryGrows(run[b - 1], run[b]);
      WaiterStays(run[b - 1], run[b], w);
    }
  }

  /**
   flush(), from call to return outside teardown: every record appended before the call is settled;
   an event among them is durable exactly if its batch was committed, and a trade among them is in
   the trades table if its batch was, that table being exactly the committed trades in order.
   */
  lemma FlushSettles(run: seq<Store>, a: nat, b: nat, s': Store, w: nat, k: nat)
    requires Behavior(run) && a < b < |run| && FlushBegin(run[a], run[a + 1], w)
    requires forall i :: a < i <= b ==> w in run[i].waiters
    requires FlushReturn(run[b], s', w) && !run[b].stopping
    requires DistinctNumbers(Log(run[b])) && k < |run[a].appended|
    ensures run[a].appended <= run[b].appended && k < run[b].done <= |run[b].fates| <= |run[b].appended|
    ensures var s, r := run[b], run[a].appended[k];
            && (r.Event? ==> (Durable(s.table, r.event) <==> s.fates[k]))
            && (r.TradeRow? && s.fates[k] ==> r.trade in s.tradeTable)
            && s.tradeTable == s.baseTrades + TradesOf(Committed(s.appended, s.fates))
  {
    hide Next, TradesOf, EventsOf, Committed, TableOf;
    PendingFlush(run, a, b, w);
    BehaviorKeepsInv(run, b);
    var s := run[b];
    if s.appended[k].Event? {
      DurableIffCommitted(s, k);
    } else if s.fates[k] {
      CommittedIsHeld(s, k);
    }
  }

  /**
   A flush that returns does not mean that its records were committed: here the only batch fails,
   done advances all the same, and flush returns with the event nowhere in the table.
   */
  lemma FlushCanReturnUncommitted() returns (run: seq<Store>, after: Store)
    ensures Behavior(run)
    ensures var s := run[|run| - 1];
            && FlushReturn(s, after, 0) && !s.stopping && s.waiters[0] == 1
            && s.appended != [] && s.appended[0].Event? && !Durable(s.table, s.appended[0].event)
  {
    var e := MakeCancelEvent(5, 1, 0);
    var batch := Batch([e], []);
    var s0 := Store([], [], 0, 0, false, Waiting, map[], map[], [], [], [], [], []);
    var s1 := s0.(eventQueue := [e], enqueued := 1, appended := [Event(e)]);
    var s2 := s1.(waiters := map[0 := 1]);
    var s3 := s2.(eventQueue := [], writer := Holding(batch));
    var s4 := s3.(writer := Settled(batch), fates := Repeat(false, 1));
    var s5 := s4.(writer := Waiting, done := 1);
    assert Append(s0, s1, e);
    assert FlushBegin(s1, s2, 0);
    assert TakeBatch(s2, s3) && CommitFail(s3, s4) && Advance(s4, s5);
    run := [s0, s1, s2, s3, s4, s5];
    after := s5.(waiters := s5.waiters - {0});
  }
}
