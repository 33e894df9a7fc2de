/** The persisted form of a command, and rebuilding the command from it. */
module Journal {
  import opened Trading
  import opened PriceTime
  import opened MatchingLaws
  import opened Orders

  datatype CommandType = SUBMIT | CANCEL

  /** A flat record that maps onto one database row. */
  datatype JournalEvent = JournalEvent(
    seqNo: nat,
    command: CommandType,
    kind: OrderKind,
    orderId: OrderId,
    traderId: TraderId,
    side: Side,
    quantity: int,
    price: real,
    epochNanos: int)

  function MakeSubmitEvent(o: OrderState, seqNo: nat, now: int): JournalEvent {
    JournalEvent(seqNo, SUBMIT, if o.terms.Limit? then LIMIT else MARKET, o.id, o.trader, o.side, o.quantity,
                 if o.terms.Limit? then o.terms.price else 0.0, now)
  }

  /** A cancel sets only the id; the order fields keep their defaults. */
  function MakeCancelEvent(id: OrderId, seqNo: nat, now: int): JournalEvent {
    JournalEvent(seqNo, CANCEL, LIMIT, id, 0, BUY, 0, 0.0, now)
  }

  function MakeEvent(c: Command, seqNo: nat, now: int): JournalEvent {
    match c
    case Submit(o) => MakeSubmitEvent(o, seqNo, now)
    case Cancel(id) => MakeCancelEvent(id, seqNo, now)
  }

  /** The command an event replays as, or nothing where the factory would throw. */
  function Rebuild(ev: JournalEvent): Option<Command> {
    match ev.command
    case SUBMIT =>
      if ev.quantity <= 0 || (ev.kind.LIMIT? && ev.price <= 0.0) then None
      else Some(Submit(Created(ev.kind, ev.orderId, ev.traderId, ev.side, ev.quantity, ev.price)))
    case CANCEL => Some(Cancel(ev.orderId))
  }

  /** The command a journaled command comes back as: new, and whole again. */
  function Restored(c: Command): Command {
    if c.Submit? then Submit(c.order.(remaining := c.order.quantity, status := NEW)) else c
  }

  /**
   Every valid command can be rebuilt from its event, whatever number and time it was stamped with.
   Of an order the event keeps everything but what was already filled and its status.
   */
  lemma RebuildsWhatWasJournaled(c: Command, seqNo: nat, now: int)
    requires ValidCommand(c)
    ensures Rebuild(MakeEvent(c, seqNo, now)) == Some(Restored(c))
    ensures MakeEvent(c, seqNo, now).seqNo == seqNo
  {
  }

  // ---------- Matching does not look at the status of an incoming order ----------

  lemma {:induction false} MatchIgnoresStatus(book: Book, o: OrderState, st: OrderStatus)
    ensures var m := Match(book, o);
            Match(book, o.(status := st)) == Matched(m.book, m.incoming.(status := st), m.trades)
    decreases |book|
  {
    var o' := o.(status := st);
    assert Stops(book, o') <==> Stops(book, o);
    if !Stops(book, o) {
      var i, qty := BestAt(book, o), TradeQty(book, o);
      if qty == book[i].remaining {
        MatchIgnoresStatus(RemoveAt(book, i), Reduce(o, qty), st);
        assert Reduce(o', qty) == Reduce(o, qty).(status := st);
      }
    }
  }

  lemma AddIgnoresStatus(book: Book, o: OrderState, st: OrderStatus)
    ensures Add(book, o.(status := st)) == Add(book, o)
  {
    MatchIgnoresStatus(book, o, st);
  }

  // ---------- Logs ----------

  predicate Rebuildable(log: seq<JournalEvent>) {
    forall i :: 0 <= i < |log| ==> Rebuild(log[i]).Some?
  }

  function Commands(log: seq<JournalEvent>): (cs: seq<Command>)
    requires Rebuildable(log)
    ensures |cs| == |log| && forall i :: 0 <= i < |log| ==> cs[i] == Rebuild(log[i]).value
  {
    seq(|log|, i requires 0 <= i < |log| => Rebuild(log[i]).value)
  }

  lemma RebuiltIsValid(log: seq<JournalEvent>)
    requires Rebuildable(log)
    ensures ValidCommands(Commands(log))
  {
  }

  /** Sequence numbers rise strictly along the log. */
  predicate Rising(log: seq<JournalEvent>) {
    forall i, j :: 0 <= i < j < |log| ==> log[i].seqNo < log[j].seqNo
  }

  /** Sequence numbers are 1, 2, 3, ... */
  predicate Numbered(log: seq<JournalEvent>) {
    forall i :: 0 <= i < |log| ==> log[i].seqNo == i + 1
  }

  function LastSeq(log: seq<JournalEvent>): nat {
    if log == [] then 0 else log[|log| - 1].seqNo
  }

  /** The elements a mask selects, in their order. */
  function Keep<T>(log: seq<T>, mask: seq<bool>): seq<T>
    requires |mask| == |log|
  {
    if log == [] then []
    else
      var last := |log| - 1;
      var kept := Keep(log[..last], mask[..last]);
      if mask[last] then kept + [log[last]] else kept
  }

  lemma {:induction false} KeepMembers<T>(log: seq<T>, mask: seq<bool>)
    requires |mask| == |log|
    ensures |Keep(log, mask)| <= |log|
    ensures forall e :: e in Keep(log, mask) ==> e in log
  {
    if log != [] {
      KeepMembers(log[..|log| - 1], mask[..|log| - 1]);
    }
  }

  lemma {:induction false} KeepConcat<T>(a: seq<T>, b: seq<T>, ma: seq<bool>, mb: seq<bool>)
    requires |ma| == |a| && |mb| == |b|
    ensures Keep(a + b, ma + mb) == Keep(a, ma) + Keep(b, mb)
  {
    if b == [] {
      assert a + b == a && ma + mb == ma;
    } else {
      var last := |b| - 1;
      KeepConcat(a, b[..last], ma, mb[..last]);
      assert (a + b)[..|a + b| - 1] == a + b[..last] && (ma + mb)[..|a + b| - 1] == ma + mb[..last];
    }
  }

  /** Selecting events leaves rising numbers rising. */
  lemma {:induction false} KeepRises(log: seq<JournalEvent>, mask: seq<bool>)
    requires |mask| == |log| && Rising(log)
    ensures Rising(Keep(log, mask)) && LastSeq(Keep(log, mask)) <= LastSeq(log)
  {
    if log != [] {
      var last := |log| - 1;
      var before := log[..last];
      KeepRises(before, mask[..last]);
      KeepMembers(before, mask[..last]);
      var kept := Keep(before, mask[..last]);
      forall i | 0 <= i < |kept| ensures kept[i].seqNo < log[last].seqNo {
        assert kept[i] in before;
      }
    }
  }

  lemma KeepRebuildable(log: seq<JournalEvent>, mask: seq<bool>)
    requires |mask| == |log| && Rebuildable(log)
    ensures Rebuildable(Keep(log, mask))
  {
    KeepMembers(log, mask);
    var kept := Keep(log, mask);
    forall i | 0 <= i < |kept| ensures Rebuild(kept[i]).Some? {
      assert kept[i] in log;
    }
  }

  /** A stretch selected whole at the front stays at the front. */
  lemma {:induction false} KeepFront<T>(log: seq<T>, mask: seq<bool>, n: nat)
    requires n <= |mask| == |log| && forall i :: 0 <= i < n ==> mask[i]
    ensures log[..n] <= Keep(log, mask)
  {
    if n < |log| {
      var last := |log| - 1;
      KeepFront(log[..last], mask[..last], n);
      assert log[..last][..n] == log[..n];
    } else if log != [] {
      var last := |log| - 1;
      KeepFront(log[..last], mask[..last], last);
      KeepMembers(log[..last], mask[..last]);
      assert log == log[..last] + [log[last]];
    }
  }

  /** Nothing is selected after something was not. */
  predicate Truncates(mask: seq<bool>) {
    forall i, j :: 0 <= i < j < |mask| && mask[j] ==> mask[i]
  }

  lemma {:induction false} TruncatedIsPrefix<T>(log: seq<T>, mask: seq<bool>)
    requires |mask| == |log| && Truncates(mask)
    ensures Keep(log, mask) <= log
  {
    if log != [] {
      var last := |log| - 1;
      if mask[last] {
        KeepFront(log, mask, |log|);
        KeepMembers(log, mask);
      } else {
        TruncatedIsPrefix(log[..last], mask[..last]);
      }
    }
  }
}
