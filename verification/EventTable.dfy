/**
 The durable form of the journal: rows of the events table, keyed by sequence number as a signed
 64-bit column, and reading them back in ascending order.
 */
module EventTable {
  import opened Trading
  import opened Orders
  import opened Journal

  // ---------- Column encodings ----------

  function EncodeCommand(t: CommandType): int { if t.SUBMIT? then 0 else 1 }
  function DecodeCommand(v: int): CommandType { if v == 0 then SUBMIT else CANCEL }
  function EncodeKind(k: OrderKind): int { if k.LIMIT? then 1 else 0 }
  function DecodeKind(v: int): OrderKind { if v == 1 then LIMIT else MARKET }
  function EncodeSide(s: Side): int { if s.BUY? then 0 else 1 }
  function DecodeSide(v: int): Side { if v == 0 then BUY else SELL }

  /** The cast from an unsigned to a signed 64-bit integer, which keeps the bit pattern. */
  function ToSigned(x: Uint64): (v: int)
    ensures -TWO_63 <= v < TWO_63
  {
    if x < TWO_63 then x else x - TWO_64
  }

  function ToUnsigned(v: int): Uint64
    requires -TWO_63 <= v < TWO_63
  {
    if 0 <= v then v else v + TWO_64
  }

  datatype Row = Row(
    seqNo: int,
    command: int,
    kind: int,
    orderId: int,
    traderId: int,
    side: int,
    quantity: int,
    price: real,
    epochNanos: int)

  /** A sequence number fits its 64-bit counter. */
  predicate Storable(ev: JournalEvent) {
    ev.seqNo < TWO_64
  }

  function Key(ev: JournalEvent): int
    requires Storable(ev)
  {
    ToSigned(ev.seqNo)
  }

  function Encode(ev: JournalEvent): Row
    requires Storable(ev)
  {
    Row(Key(ev), EncodeCommand(ev.command), EncodeKind(ev.kind), ToSigned(ev.orderId), ToSigned(ev.traderId),
        EncodeSide(ev.side), ev.quantity, ev.price, ev.epochNanos)
  }

  /** Every BIGINT column holds a signed 64-bit value. */
  predicate WellTyped(r: Row) {
    -TWO_63 <= r.seqNo < TWO_63 && -TWO_63 <= r.orderId < TWO_63 && -TWO_63 <= r.traderId < TWO_63
  }

  function Decode(r: Row): JournalEvent
    requires WellTyped(r)
  {
    JournalEvent(ToUnsigned(r.seqNo), DecodeCommand(r.command), DecodeKind(r.kind), ToUnsigned(r.orderId),
                 ToUnsigned(r.traderId), DecodeSide(r.side), r.quantity, r.price, r.epochNanos)
  }

  /** A BIGINT column holds the 64-bit pattern of an unsigned value, read as signed. */
  predicate SamePattern(column: int, x: Uint64) {
    -TWO_63 <= column < TWO_63 && (column == x || column == x - TWO_64)
  }

  /**
   The format on disk. Commands are 0 for a submission and 1 for a cancel, kinds 0 for market and 1 for
   limit, sides 0 for buy and 1 for sell; ids keep their bit pattern, the rest is stored as it is.
   */
  lemma RowFormat(ev: JournalEvent)
    requires Storable(ev)
    ensures var r := Encode(ev);
            && (ev.command == SUBMIT ==> r.command == 0) && (ev.command == CANCEL ==> r.command == 1)
            && (ev.kind == MARKET ==> r.kind == 0) && (ev.kind == LIMIT ==> r.kind == 1)
            && (ev.side == BUY ==> r.side == 0) && (ev.side == SELL ==> r.side == 1)
            && SamePattern(r.seqNo, ev.seqNo) && SamePattern(r.orderId, ev.orderId)
            && SamePattern(r.traderId, ev.traderId)
            && r.quantity == ev.quantity && r.price == ev.price && r.epochNanos == ev.epochNanos
  {
  }

  /** Reading: 0 is a submission, 1 a limit order and 0 a buy; any other code is the alternative. */
  lemma DecodedFormat(r: Row)
    requires WellTyped(r)
    ensures var ev := Decode(r);
            && (ev.command == SUBMIT <==> r.command == 0) && (ev.kind == LIMIT <==> r.kind == 1)
            && (ev.side == BUY <==> r.side == 0)
            && SamePattern(r.seqNo, ev.seqNo) && SamePattern(r.orderId, ev.orderId)
            && SamePattern(r.traderId, ev.traderId)
            && ev.quantity == r.quantity && ev.price == r.price && ev.epochNanos == r.epochNanos
  {
  }

  /** The row of a journaled command: what a submission stores of its order, and what a cancel stores. */
  lemma CommandRow(c: Command, seqNo: nat, now: int)
    requires seqNo < TWO_64
    ensures var r := Encode(MakeEvent(c, seqNo, now));
            && SamePattern(r.seqNo, seqNo) && r.epochNanos == now
            && (c.Submit? ==>
                  && r.command == 0 && r.kind == (if c.order.terms.Limit? then 1 else 0)
                  && SamePattern(r.orderId, c.order.id) && SamePattern(r.traderId, c.order.trader)
                  && r.side == (if c.order.side.BUY? then 0 else 1) && r.quantity == c.order.quantity
                  && r.price == (if c.order.terms.Limit? then c.order.terms.price else 0.0))
            && (c.Cancel? ==>
                  && r.command == 1 && SamePattern(r.orderId, c.id)
                  && r.kind == 1 && r.traderId == 0 && r.side == 0 && r.quantity == 0 && r.price == 0.0)
  {
  }

  /** Writing an event and reading it back loses nothing, for all 64-bit ids. */
  lemma RowRoundTrip(ev: JournalEvent)
    requires Storable(ev)
    ensures WellTyped(Encode(ev)) && Decode(Encode(ev)) == ev
  {
  }

  /** The signed key column sorts two sequence numbers as they were issued unless they straddle 2^63. */
  lemma KeyOrder(a: JournalEvent, b: JournalEvent)
    requires Storable(a) && Storable(b) && a.seqNo < b.seqNo
    ensures Key(a) < Key(b) <==> !(a.seqNo < TWO_63 <= b.seqNo)
  {
  }

  // ---------- The table ----------

  type Table = map<int, Row>

  predicate AllStorable(events: seq<JournalEvent>) {
    forall i :: 0 <= i < |events| ==> Storable(events[i])
  }

  /** Rows are well typed and filed under their own sequence number. */
  predicate TypedTable(t: Table) {
    forall k :: k in t ==> WellTyped(t[k]) && t[k].seqNo == k
  }

  /** The table after inserting events one after the other into an empty one. */
  function TableOf(events: seq<JournalEvent>): Table
    requires AllStorable(events)
  {
    if events == [] then map[]
    else TableOf(events[..|events| - 1])[Key(events[|events| - 1]) := Encode(events[|events| - 1])]
  }

  predicate DistinctKeys(events: seq<JournalEvent>)
    requires AllStorable(events)
  {
    forall i, j :: 0 <= i < j < |events| ==> Key(events[i]) != Key(events[j])
  }

  /** Inserting keeps rows filed under their own keys, and every key is that of some inserted event. */
  lemma {:induction false} TableIsTyped(events: seq<JournalEvent>)
    requires AllStorable(events)
    ensures TypedTable(TableOf(events))
    ensures forall k :: k in TableOf(events) ==> exists i :: 0 <= i < |events| && Key(events[i]) == k
  {
    if events != [] {
      var last := |events| - 1;
      var before := TableOf(events[..last]);
      TableIsTyped(events[..last]);
      forall k | k in TableOf(events) ensures exists i :: 0 <= i < |events| && Key(events[i]) == k {
        if k in before {
          var i :| 0 <= i < last && Key(events[..last][i]) == k;
          assert Key(events[i]) == k;
        }
      }
    }
  }

  /** With distinct sequence numbers the table holds every inserted event. */
  lemma {:induction false} TableHolds(events: seq<JournalEvent>, i: nat)
    requires AllStorable(events) && DistinctKeys(events) && i < |events|
    ensures Key(events[i]) in TableOf(events) && TableOf(events)[Key(events[i])] == Encode(events[i])
  {
    if i < |events| - 1 {
      TableHolds(events[..|events| - 1], i);
    }
  }

  // ---------- Reading back ----------

  function KeysOf(events: seq<JournalEvent>): (ks: seq<int>)
    requires AllStorable(events)
    ensures |ks| == |events| && forall i :: 0 <= i < |events| ==> ks[i] == Key(events[i])
  {
    seq(|events|, i requires 0 <= i < |events| => Key(events[i]))
  }

  predicate Increasing(ks: seq<int>) {
    forall i, j :: 0 <= i < j < |ks| ==> ks[i] < ks[j]
  }

  /** Every row, decoded, in ascending order of the key column. */
  ghost predicate Loads(t: Table, out: seq<JournalEvent>) {
    && TypedTable(t)
    && AllStorable(out) && Increasing(KeysOf(out))
    && (forall i :: 0 <= i < |out| ==> Key(out[i]) in t && out[i] == Decode(t[Key(out[i])]))
    && (forall k :: k in t ==> k in KeysOf(out))
  }

  method LeastKey(keys: set<int>) returns (k: int)
    requires keys != {}
    ensures k in keys && forall y :: y in keys ==> k <= y
  {
    ghost var least := Least(keys, (a: int, b: int) => a <= b);
    assert forall y :: y in keys ==> least <= y;
    k :| k in keys && forall y :: y in keys ==> k <= y;
  }

  /** loadAll(): SELECT ... ORDER BY seq ASC, then decode row by row. */
  method LoadAll(t: Table) returns (out: seq<JournalEvent>)
    requires TypedTable(t)
    ensures Loads(t, out)
  {
    var left := t.Keys;
    out := [];
    while left != {}
      invariant left <= t.Keys
      invariant AllStorable(out) && Increasing(KeysOf(out))
      invariant forall i :: 0 <= i < |out| ==> Key(out[i]) in t && out[i] == Decode(t[Key(out[i])])
      invariant forall i, k :: 0 <= i < |out| && k in left ==> Key(out[i]) < k
      invariant forall k :: k in t ==> k in left || k in KeysOf(out)
      decreases left
    {
      var k := LeastKey(left);
      ghost var before := KeysOf(out);
      out := out + [Decode(t[k])];
      assert KeysOf(out) == before + [k];
      left := left - {k};
    }
  }

  lemma First<T>(s: seq<T>) returns (x: T)
    requires s != []
    ensures x in s
  {
    x := s[0];
  }

  lemma {:induction false} IncreasingIsUnique(a: seq<int>, b: seq<int>)
    requires Increasing(a) && Increasing(b)
    requires forall x :: x in a <==> x in b
    ensures a == b
  {
    if a == [] {
      if b != [] {
        var x := First(b);
        assert false;
      }
    } else if b == [] {
      var x := First(a);
      assert false;
    } else {
      var x, y := a[|a| - 1], b[|b| - 1];
      var a', b' := a[..|a| - 1], b[..|b| - 1];
      assert x in b && y in a;
      assert a == a' + [x] && b == b' + [y];
      assert x == y;
      assert x !in a' && y !in b';
      forall z ensures z in a' <==> z in b' {
        assert z in a <==> z in a' || z == x;
        assert z in b <==> z in b' || z == y;
      }
      IncreasingIsUnique(a', b');
    }
  }

  lemma IncreasingIsDistinct(events: seq<JournalEvent>)
    requires AllStorable(events) && Increasing(KeysOf(events))
    ensures DistinctKeys(events)
  {
  }

  /** Events inserted in the order of their keys are read back as they were, whatever gaps the keys have. */
  lemma LogRoundTrip(events: seq<JournalEvent>, out: seq<JournalEvent>)
    requires AllStorable(events) && Increasing(KeysOf(events))
    requires Loads(TableOf(events), out)
    ensures out == events
  {
    var t, ks := TableOf(events), KeysOf(events);
    IncreasingIsDistinct(events);
    forall i | 0 <= i < |events| ensures Key(events[i]) in t && t[Key(events[i])] == Encode(events[i]) {
      TableHolds(events, i);
    }
    TableIsTyped(events);
    forall x ensures x in ks <==> x in KeysOf(out) {
      if x in ks {
        var i :| 0 <= i < |ks| && ks[i] == x;
        assert Key(events[i]) in t;
      }
      if x in KeysOf(out) {
        var i :| 0 <= i < |out| && KeysOf(out)[i] == x;
        assert Key(out[i]) in t;
        var j :| 0 <= j < |events| && Key(events[j]) == x;
        assert ks[j] == x;
      }
    }
    IncreasingIsUnique(ks, KeysOf(out));
    assert |events| == |ks| == |out|;
    forall i | 0 <= i < |events| ensures out[i] == events[i] {
      assert ks[i] == KeysOf(out)[i];
      RowRoundTrip(events[i]);
    }
  }

  /** Conversely, that is a way of reading the table: loading never fails. */
  lemma LoadsItself(events: seq<JournalEvent>)
    requires AllStorable(events) && Increasing(KeysOf(events))
    ensures Loads(TableOf(events), events)
  {
    hide TableOf;
    var ks := KeysOf(events);
    IncreasingIsDistinct(events);
    TableIsTyped(events);
    forall i | 0 <= i < |events|
      ensures Key(events[i]) in TableOf(events) && events[i] == Decode(TableOf(events)[Key(events[i])])
    {
      TableHolds(events, i);
      RowRoundTrip(events[i]);
    }
    forall k | k in TableOf(events) ensures k in ks {
      var i :| 0 <= i < |events| && Key(events[i]) == k;
      assert ks[i] == k;
    }
  }

  lemma RisingIncreases(events: seq<JournalEvent>)
    requires Rising(events) && forall i :: 0 <= i < |events| ==> events[i].seqNo < TWO_63
    ensures AllStorable(events) && Increasing(KeysOf(events))
  {
  }

  /** No number below 2^63 is followed by one that is not. */
  predicate StaysBelow(events: seq<JournalEvent>) {
    forall i, j :: 0 <= i < j < |events| ==> !(events[i].seqNo < TWO_63 <= events[j].seqNo)
  }

  /**
   A log with rising 64-bit numbers is read back as it was written if and only if its numbers do not
   cross 2^63, where the signed key column turns negative.
   */
  lemma LoadedInOrderIff(events: seq<JournalEvent>, out: seq<JournalEvent>)
    requires AllStorable(events) && Rising(events)
    requires Loads(TableOf(events), out)
    ensures out == events <==> StaysBelow(events)
  {
    hide TableOf;
    var ks := KeysOf(events);
    if StaysBelow(events) {
      forall i, j | 0 <= i < j < |ks| ensures ks[i] < ks[j] {
        KeyOrder(events[i], events[j]);
      }
      LogRoundTrip(events, out);
    }
    if out == events {
      forall i, j | 0 <= i < j < |events| ensures !(events[i].seqNo < TWO_63 <= events[j].seqNo) {
        assert ks[i] < ks[j];
        KeyOrder(events[i], events[j]);
      }
    }
  }
}
