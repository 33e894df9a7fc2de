/**
 Invariants of the book under single commands and over whole runs: well-formedness, a market that
 is never crossed, and trades that honour both parties' limits.
 */
module BookLaws {
  import opened Trading
  import opened PriceTime
  import opened MatchingLaws
  import opened Conservation

  // ---------- One command ----------

  lemma AddKeepsWellFormed(book: Book, o: OrderState)
    requires WellFormed(book) && ValidOrder(o)
    ensures WellFormed(Add(book, o).book)
  {
    if !Active(book, o.id) {
      var m := Match(book, o);
      MatchKeepsWellFormed(book, o);
      MatchKeepsIncoming(book, o);
      MatchReducesIncoming(book, o);
      GoneForGood(book, o, o.id);
      if m.incoming.remaining != 0 && m.incoming.terms.Limit? {
        forall j: nat | j < |m.book| && m.book[j].side == Opposite(o.side)
          ensures !Accepts(o, PriceOf(m.book[j]))
        {
          MatchExhausts(book, o, j);
        }
        RestingKeepsUncrossed(m.book, Add(book, o).order.value);
      }
    }
  }

  /** Resting an order that accepts nothing left on the other side does not cross the book. */
  lemma RestingKeepsUncrossed(book: Book, o: OrderState)
    requires Uncrossed(book) && o.terms.Limit?
    requires forall j: nat :: j < |book| && book[j].side == Opposite(o.side) ==> !Accepts(o, PriceOf(book[j]))
    ensures Uncrossed(book + [o])
  {
  }

  lemma RemoveKeepsWellFormed(book: Book, id: OrderId)
    requires WellFormed(book)
    ensures WellFormed(Remove(book, id).book)
    ensures !Active(Remove(book, id).book, id)
  {
  }

  /** A cancel takes out exactly the order under the id, which ends cancelled with what was left of it released. */
  lemma RemoveCancels(book: Book, id: OrderId)
    ensures var out := Remove(book, id);
            && (out.ok <==> exists i :: 0 <= i < |book| && book[i].id == id)
            && (!out.ok ==> out.book == book && out.order.None? && out.released == [])
            && (out.ok ==> exists i: nat ::
                  && i < |book| && book[i].id == id && out.book == book[..i] + book[i + 1..]
                  && out.order == Some(book[i].(status := CANCELLED))
                  && out.released == [Release(id, book[i].remaining)])
            && out.trades == []
  {
  }

  // ---------- Whole runs ----------

  /** Every book reached by valid commands from an empty market is well-formed. */
  lemma {:induction false} RunKeepsWellFormed(commands: seq<Command>)
    requires ValidCommands(commands)
    ensures WellFormed(Run(commands).book)
  {
    if commands != [] {
      var before, c := commands[..|commands| - 1], commands[|commands| - 1];
      RunKeepsWellFormed(before);
      match c
      case Submit(o) => AddKeepsWellFormed(Run(before).book, o);
      case Cancel(id) => RemoveKeepsWellFormed(Run(before).book, id);
    }
  }

  lemma AddKeepsSizes(book: Book, o: OrderState)
    requires forall i :: 0 <= i < |book| ==> WellSized(book[i])
    requires AllRest(book) && 0 <= o.remaining <= o.quantity
    ensures forall i :: 0 <= i < |Add(book, o).book| ==> WellSized(Add(book, o).book[i])
  {
    var m := Match(book, o);
    forall i | 0 <= i < |m.book| ensures WellSized(m.book[i]) {
      MatchOnlyFills(book, o, i);
    }
    MatchKeepsIncoming(book, o);
    MatchReducesIncoming(book, o);
  }

  /**
   If no order is submitted with more remaining than its size, then in every run every resting order
   has between one unit and its size left, and is open exactly if it is whole.
   */
  lemma {:induction false} RunKeepsSizes(commands: seq<Command>)
    requires ValidCommands(commands)
    requires forall i :: 0 <= i < |commands| && commands[i].Submit? ==>
               commands[i].order.remaining <= commands[i].order.quantity
    ensures forall i :: 0 <= i < |Run(commands).book| ==>
              1 <= Run(commands).book[i].remaining && WellSized(Run(commands).book[i])
  {
    RunKeepsWellFormed(commands);
    if commands != [] {
      var before, c := commands[..|commands| - 1], commands[|commands| - 1];
      RunKeepsSizes(before);
      RunKeepsWellFormed(before);
      if c.Submit? {
        AddKeepsSizes(Run(before).book, c.order);
      }
    }
  }

  /** The market is never crossed: the best bid always stays strictly below the best ask. */
  lemma NeverCrossed(commands: seq<Command>)
    requires ValidCommands(commands)
    ensures var bid, ask := BestPrice(Run(commands).book, BUY), BestPrice(Run(commands).book, SELL);
            bid.Some? && ask.Some? ==> bid.value < ask.value
  {
    RunKeepsWellFormed(commands);
  }

  /**
   The quoted price of a side is that of one of its orders, and no order of the side has a better one:
   a higher one to buy at, or a lower one to sell at.
   */
  lemma BestPriceIsBest(book: Book, side: Side)
    ensures var p := BestPrice(book, side);
            && (p.None? <==> forall j :: 0 <= j < |book| ==> book[j].side != side)
            && (p.Some? ==>
                  && (exists i :: 0 <= i < |book| && book[i].side == side && PriceOf(book[i]) == p.value)
                  && (forall j :: 0 <= j < |book| && book[j].side == side ==>
                        if side.BUY? then PriceOf(book[j]) <= p.value else p.value <= PriceOf(book[j])))
  {
    ScanFindsFirstInLine(book, side);
    var best := Scan(book, side);
    if best.Some? {
      forall j | 0 <= j < |book| && book[j].side == side
        ensures if side.BUY? then PriceOf(book[j]) <= PriceOf(book[best.value])
                else PriceOf(book[best.value]) <= PriceOf(book[j])
      {
        assert j == best.value || Outranks(book, best.value, j);
      }
    }
  }

  // ---------- Provenance and limits over whole runs ----------

  /** Some command of the stream submitted an order with this identity, side, terms and size. */
  predicate SubmittedAs(commands: seq<Command>, o: OrderState) {
    exists k :: 0 <= k < |commands| && commands[k].Submit? && SameTerms(commands[k].order, o)
  }

  predicate SameTerms(a: OrderState, b: OrderState) {
    a.id == b.id && a.trader == b.trader && a.side == b.side && a.terms == b.terms && a.quantity == b.quantity
  }

  lemma SubmittedAsExtends(commands: seq<Command>, c: Command, o: OrderState)
    requires SubmittedAs(commands, o)
    ensures SubmittedAs(commands + [c], o)
  {
    var k :| 0 <= k < |commands| && commands[k].Submit? && SameTerms(commands[k].order, o);
    assert (commands + [c])[k] == commands[k];
  }

  /** Every resting order was submitted, with the terms it rests under. */
  lemma {:induction false} RestingWasSubmitted(commands: seq<Command>, i: nat)
    requires i < |Run(commands).book|
    ensures SubmittedAs(commands, Run(commands).book[i])
  {
    var before, c := commands[..|commands| - 1], commands[|commands| - 1];
    var book, o := Run(before).book, Run(commands).book[i];
    assert commands == before + [c];
    StepOrigin(book, c, i);
    if exists j: nat :: j < |book| && SameTerms(book[j], o) {
      var j: nat :| j < |book| && SameTerms(book[j], o);
      RestingWasSubmitted(before, j);
      assert SubmittedAs(before, o);
      SubmittedAsExtends(before, c, o);
    } else {
      assert commands[|commands| - 1] == c;
    }
  }

  /** An order resting after a command either rested before it or is the one it submitted. */
  lemma StepOrigin(book: Book, c: Command, i: nat)
    requires i < |Apply(book, c).book|
    ensures var o := Apply(book, c).book[i];
            || (exists j: nat :: j < |book| && SameTerms(book[j], o))
            || (c.Submit? && SameTerms(c.order, o))
  {
    var o := Apply(book, c).book[i];
    match c
    case Submit(s) =>
      if Active(book, s.id) {
        assert SameTerms(book[i], o);
      } else {
        MatchKeepsIncoming(book, s);
        var m := Match(book, s);
        if i < |m.book| {
          MatchOnlyFills(book, s, i);
          var j: nat :| j < |book| && Descends(o, book[j]);
          assert SameTerms(book[j], o);
        }
      }
    case Cancel(id) =>
      var at := IndexOf(book, id);
      var j := if at.None? || i < at.value then i else i + 1;
      assert SameTerms(book[j], o);
  }

  /** Command k of the stream submitted order `id` on `side`, willing to trade at price p. */
  predicate WillingParty(commands: seq<Command>, k: nat, id: OrderId, side: Side, p: real) {
    && k < |commands| && commands[k].Submit?
    && commands[k].order.id == id && commands[k].order.side == side
    && (commands[k].order.terms.Limit? ==>
          if side.BUY? then p <= commands[k].order.terms.price else commands[k].order.terms.price <= p)
  }

  /**
   A trade joins a buyer and a seller who both submitted orders and both accept its price, which is
   the limit price of one of the two; it is for at least one unit.
   */
  ghost predicate FairTrade(commands: seq<Command>, t: Trade) {
    && 1 <= t.quantity
    && exists b: nat, s: nat ::
         && WillingParty(commands, b, t.buyId, BUY, t.price)
         && WillingParty(commands, s, t.sellId, SELL, t.price)
         && (commands[b].order.terms == Limit(t.price) || commands[s].order.terms == Limit(t.price))
  }

  lemma FairTradeExtends(commands: seq<Command>, c: Command, t: Trade)
    requires FairTrade(commands, t)
    ensures FairTrade(commands + [c], t)
  {
    var b: nat, s: nat :|
      && WillingParty(commands, b, t.buyId, BUY, t.price)
      && WillingParty(commands, s, t.sellId, SELL, t.price)
      && (commands[b].order.terms == Limit(t.price) || commands[s].order.terms == Limit(t.price));
    var more := commands + [c];
    assert WillingParty(more, b, t.buyId, BUY, t.price) && WillingParty(more, s, t.sellId, SELL, t.price);
  }

  /** Over every run, every trade ever printed honours both parties' limits. */
  lemma {:induction false} RunTradesAreFair(commands: seq<Command>)
    requires ValidCommands(commands)
    ensures forall t :: t in Run(commands).trades ==> FairTrade(commands, t)
  {
    if commands != [] {
      var before, c := commands[..|commands| - 1], commands[|commands| - 1];
      assert commands == before + [c];
      RunTradesAreFair(before);
      forall t | t in Run(commands).trades ensures FairTrade(commands, t) {
        if t in Run(before).trades {
          FairTradeExtends(before, c, t);
        } else {
          LastTradeIsFair(commands, t);
        }
      }
    }
  }

  lemma LastTradeIsFair(commands: seq<Command>, t: Trade)
    requires ValidCommands(commands) && commands != []
    requires t in Apply(Run(commands[..|commands| - 1]).book, commands[|commands| - 1]).trades
    ensures FairTrade(commands, t)
  {
    var last := |commands| - 1;
    var before := commands[..last];
    var book, o := Run(before).book, commands[last].order;
    RunKeepsWellFormed(before);
    TradesRespectLimits(book, o);
    var i: nat :| Hits(book, o, t, i);
    RestingWasSubmitted(before, i);
    var k: nat :| k < |before| && before[k].Submit? && SameTerms(before[k].order, book[i]);
    assert commands[k] == before[k];
    assert RestsProperly(book[i]);
    if o.side.BUY? {
      assert WillingParty(commands, last, t.buyId, BUY, t.price) && WillingParty(commands, k, t.sellId, SELL, t.price);
    } else {
      assert WillingParty(commands, k, t.buyId, BUY, t.price) && WillingParty(commands, last, t.sellId, SELL, t.price);
    }
  }

  // ---------- Conservation for a single order ----------

  /** Command k is the only submission under its id. */
  predicate OnlySubmission(commands: seq<Command>, k: nat) {
    && k < |commands| && commands[k].Submit?
    && forall j :: 0 <= j < |commands| && j != k && commands[j].Submit? ==> commands[j].order.id != commands[k].order.id
  }

  /**
   For an order whose id is submitted once in a run: what was left of it when it was submitted is what
   it traded, plus what still rests, plus what was cancelled or dropped.
   */
  lemma OrderIsConserved(commands: seq<Command>, k: nat)
    requires OnlySubmission(commands, k)
    ensures var o, end := commands[k].order, Run(commands);
            o.remaining == Traded(end.trades, o.id) + Rests(end.book, o.id) + Released(end.released, o.id)
  {
    RunConserves(commands, commands[k].order.id);
    AcceptedOnce(commands, k);
  }

  lemma {:induction false} AcceptedOnce(commands: seq<Command>, k: nat)
    requires OnlySubmission(commands, k)
    ensures Accepted(commands, commands[k].order.id) == commands[k].order.remaining
  {
    var id, last := commands[k].order.id, |commands| - 1;
    var before := commands[..last];
    if k == last {
      NeverAccepted(before, id);
      if Active(Run(before).book, id) {
        var i: nat :| i < |Run(before).book| && Run(before).book[i].id == id;
        RestingWasSubmitted(before, i);
        assert false;
      }
    } else {
      AcceptedOnce(before, k);
    }
  }

  lemma {:induction false} NeverAccepted(commands: seq<Command>, id: OrderId)
    requires forall j :: 0 <= j < |commands| && commands[j].Submit? ==> commands[j].order.id != id
    ensures Accepted(commands, id) == 0
  {
    if commands != [] {
      NeverAccepted(commands[..|commands| - 1], id);
    }
  }
}
