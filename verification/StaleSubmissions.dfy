/**
 The journal records an order's original size, not what is left of it. For an order of which more or
 less than its size remains when it is submitted, replay therefore rebuilds a different order. This
 module says exactly when that makes a difference.
 */
module StaleSubmissions {
  import opened Trading
  import opened PriceTime
  import opened MatchingLaws
  import opened Conservation
  import opened GreedyOptimality
  import opened Journal

  /** Replaying the event does to the book what the command does, and prints the same trades. */
  predicate Replays(book: Book, ev: JournalEvent, c: Command) {
    && Rebuild(ev).Some?
    && var live, replay := Apply(book, c), Apply(book, Rebuild(ev).value);
       && (Throws(book, Rebuild(ev).value) <==> Throws(book, c))
       && live.book == replay.book && live.trades == replay.trades
  }

  /**
   The condition a caller can check: the order is whole, or is refused anyway, or is a market order
   that outlasts the depth it meets both with what remains of it and with its original size.
   */
  predicate Exact(book: Book, c: Command) {
    c.Submit? && !Active(book, c.order.id) ==>
      || c.order.remaining == c.order.quantity
      || (c.order.terms.Market? && Depth(book, c.order) <= Min(c.order.remaining, c.order.quantity))
  }

  /** When the acceptable depth is used up anyway, extra size changes neither book nor trades. */
  lemma {:induction false} ExtraSizeIsIdle(book: Book, o: OrderState, extra: nat)
    requires AllRest(book) && 0 <= o.remaining && Depth(book, o) <= o.remaining
    ensures var m := Match(book, o);
            Match(book, o.(remaining := o.remaining + extra)) ==
            Matched(m.book, m.incoming.(remaining := m.incoming.remaining + extra), m.trades)
    decreases |book|
  {
    var bigger := o.(remaining := o.remaining + extra);
    DepthDecides(book, o, extra);
    if !Stops(book, o) {
      var i, qty := BestAt(book, o), TradeQty(book, o);
      ExtraSizeIsIdle(RemoveAt(book, i), Reduce(o, qty), extra);
      assert Reduce(bigger, qty) == Reduce(o, qty).(remaining := Reduce(o, qty).remaining + extra);
    }
  }

  /** An order that covers the acceptable depth goes on as long as a larger one, consuming each best order. */
  lemma DepthDecides(book: Book, o: OrderState, extra: nat)
    requires AllRest(book) && 0 <= o.remaining && Depth(book, o) <= o.remaining
    ensures Stops(book, o) <==> Stops(book, o.(remaining := o.remaining + extra))
    ensures !Stops(book, o) ==>
              var i := BestAt(book, o);
              && TradeQty(book, o) == book[i].remaining
              && TradeQty(book, o.(remaining := o.remaining + extra)) == book[i].remaining
              && AllRest(RemoveAt(book, i))
              && Depth(RemoveAt(book, i), Reduce(o, book[i].remaining)) <= o.remaining - book[i].remaining
  {
    var weight := DepthWeight(o.side, o.terms);
    var bigger := o.(remaining := o.remaining + extra);
    if !Stops(book, bigger) {
      var i := BestAt(book, bigger);
      TotalAtLeast(book, i, weight);
      TotalRemoveAt(book, i, weight);
      var s := RemoveAt(book, i);
      assert forall k :: 0 <= k < |s| ==> s[k] == book[if k < i then k else k + 1];
    }
  }

  /** An order's trades in its own pass add up to what the pass filled of it. */
  lemma TradesAddUp(book: Book, o: OrderState)
    requires !Active(book, o.id)
    ensures Traded(Match(book, o).trades, o.id) == Filled(book, o)
  {
    MatchConserves(book, o, o.id);
    MatchKeepsIncoming(book, o);
    RestsOfInactive(book, o.id);
    GoneForGood(book, o, o.id);
    RestsOfInactive(Match(book, o).book, o.id);
  }

  /** What an accepted order has resting after its own submission. */
  lemma RestsAfterAdd(book: Book, o: OrderState)
    requires !Active(book, o.id) && AllRest(book) && 0 <= o.remaining
    ensures Rests(Add(book, o).book, o.id) == if o.terms.Limit? then o.remaining - Filled(book, o) else 0
  {
    AddConserves(book, o, o.id);
    TradesAddUp(book, o);
    RestsOfInactive(book, o.id);
    MatchKeepsIncoming(book, o);
    var out := Add(book, o);
    assert out.released != [] ==> out.released[..0] == [];
  }

  /** A smaller and a larger market order that both outlast the depth leave the same book and trades. */
  lemma LargeMarketOrdersAgree(book: Book, o: OrderState, size: nat, extra: nat)
    requires AllRest(book) && o.terms.Market? && !Active(book, o.id)
    requires Depth(book, o) <= size
    ensures var a, b := Add(book, o.(remaining := size)), Add(book, o.(remaining := size + extra));
            a.book == b.book && a.trades == b.trades
  {
    ExtraSizeIsIdle(book, o.(remaining := size), extra);
    MatchKeepsIncoming(book, o.(remaining := size));
    MatchKeepsIncoming(book, o.(remaining := size + extra));
  }

  /** Two different sizes of an accepted order show in the book or in the trades, except as above. */
  lemma SizesTell(book: Book, o: OrderState, a: nat, b: nat)
    requires AllRest(book) && !Active(book, o.id) && a < b
    requires o.terms.Limit? || a < Depth(book, o)
    ensures var x, y := Add(book, o.(remaining := a)), Add(book, o.(remaining := b));
            x.book != y.book || x.trades != y.trades
  {
    var small, large := o.(remaining := a), o.(remaining := b);
    FillsAllItCan(book, small);
    FillsAllItCan(book, large);
    TradesAddUp(book, small);
    TradesAddUp(book, large);
    RestsAfterAdd(book, small);
    RestsAfterAdd(book, large);
  }

  /**
   Replay of a valid command has the effect the command had if and only if the condition holds: for
   every order state the order class allows, every kind of command and every book.
   */
  lemma ReplayIsExactIff(book: Book, c: Command, seqNo: nat, now: int)
    requires AllRest(book) && ValidCommand(c)
    ensures Replays(book, MakeEvent(c, seqNo, now), c) <==> Exact(book, c)
  {
    hide Match, Total, Rebuild;
    RebuildsWhatWasJournaled(c, seqNo, now);
    if c.Submit? && !Active(book, c.order.id) {
      var o := c.order;
      var whole := o.(remaining := o.quantity);
      AddIgnoresStatus(book, whole, NEW);
      var a, b := Min(o.remaining, o.quantity), o.remaining + o.quantity - Min(o.remaining, o.quantity);
      if o.terms.Market? && Depth(book, o) <= a {
        LargeMarketOrdersAgree(book, o, a, b - a);
      } else if a < b {
        SizesTell(book, o, a, b);
      }
    }
  }

  /** A sell of 10 with 4 left rests with 4 live and with 10 on replay. */
  lemma PartlyFilledLimitDiverges(now: int)
    ensures var c := Submit(OrderState(1, 7, SELL, Limit(100.0), 10, 4, NEW));
            !Replays([], MakeEvent(c, 1, now), c)
  {
    ReplayIsExactIff([], Submit(OrderState(1, 7, SELL, Limit(100.0), 10, 4, NEW)), 1, now);
  }
}
