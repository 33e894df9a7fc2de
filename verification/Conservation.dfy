/**
 Quantity accounting: nothing is created or lost by matching, resting and cancelling, for one
 command and over whole runs.
 */
module Conservation {
  import opened Trading
  import opened PriceTime
  import opened MatchingLaws

  // ---------- Weighted totals over a book ----------

  function Total(book: Book, weight: OrderState -> int): int {
    if book == [] then 0
    else Total(book[..|book| - 1], weight) + weight(book[|book| - 1])
  }

  lemma {:induction false} TotalRemoveAt(book: Book, i: nat, weight: OrderState -> int)
    requires i < |book|
    ensures Total(book, weight) == Total(RemoveAt(book, i), weight) + weight(book[i])
  {
    var last := |book| - 1;
    if i == last {
      assert RemoveAt(book, i) == book[..last];
    } else {
      TotalRemoveAt(book[..last], i, weight);
      var s := RemoveAt(book, i);
      assert s[..last - 1] == RemoveAt(book[..last], i);
      assert s[last - 1] == book[last];
    }
  }

  lemma {:induction false} TotalUpdate(book: Book, i: nat, o: OrderState, weight: OrderState -> int)
    requires i < |book|
    ensures Total(book[i := o], weight) == Total(book, weight) - weight(book[i]) + weight(o)
  {
    var last := |book| - 1;
    var s := book[i := o];
    if i == last {
      assert s[..last] == book[..last];
    } else {
      TotalUpdate(book[..last], i, o, weight);
      assert s[..last] == book[..last][i := o];
    }
  }

  lemma {:induction false} TotalZero(book: Book, weight: OrderState -> int)
    requires forall i :: 0 <= i < |book| ==> weight(book[i]) == 0
    ensures Total(book, weight) == 0
  {
    if book != [] {
      TotalZero(book[..|book| - 1], weight);
    }
  }

  lemma {:induction false} TotalAtLeast(book: Book, j: nat, weight: OrderState -> int)
    requires j < |book|
    requires forall i :: 0 <= i < |book| ==> weight(book[i]) >= 0
    ensures Total(book, weight) >= weight(book[j])
  {
    var last := |book| - 1;
    if j < last {
      TotalAtLeast(book[..last], j, weight);
    } else {
      TotalNonNegative(book[..last], weight);
    }
  }

  lemma {:induction false} TotalNonNegative(book: Book, weight: OrderState -> int)
    requires forall i :: 0 <= i < |book| ==> weight(book[i]) >= 0
    ensures Total(book, weight) >= 0
  {
    if book != [] {
      TotalNonNegative(book[..|book| - 1], weight);
    }
  }

  // ---------- Quantities by order id ----------

  function OfId(id: OrderId): OrderState -> int {
    (o: OrderState) => if o.id == id then o.remaining else 0
  }

  /** Quantity resting under an id. */
  function Rests(book: Book, id: OrderId): int {
    Total(book, OfId(id))
  }

  function TradedIn(t: Trade, id: OrderId): int {
    (if t.buyId == id then t.quantity else 0) + (if t.sellId == id then t.quantity else 0)
  }

  /** Quantity traded by an id, as buyer or as seller. */
  function Traded(trades: seq<Trade>, id: OrderId): int {
    if trades == [] then 0 else Traded(trades[..|trades| - 1], id) + TradedIn(trades[|trades| - 1], id)
  }

  /** Quantity cancelled or dropped under an id. */
  function Released(rs: seq<Release>, id: OrderId): int {
    if rs == [] then 0
    else Released(rs[..|rs| - 1], id) + (if rs[|rs| - 1].id == id then rs[|rs| - 1].quantity else 0)
  }

  lemma {:induction false} TradedConcat(a: seq<Trade>, b: seq<Trade>, id: OrderId)
    ensures Traded(a + b, id) == Traded(a, id) + Traded(b, id)
  {
    if b == [] {
      assert a + b == a;
    } else {
      TradedConcat(a, b[..|b| - 1], id);
      assert (a + b)[..|a + b| - 1] == a + b[..|b| - 1];
    }
  }

  lemma {:induction false} ReleasedConcat(a: seq<Release>, b: seq<Release>, id: OrderId)
    ensures Released(a + b, id) == Released(a, id) + Released(b, id)
  {
    if b == [] {
      assert a + b == a;
    } else {
      ReleasedConcat(a, b[..|b| - 1], id);
      assert (a + b)[..|a + b| - 1] == a + b[..|b| - 1];
    }
  }

  lemma RestsOfInactive(book: Book, id: OrderId)
    requires !Active(book, id)
    ensures Rests(book, id) == 0
  {
    TotalZero(book, OfId(id));
  }

  lemma {:induction false} RestsOfActive(book: Book, j: nat)
    requires DistinctIds(book) && j < |book|
    ensures Rests(book, book[j].id) == book[j].remaining
  {
    TotalRemoveAt(book, j, OfId(book[j].id));
    var s := RemoveAt(book, j);
    assert forall k :: 0 <= k < |s| ==> s[k] == book[if k < j then k else k + 1];
    TotalZero(s, OfId(book[j].id));
  }

  // ---------- One matching pass ----------

  /** Each trade moves the same quantity out of the incoming order and out of one resting order. */
  lemma {:induction false} MatchConserves(book: Book, incoming: OrderState, id: OrderId)
    ensures var m := Match(book, incoming);
            Rests(book, id) + OfId(id)(incoming) ==
            Rests(m.book, id) + OfId(id)(m.incoming) + Traded(m.trades, id)
    decreases |book|
  {
    var m := Match(book, incoming);
    if !Stops(book, incoming) {
      var i, qty := BestAt(book, incoming), TradeQty(book, incoming);
      var t := Strike(incoming, book[i], qty);
      var next := Reduce(incoming, qty);
      assert [t][..0] == [];
      assert Traded([t], id) == TradedIn(t, id);
      if qty < book[i].remaining {
        TotalUpdate(book, i, Fill(book[i], qty), OfId(id));
      } else {
        TotalRemoveAt(book, i, OfId(id));
        MatchConserves(RemoveAt(book, i), next, id);
        TradedConcat([t], Match(RemoveAt(book, i), next).trades, id);
      }
    }
  }

  function OfSide(side: Side): OrderState -> int {
    (o: OrderState) => if o.side == side then o.remaining else 0
  }

  /** A pass lowers the depth of the other side by exactly what it fills and leaves its own side alone. */
  lemma {:induction false} MatchLowersOppositeDepth(book: Book, incoming: OrderState, side: Side)
    ensures var m := Match(book, incoming);
            Total(m.book, OfSide(side)) ==
            Total(book, OfSide(side)) -
            (if side == Opposite(incoming.side) then incoming.remaining - m.incoming.remaining else 0)
    decreases |book|
  {
    if !Stops(book, incoming) {
      var i, qty := BestAt(book, incoming), TradeQty(book, incoming);
      if qty < book[i].remaining {
        TotalUpdate(book, i, Fill(book[i], qty), OfSide(side));
      } else {
        TotalRemoveAt(book, i, OfSide(side));
        MatchLowersOppositeDepth(RemoveAt(book, i), Reduce(incoming, qty), side);
      }
    }
  }

  /** On the resting side, a pass takes from each id exactly what it is recorded as trading. */
  lemma {:induction false} TakenIsTraded(book: Book, incoming: OrderState, id: OrderId)
    requires id != incoming.id
    ensures Taken(incoming.side, Match(book, incoming).trades, id) == Traded(Match(book, incoming).trades, id)
    decreases |book|
  {
    if !Stops(book, incoming) {
      var i, qty := BestAt(book, incoming), TradeQty(book, incoming);
      var t := Strike(incoming, book[i], qty);
      assert [t][..0] == [];
      assert Traded([t], id) == TradedIn(t, id);
      TakenUnfolds(book, incoming, id);
      if qty == book[i].remaining {
        TakenIsTraded(RemoveAt(book, i), Reduce(incoming, qty), id);
        TradedConcat([t], Match(RemoveAt(book, i), Reduce(incoming, qty)).trades, id);
      }
    }
  }

  /**
   A resting order outranked by a traded one has left the book: with PriorityRespected, no resting
   order trades while one that outranks it still rests.
   */
  lemma NoTradePastABetterOrder(book: Book, incoming: OrderState, j: nat, i: nat)
    requires Orderly(book) && !Active(book, incoming.id)
    requires i < |book| && j < |book|
    requires book[i].side == Opposite(incoming.side) && book[j].side == Opposite(incoming.side)
    requires Outranks(book, j, i)
    requires Taken(incoming.side, Match(book, incoming).trades, book[i].id) > 0
    ensures !Active(Match(book, incoming).book, book[j].id)
  {
    var m, id := Match(book, incoming), book[j].id;
    PriorityRespected(book, incoming, j, i);
    TakenIsTraded(book, incoming, id);
    MatchConserves(book, incoming, id);
    MatchKeepsIncoming(book, incoming);
    RestsOfActive(book, j);
    if Active(m.book, id) {
      var k: nat :| k < |m.book| && m.book[k].id == id;
      MatchKeepsDistinct(book, incoming);
      RestsOfActive(m.book, k);
      MatchOnlyFills(book, incoming, k);
      assert false;
    }
  }

  // ---------- One command ----------

  /** Quantity a command brings into the market under an id: only an accepted submission does. */
  function Brought(book: Book, c: Command, id: OrderId): int {
    if c.Submit? && c.order.id == id && !Active(book, id) then c.order.remaining else 0
  }

  lemma ApplyConserves(book: Book, c: Command, id: OrderId)
    ensures var out := Apply(book, c);
            Rests(book, id) + Brought(book, c, id) ==
            Rests(out.book, id) + Traded(out.trades, id) + Released(out.released, id)
  {
    var out := Apply(book, c);
    match c
    case Submit(o) =>
      if !Active(book, o.id) {
        AddConserves(book, o, id);
      }
    case Cancel(target) =>
      var at := IndexOf(book, target);
      if at.Some? {
        TotalRemoveAt(book, at.value, OfId(id));
        assert out.released[..0] == [];
      }
  }

  lemma AddConserves(book: Book, o: OrderState, id: OrderId)
    requires !Active(book, o.id)
    ensures var out := Add(book, o);
            Rests(book, id) + OfId(id)(o) ==
            Rests(out.book, id) + Traded(out.trades, id) + Released(out.released, id)
  {
    var m, out := Match(book, o), Add(book, o);
    MatchConserves(book, o, id);
    MatchKeepsIncoming(book, o);
    if m.incoming.remaining == 0 {
    } else if m.incoming.terms.Limit? {
      assert out.book[..|out.book| - 1] == m.book;
    } else {
      assert out.released[..0] == [];
    }
  }

  // ---------- Whole runs ----------

  /** Quantity submitted and accepted under an id over a run. */
  function Accepted(commands: seq<Command>, id: OrderId): int {
    if commands == [] then 0
    else
      var before := commands[..|commands| - 1];
      Accepted(before, id) + Brought(Run(before).book, commands[|commands| - 1], id)
  }

  /**
   Conservation over every run: what was accepted under an id is what it traded, plus what still
   rests, plus what was cancelled or dropped.
   */
  lemma {:induction false} RunConserves(commands: seq<Command>, id: OrderId)
    ensures var end := Run(commands);
            Accepted(commands, id) == Traded(end.trades, id) + Rests(end.book, id) + Released(end.released, id)
  {
    if commands != [] {
      var before, c := commands[..|commands| - 1], commands[|commands| - 1];
      RunConserves(before, id);
      var s := Run(before);
      ApplyConserves(s.book, c, id);
      TradedConcat(s.trades, Apply(s.book, c).trades, id);
      ReleasedConcat(s.released, Apply(s.book, c).released, id);
    }
  }
}
