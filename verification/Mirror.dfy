/**
 The two sides of the market are mirror images. Swapping buys with sells and running prices through
 any order-reversing map turns every run into a run: the same orders trade the same quantities in
 the same sequence, with buyer and seller exchanged.
 */
module Mirror {
  import opened Trading
  import opened PriceTime
  import opened MatchingLaws

  ghost predicate Reverses(f: real -> real) {
    forall p, q :: p < q ==> f(q) < f(p)
  }

  function MirrorTerms(f: real -> real, terms: Terms): Terms {
    if terms.Limit? then Limit(f(terms.price)) else Market
  }

  function MirrorOrder(f: real -> real, o: OrderState): OrderState {
    o.(side := Opposite(o.side), terms := MirrorTerms(f, o.terms))
  }

  function MirrorBook(f: real -> real, book: Book): (r: Book)
    ensures |r| == |book| && forall i :: 0 <= i < |book| ==> r[i] == MirrorOrder(f, book[i])
  {
    seq(|book|, i requires 0 <= i < |book| => MirrorOrder(f, book[i]))
  }

  function MirrorTrade(f: real -> real, t: Trade): Trade {
    Trade(t.sellId, t.buyId, f(t.price), t.quantity)
  }

  function MirrorTrades(f: real -> real, ts: seq<Trade>): (r: seq<Trade>)
    ensures |r| == |ts| && forall i :: 0 <= i < |ts| ==> r[i] == MirrorTrade(f, ts[i])
  {
    seq(|ts|, i requires 0 <= i < |ts| => MirrorTrade(f, ts[i]))
  }

  function MirrorCommand(f: real -> real, c: Command): Command {
    if c.Submit? then Submit(MirrorOrder(f, c.order)) else c
  }

  function MirrorCommands(f: real -> real, cs: seq<Command>): (r: seq<Command>)
    ensures |r| == |cs| && forall i :: 0 <= i < |cs| ==> r[i] == MirrorCommand(f, cs[i])
  {
    seq(|cs|, i requires 0 <= i < |cs| => MirrorCommand(f, cs[i]))
  }

  predicate OnlyLimits(book: Book) {
    forall i :: 0 <= i < |book| ==> book[i].terms.Limit?
  }

  // ---------- One pass ----------

  /** A mirror image preserves who is better and who accepts what. */
  lemma MirrorPrices(f: real -> real, side: Side, terms: Terms, p: real, q: real)
    requires Reverses(f)
    ensures Improves(Opposite(side), f(p), f(q)) <==> Improves(side, p, q)
    ensures Tolerates(Opposite(side), MirrorTerms(f, terms), f(p)) <==> Tolerates(side, terms, p)
  {
  }

  lemma {:induction false} MirrorScan(f: real -> real, book: Book, side: Side)
    requires Reverses(f) && OnlyLimits(book)
    ensures Scan(MirrorBook(f, book), Opposite(side)) == Scan(book, side)
  {
    if book != [] {
      var last := |book| - 1;
      MirrorScan(f, book[..last], side);
      assert MirrorBook(f, book)[..last] == MirrorBook(f, book[..last]);
      var best := Scan(book[..last], side);
      if best.Some? {
        MirrorPrices(f, side, Market, PriceOf(book[last]), PriceOf(book[best.value]));
      }
    }
  }

  lemma MirrorStops(f: real -> real, book: Book, incoming: OrderState)
    requires Reverses(f) && OnlyLimits(book)
    ensures Stops(MirrorBook(f, book), MirrorOrder(f, incoming)) <==> Stops(book, incoming)
    ensures !Stops(book, incoming) ==>
              BestAt(MirrorBook(f, book), MirrorOrder(f, incoming)) == BestAt(book, incoming)
  {
    MirrorScan(f, book, Opposite(incoming.side));
    var best := Scan(book, Opposite(incoming.side));
    if best.Some? {
      MirrorPrices(f, incoming.side, incoming.terms, PriceOf(book[best.value]), 0.0);
    }
  }

  lemma MirrorTradesConcat(f: real -> real, a: seq<Trade>, b: seq<Trade>)
    ensures MirrorTrades(f, a + b) == MirrorTrades(f, a) + MirrorTrades(f, b)
  {
  }

  lemma MirrorBookRemoveAt(f: real -> real, book: Book, i: nat)
    requires i < |book|
    ensures RemoveAt(MirrorBook(f, book), i) == MirrorBook(f, RemoveAt(book, i))
  {
  }

  lemma {:induction false} MirrorMatch(f: real -> real, book: Book, incoming: OrderState)
    requires Reverses(f) && OnlyLimits(book)
    ensures var m := Match(book, incoming);
            Match(MirrorBook(f, book), MirrorOrder(f, incoming)) ==
            Matched(MirrorBook(f, m.book), MirrorOrder(f, m.incoming), MirrorTrades(f, m.trades))
    decreases |book|
  {
    var m := Match(book, incoming);
    MirrorStops(f, book, incoming);
    if Stops(book, incoming) {
      assert MirrorTrades(f, m.trades) == [];
    } else {
      var i, qty := BestAt(book, incoming), TradeQty(book, incoming);
      var t := Strike(incoming, book[i], qty);
      assert MirrorTrades(f, [t]) == [MirrorTrade(f, t)];
      if qty < book[i].remaining {
        assert MirrorBook(f, book)[i := MirrorOrder(f, m.book[i])] == MirrorBook(f, m.book);
      } else {
        var s, next := RemoveAt(book, i), Reduce(incoming, qty);
        MirrorMatch(f, s, next);
        MirrorBookRemoveAt(f, book, i);
        MirrorTradesConcat(f, [t], Match(s, next).trades);
      }
    }
  }

  // ---------- One command ----------

  function MirrorOption(f: real -> real, o: Option<OrderState>): Option<OrderState> {
    if o.Some? then Some(MirrorOrder(f, o.value)) else None
  }

  function MirrorOutcome(f: real -> real, out: Outcome): Outcome {
    Outcome(out.ok, MirrorBook(f, out.book), MirrorTrades(f, out.trades), MirrorOption(f, out.order), out.released)
  }

  lemma MirrorActive(f: real -> real, book: Book, id: OrderId)
    ensures Active(MirrorBook(f, book), id) <==> Active(book, id)
  {
  }

  lemma {:induction false} MirrorIndexOf(f: real -> real, book: Book, id: OrderId)
    ensures IndexOf(MirrorBook(f, book), id) == IndexOf(book, id)
  {
    if book != [] {
      MirrorIndexOf(f, book[..|book| - 1], id);
      assert MirrorBook(f, book)[..|book| - 1] == MirrorBook(f, book[..|book| - 1]);
    }
  }

  lemma MirrorAdd(f: real -> real, book: Book, o: OrderState)
    requires Reverses(f) && OnlyLimits(book)
    ensures Add(MirrorBook(f, book), MirrorOrder(f, o)) == MirrorOutcome(f, Add(book, o))
  {
    MirrorActive(f, book, o.id);
    MirrorMatch(f, book, o);
    var out := Add(book, o);
    if Active(book, o.id) {
      assert MirrorTrades(f, out.trades) == [];
    } else {
      var m := Match(book, o);
      if m.incoming.remaining != 0 && m.incoming.terms.Limit? {
        assert MirrorBook(f, out.book) == MirrorBook(f, m.book) + [MirrorOrder(f, out.order.value)];
      }
    }
  }

  lemma MirrorRemove(f: real -> real, book: Book, id: OrderId)
    ensures Remove(MirrorBook(f, book), id) == MirrorOutcome(f, Remove(book, id))
  {
    MirrorIndexOf(f, book, id);
    var out := Remove(book, id);
    assert MirrorTrades(f, out.trades) == [];
    var at := IndexOf(book, id);
    if at.Some? {
      MirrorBookRemoveAt(f, book, at.value);
    }
  }

  // ---------- Whole runs ----------

  lemma ApplyKeepsOnlyLimits(book: Book, c: Command)
    requires OnlyLimits(book)
    ensures OnlyLimits(Apply(book, c).book)
  {
    match c
    case Submit(o) =>
      var m := Match(book, o);
      forall k | 0 <= k < |m.book| ensures m.book[k].terms.Limit? {
        MatchOnlyFills(book, o, k);
      }
    case Cancel(id) =>
  }

  lemma {:induction false} RunKeepsOnlyLimits(commands: seq<Command>)
    ensures OnlyLimits(Run(commands).book)
  {
    if commands != [] {
      RunKeepsOnlyLimits(commands[..|commands| - 1]);
      ApplyKeepsOnlyLimits(Run(commands[..|commands| - 1]).book, commands[|commands| - 1]);
    }
  }

  /** The mirrored stream produces the mirrored market: same book, trades and releases, sides exchanged. */
  lemma {:induction false} MirrorRun(f: real -> real, commands: seq<Command>)
    requires Reverses(f)
    ensures var end := Run(commands);
            Run(MirrorCommands(f, commands)) ==
            Session(MirrorBook(f, end.book), MirrorTrades(f, end.trades), end.released)
  {
    var end := Run(commands);
    if commands == [] {
      assert MirrorBook(f, end.book) == [] && MirrorTrades(f, end.trades) == [];
    } else {
      var before, c := commands[..|commands| - 1], commands[|commands| - 1];
      MirrorRun(f, before);
      assert MirrorCommands(f, commands)[..|commands| - 1] == MirrorCommands(f, before);
      RunKeepsOnlyLimits(before);
      match c {
        case Submit(o) => MirrorAdd(f, Run(before).book, o);
        case Cancel(id) => MirrorRemove(f, Run(before).book, id);
      }
      MirrorTradesConcat(f, Run(before).trades, Apply(Run(before).book, c).trades);
    }
  }
}
