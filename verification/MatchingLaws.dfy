/**
 Laws of one matching pass: whom it hits, in what order, at what price and for how much.
 */
module MatchingLaws {
  import opened Trading
  import opened PriceTime

  // ---------- Priority and the scan ----------

  /** Order j has priority over order i of the same side: better price, or same price and earlier. */
  predicate Outranks(book: Book, j: nat, i: nat)
    requires i < |book| && j < |book|
  {
    || Improves(book[i].side, PriceOf(book[j]), PriceOf(book[i]))
    || (PriceOf(book[j]) == PriceOf(book[i]) && j < i)
  }

  predicate FirstInLine(book: Book, side: Side, i: nat) {
    && i < |book|
    && book[i].side == side
    && forall j :: 0 <= j < |book| && book[j].side == side && j != i ==> Outranks(book, i, j)
  }

  /** The scan finds the one order that outranks all others of its side, and fails only on an empty side. */
  lemma {:induction false} ScanFindsFirstInLine(book: Book, side: Side)
    ensures Scan(book, side).Some? ==> FirstInLine(book, side, Scan(book, side).value)
    ensures Scan(book, side).None? ==> forall j :: 0 <= j < |book| ==> book[j].side != side
  {
    if book != [] {
      ScanFindsFirstInLine(book[..|book| - 1], side);
    }
  }

  // ---------- Shape of a matching step ----------

  predicate Stops(book: Book, incoming: OrderState) {
    var best := Scan(book, Opposite(incoming.side));
    incoming.remaining <= 0 || best.None? || !Accepts(incoming, PriceOf(book[best.value]))
  }

  function BestAt(book: Book, incoming: OrderState): (i: nat)
    requires !Stops(book, incoming)
    ensures i < |book| && book[i].side == Opposite(incoming.side)
  {
    Scan(book, Opposite(incoming.side)).value
  }

  function TradeQty(book: Book, incoming: OrderState): int
    requires !Stops(book, incoming)
  {
    Min(incoming.remaining, book[BestAt(book, incoming)].remaining)
  }

  /** The part of well-formedness that priority arguments need. */
  predicate Orderly(book: Book) {
    AllRest(book) && DistinctIds(book)
  }

  lemma RemoveAtKeepsOrderly(book: Book, i: nat)
    requires Orderly(book) && i < |book|
    ensures Orderly(RemoveAt(book, i))
  {
  }

  /** Where the order at i ends up when another one is removed. */
  function Shift(i: nat, removed: nat): nat
    requires i != removed
  {
    if i < removed then i else i - 1
  }

  /** Removing an order changes neither another order nor who outranks whom. */
  lemma RemoveAtKeepsRanks(book: Book, removed: nat, i: nat, j: nat)
    requires removed < |book| && i < |book| && j < |book| && i != removed && j != removed
    ensures var s := RemoveAt(book, removed);
            && |s| == |book| - 1
            && Shift(i, removed) < |s| && s[Shift(i, removed)] == book[i]
            && Shift(j, removed) < |s| && s[Shift(j, removed)] == book[j]
            && (Outranks(s, Shift(i, removed), Shift(j, removed)) <==> Outranks(book, i, j))
  {
  }

  /** The resting party of a trade made by an incoming order of the given side. */
  function RestingId(side: Side, t: Trade): OrderId {
    if side.BUY? then t.sellId else t.buyId
  }

  function IncomingId(side: Side, t: Trade): OrderId {
    if side.BUY? then t.buyId else t.sellId
  }

  /** Total quantity the trades take from the resting order with this id. */
  function Taken(side: Side, trades: seq<Trade>, id: OrderId): int {
    if trades == [] then 0
    else (if RestingId(side, trades[0]) == id then trades[0].quantity else 0) + Taken(side, trades[1..], id)
  }

  // ---------- What a pass may touch ----------

  /** `after` is `before` untouched, or the same order partly filled but not empty. */
  predicate Descends(after: OrderState, before: OrderState) {
    || after == before
    || (1 <= after.remaining < before.remaining
        && after == before.(remaining := after.remaining, status := PARTIALLY_FILLED))
  }

  predicate Survives(book: Book, after: OrderState) {
    exists i :: 0 <= i < |book| && Descends(after, book[i])
  }

  /** Whatever rests after a pass rested before it; a pass only fills or removes. */
  lemma {:induction false} MatchOnlyFills(book: Book, incoming: OrderState, k: nat)
    requires k < |Match(book, incoming).book|
    ensures Survives(book, Match(book, incoming).book[k])
    decreases |book|
  {
    var after := Match(book, incoming).book[k];
    if Stops(book, incoming) {
      assert Descends(after, book[k]);
    } else {
      var i, qty := BestAt(book, incoming), TradeQty(book, incoming);
      if qty < book[i].remaining {
        assert Descends(after, book[k]);
      } else {
        var s := RemoveAt(book, i);
        MatchOnlyFills(s, Reduce(incoming, qty), k);
        var j :| 0 <= j < |s| && Descends(after, s[j]);
        assert s[j] == book[if j < i then j else j + 1];
      }
    }
  }

  /** A pass changes nothing of the incoming order but its remaining quantity. */
  lemma {:induction false} MatchKeepsIncoming(book: Book, incoming: OrderState)
    ensures Match(book, incoming).incoming == incoming.(remaining := Match(book, incoming).incoming.remaining)
    decreases |book|
  {
    if !Stops(book, incoming) {
      var i, qty := BestAt(book, incoming), TradeQty(book, incoming);
      if qty == book[i].remaining {
        MatchKeepsIncoming(RemoveAt(book, i), Reduce(incoming, qty));
      }
    }
  }

  /** The incoming order only loses quantity, and never goes below zero. */
  lemma {:induction false} MatchReducesIncoming(book: Book, incoming: OrderState)
    requires AllRest(book)
    requires 0 <= incoming.remaining
    ensures 0 <= Match(book, incoming).incoming.remaining <= incoming.remaining
    decreases |book|
  {
    if !Stops(book, incoming) {
      var i, qty := BestAt(book, incoming), TradeQty(book, incoming);
      if qty == book[i].remaining {
        var s := RemoveAt(book, i);
        assert forall k :: 0 <= k < |s| ==> s[k] == book[if k < i then k else k + 1];
        MatchReducesIncoming(s, Reduce(incoming, qty));
      }
    }
  }

  lemma RemoveAtKeepsDistinct(book: Book, i: nat)
    requires DistinctIds(book) && i < |book|
    ensures DistinctIds(RemoveAt(book, i))
  {
  }

  lemma {:induction false} MatchKeepsDistinct(book: Book, incoming: OrderState)
    requires DistinctIds(book)
    ensures DistinctIds(Match(book, incoming).book)
    decreases |book|
  {
    if !Stops(book, incoming) {
      var i, qty := BestAt(book, incoming), TradeQty(book, incoming);
      if qty == book[i].remaining {
        RemoveAtKeepsDistinct(book, i);
        MatchKeepsDistinct(RemoveAt(book, i), Reduce(incoming, qty));
      }
    }
  }

  lemma MatchKeepsWellFormed(book: Book, incoming: OrderState)
    requires WellFormed(book)
    ensures WellFormed(Match(book, incoming).book)
  {
    var after := Match(book, incoming).book;
    MatchKeepsDistinct(book, incoming);
    forall k | 0 <= k < |after| ensures Survives(book, after[k]) {
      MatchOnlyFills(book, incoming, k);
    }
    SurvivorsRest(book, after);
    SurvivorsUncrossed(book, after);
  }

  lemma SurvivorsRest(book: Book, after: Book)
    requires AllRest(book)
    requires forall k :: 0 <= k < |after| ==> Survives(book, after[k])
    ensures AllRest(after)
  {
  }

  lemma SurvivorsUncrossed(book: Book, after: Book)
    requires Uncrossed(book)
    requires forall k :: 0 <= k < |after| ==> Survives(book, after[k])
    ensures Uncrossed(after)
  {
  }

  /**
   A pass that leaves quantity is that of a limit order, and every order left on the other side is
   priced beyond its limit.
   */
  lemma {:induction false} MatchExhausts(book: Book, incoming: OrderState, j: nat)
    requires Orderly(book)
    requires 0 <= incoming.remaining
    requires j < |Match(book, incoming).book| && Match(book, incoming).book[j].side == Opposite(incoming.side)
    requires Match(book, incoming).incoming.remaining > 0
    ensures incoming.terms.Limit? && Match(book, incoming).book[j].terms.Limit?
    ensures var left, limit := Match(book, incoming).book[j].terms.price, incoming.terms.price;
            if incoming.side.BUY? then limit < left else left < limit
    decreases |book|
  {
    if Stops(book, incoming) {
      ScanFindsFirstInLine(book, Opposite(incoming.side));
      var i := Scan(book, Opposite(incoming.side)).value;
      assert i == j || Outranks(book, i, j);
    } else {
      var i, qty := BestAt(book, incoming), TradeQty(book, incoming);
      if qty == book[i].remaining {
        RemoveAtKeepsOrderly(book, i);
        MatchExhausts(RemoveAt(book, i), Reduce(incoming, qty), j);
      }
    }
  }

  // ---------- The trades of one pass ----------

  /** Trade t is a legitimate fill of the i-th resting order by the incoming order. */
  predicate Hits(book: Book, incoming: OrderState, t: Trade, i: nat) {
    && i < |book|
    && book[i].side == Opposite(incoming.side)
    && RestingId(incoming.side, t) == book[i].id
    && IncomingId(incoming.side, t) == incoming.id
    && book[i].terms == Limit(t.price)
    && (incoming.terms.Limit? ==>
          if incoming.side.BUY? then t.price <= incoming.terms.price else incoming.terms.price <= t.price)
    && 1 <= t.quantity <= book[i].remaining
  }

  ghost predicate HitsSome(book: Book, incoming: OrderState, t: Trade) {
    exists i :: Hits(book, incoming, t, i)
  }

  /**
   Every trade is struck at the resting order's own price, within the incoming order's limit, for a
   positive quantity the resting order has.
   */
  lemma {:induction false} TradesRespectLimits(book: Book, incoming: OrderState)
    requires Orderly(book)
    ensures forall t :: t in Match(book, incoming).trades ==> HitsSome(book, incoming, t)
    decreases |book|
  {
    if !Stops(book, incoming) {
      var i, qty := BestAt(book, incoming), TradeQty(book, incoming);
      var head := Strike(incoming, book[i], qty);
      assert Hits(book, incoming, head, i);
      if qty == book[i].remaining {
        var s, next := RemoveAt(book, i), Reduce(incoming, qty);
        RemoveAtKeepsOrderly(book, i);
        TradesRespectLimits(s, next);
        forall t | t in Match(s, next).trades ensures HitsSome(book, incoming, t) {
          var j :| Hits(s, next, t, j);
          assert Hits(book, incoming, t, if j < i then j else j + 1);
        }
      }
    }
  }

  predicate NeverTwice(side: Side, trades: seq<Trade>) {
    forall a, b :: 0 <= a < b < |trades| ==> RestingId(side, trades[a]) != RestingId(side, trades[b])
  }

  predicate PricesWorsen(side: Side, trades: seq<Trade>) {
    forall a, b :: 0 <= a < b < |trades| ==>
      if side.BUY? then trades[a].price <= trades[b].price else trades[b].price <= trades[a].price
  }

  /** A pass hits each resting order at most once, at prices that never improve from trade to trade. */
  lemma {:induction false} TradesWalkTheBook(book: Book, incoming: OrderState)
    requires Orderly(book)
    ensures NeverTwice(incoming.side, Match(book, incoming).trades)
    ensures PricesWorsen(incoming.side, Match(book, incoming).trades)
    decreases |book|
  {
    if !Stops(book, incoming) {
      var i, qty := BestAt(book, incoming), TradeQty(book, incoming);
      if qty == book[i].remaining {
        RemoveAtKeepsOrderly(book, i);
        TradesWalkTheBook(RemoveAt(book, i), Reduce(incoming, qty));
        LaterHits(book, incoming);
      }
    }
  }

  /** Every order hit before the last trade of a pass is consumed completely. */
  lemma {:induction false} OnlyLastHitIsPartial(book: Book, incoming: OrderState, k: nat, j: nat)
    requires Orderly(book)
    requires k + 1 < |Match(book, incoming).trades| && j < |book|
    requires book[j].id == RestingId(incoming.side, Match(book, incoming).trades[k])
    ensures Match(book, incoming).trades[k].quantity == book[j].remaining
    decreases |book|
  {
    hide Scan;
    var i, qty := BestAt(book, incoming), TradeQty(book, incoming);
    var s, next := RemoveAt(book, i), Reduce(incoming, qty);
    if k == 0 {
      assert j == i;
    } else {
      RemoveAtKeepsOrderly(book, i);
      LaterHits(book, incoming);
      assert Match(book, incoming).trades[k] == Match(s, next).trades[k - 1];
      RemoveAtKeepsRanks(book, i, j, j);
      OnlyLastHitIsPartial(s, next, k - 1, Shift(j, i));
    }
  }

  /** The trades of a pass follow priority: an order hit earlier outranks every order hit later. */
  lemma {:induction false} HitsFollowPriority(book: Book, incoming: OrderState, a: nat, b: nat, i: nat, j: nat)
    requires Orderly(book)
    requires a < b < |Match(book, incoming).trades| && i < |book| && j < |book|
    requires book[i].id == RestingId(incoming.side, Match(book, incoming).trades[a])
    requires book[j].id == RestingId(incoming.side, Match(book, incoming).trades[b])
    ensures Outranks(book, i, j)
    decreases |book|
  {
    hide Scan, RemoveAt;
    var best, qty := BestAt(book, incoming), TradeQty(book, incoming);
    var s, next := RemoveAt(book, best), Reduce(incoming, qty);
    var rest := Match(s, next).trades;
    LaterHits(book, incoming);
    RemoveAtKeepsOrderly(book, best);
    assert Match(book, incoming).trades[b] == rest[b - 1];
    RemoveAtKeepsRanks(book, best, j, j);
    if a == 0 {
      assert i == best;
      SideOfHit(s, next, rest[b - 1], Shift(j, best));
      ScanFindsFirstInLine(book, Opposite(incoming.side));
    } else {
      assert Match(book, incoming).trades[a] == rest[a - 1];
      RemoveAtKeepsRanks(book, best, i, j);
      HitsFollowPriority(s, next, a - 1, b - 1, Shift(i, best), Shift(j, best));
    }
  }

  lemma SideOfHit(book: Book, incoming: OrderState, t: Trade, j: nat)
    requires Orderly(book) && t in Match(book, incoming).trades
    requires j < |book| && book[j].id == RestingId(incoming.side, t)
    ensures book[j].side == Opposite(incoming.side)
  {
    TradesRespectLimits(book, incoming);
    var i: nat :| Hits(book, incoming, t, i);
  }

  /** Once the best order is consumed, the remaining trades hit other orders at no better price. */
  lemma LaterHits(book: Book, incoming: OrderState)
    requires Orderly(book) && !Stops(book, incoming)
    requires TradeQty(book, incoming) == book[BestAt(book, incoming)].remaining
    ensures var i := BestAt(book, incoming);
            forall t :: t in Match(RemoveAt(book, i), Reduce(incoming, TradeQty(book, incoming))).trades ==>
              && RestingId(incoming.side, t) != book[i].id
              && !Improves(book[i].side, t.price, PriceOf(book[i]))
  {
    var i, qty := BestAt(book, incoming), TradeQty(book, incoming);
    var s, next := RemoveAt(book, i), Reduce(incoming, qty);
    RemoveAtKeepsOrderly(book, i);
    TradesRespectLimits(s, next);
    ScanFindsFirstInLine(book, book[i].side);
    forall t | t in Match(s, next).trades
      ensures RestingId(incoming.side, t) != book[i].id && !Improves(book[i].side, t.price, PriceOf(book[i]))
    {
      var j: nat :| Hits(s, next, t, j);
      var j' := if j < i then j else j + 1;
      assert s[j] == book[j'];
      assert Outranks(book, i, j');
    }
  }

  // ---------- Price-time priority ----------

  lemma {:induction false} TakenOfStranger(side: Side, trades: seq<Trade>, id: OrderId)
    requires forall t :: t in trades ==> RestingId(side, t) != id
    ensures Taken(side, trades, id) == 0
  {
    if trades != [] {
      TakenOfStranger(side, trades[1..], id);
    }
  }

  function CountSide(book: Book, side: Side): nat {
    if book == [] then 0
    else CountSide(book[..|book| - 1], side) + (if book[|book| - 1].side == side then 1 else 0)
  }

  lemma {:induction false} CountRemoveAt(book: Book, i: nat, side: Side)
    requires i < |book|
    ensures CountSide(book, side) == CountSide(RemoveAt(book, i), side) + (if book[i].side == side then 1 else 0)
  {
    var last := |book| - 1;
    if i == last {
      assert RemoveAt(book, i) == book[..last];
    } else {
      CountRemoveAt(book[..last], i, side);
      var s := RemoveAt(book, i);
      assert s[..last - 1] == RemoveAt(book[..last], i);
      assert s[last - 1] == book[last];
    }
  }

  /** A pass makes at most one trade for each order on the other side. */
  lemma {:induction false} TradesAreBounded(book: Book, incoming: OrderState)
    ensures |Match(book, incoming).trades| <= CountSide(book, Opposite(incoming.side))
    decreases |book|
  {
    if !Stops(book, incoming) {
      var i := BestAt(book, incoming);
      CountRemoveAt(book, i, Opposite(incoming.side));
      if TradeQty(book, incoming) == book[i].remaining {
        TradesAreBounded(RemoveAt(book, i), Reduce(incoming, book[i].remaining));
      }
    }
  }

  /**
   Price-time priority: if any of order i is taken, then every order j of the same side that
   outranks it was taken completely.
   */
  lemma {:induction false} PriorityRespected(book: Book, incoming: OrderState, j: nat, i: nat)
    requires Orderly(book)
    requires i < |book| && j < |book|
    requires book[i].side == Opposite(incoming.side) && book[j].side == Opposite(incoming.side)
    requires Outranks(book, j, i)
    requires Taken(incoming.side, Match(book, incoming).trades, book[i].id) > 0
    ensures Taken(incoming.side, Match(book, incoming).trades, book[j].id) == book[j].remaining
    decreases |book|
  {
    assert !Stops(book, incoming);
    hide Match, Scan, Taken, RemoveAt;
    var side := incoming.side;
    var best, qty := BestAt(book, incoming), TradeQty(book, incoming);
    var s, next := RemoveAt(book, best), Reduce(incoming, qty);
    assert best != i by { ScanFindsFirstInLine(book, Opposite(side)); }
    TakenUnfolds(book, incoming, book[i].id);
    TakenUnfolds(book, incoming, book[j].id);
    RemoveAtKeepsOrderly(book, best);
    if j == best {
      LaterHits(book, incoming);
      TakenOfStranger(side, Match(s, next).trades, book[best].id);
    } else {
      RemoveAtKeepsRanks(book, best, j, i);
      PriorityRespected(s, next, Shift(j, best), Shift(i, best));
    }
  }

  /** What a pass takes from an order, split at its first trade. */
  lemma TakenUnfolds(book: Book, incoming: OrderState, id: OrderId)
    requires !Stops(book, incoming)
    ensures var i, qty := BestAt(book, incoming), TradeQty(book, incoming);
            var head := if book[i].id == id then qty else 0;
            Taken(incoming.side, Match(book, incoming).trades, id) ==
            if qty < book[i].remaining then head
            else head + Taken(incoming.side, Match(RemoveAt(book, i), Reduce(incoming, qty)).trades, id)
  {
  }

  /** Matching never makes an id active. */
  lemma {:induction false} GoneForGood(book: Book, incoming: OrderState, id: OrderId)
    requires !Active(book, id)
    ensures !Active(Match(book, incoming).book, id)
    decreases |book|
  {
    if !Stops(book, incoming) {
      var i, qty := BestAt(book, incoming), TradeQty(book, incoming);
      if qty < book[i].remaining {
        assert book[i].id != id;
      } else {
        var s := RemoveAt(book, i);
        assert forall k :: 0 <= k < |s| ==> s[k] == book[if k < i then k else k + 1];
        GoneForGood(s, Reduce(incoming, qty), id);
      }
    }
  }
}
