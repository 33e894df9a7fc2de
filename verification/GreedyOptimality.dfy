/**
 Matching is greedy: it always takes the best price first. This module proves that greed is
 optimal. The incoming order fills as much as the acceptable depth allows, and no other way of
 taking that quantity from the resting orders is cheaper for a buyer or pays a seller more.

 The argument is linear-programming duality: any reference price bounds the cost of every
 allocation from below, and the last price a pass trades at makes the bound tight for the pass.
 */
module GreedyOptimality {
  import opened Trading
  import opened PriceTime
  import opened MatchingLaws
  import opened Conservation

  // ---------- How much is filled ----------

  /** Quantity for sale at a limit of at most the given price. */
  function AsksUpTo(limit: real): OrderState -> int {
    (o: OrderState) => if o.side.SELL? && o.terms.Limit? && o.terms.price <= limit then o.remaining else 0
  }

  /** Quantity bid for at a limit of at least the given price. */
  function BidsDownTo(limit: real): OrderState -> int {
    (o: OrderState) => if o.side.BUY? && o.terms.Limit? && o.terms.price >= limit then o.remaining else 0
  }

  /** A market order can trade with the whole other side, a limit order as far as its limit goes. */
  function DepthWeight(side: Side, terms: Terms): OrderState -> int {
    match terms
    case Market => OfSide(Opposite(side))
    case Limit(limit) => if side.BUY? then AsksUpTo(limit) else BidsDownTo(limit)
  }

  /** Quantity resting on the other side within reach of the incoming order. */
  function Depth(book: Book, incoming: OrderState): int {
    Total(book, DepthWeight(incoming.side, incoming.terms))
  }

  function Filled(book: Book, incoming: OrderState): int {
    incoming.remaining - Match(book, incoming).incoming.remaining
  }

  /** A pass trades exactly the smaller of the incoming size and the acceptable depth. */
  lemma {:induction false} FillsAllItCan(book: Book, incoming: OrderState)
    requires AllRest(book) && 0 <= incoming.remaining
    ensures Filled(book, incoming) == Min(incoming.remaining, Depth(book, incoming))
    decreases |book|
  {
    var weight := DepthWeight(incoming.side, incoming.terms);
    TotalNonNegative(book, weight);
    if Stops(book, incoming) {
      if incoming.remaining > 0 {
        NothingAcceptable(book, incoming);
        TotalZero(book, weight);
      }
    } else {
      var i, qty := BestAt(book, incoming), TradeQty(book, incoming);
      if qty < book[i].remaining {
        TotalAtLeast(book, i, weight);
      } else {
        var s := RemoveAt(book, i);
        assert forall k :: 0 <= k < |s| ==> s[k] == book[if k < i then k else k + 1];
        TotalRemoveAt(book, i, weight);
        FillsAllItCan(s, Reduce(incoming, qty));
      }
    }
  }

  /** When a pass stops with quantity left, no order of the other side is acceptable. */
  lemma NothingAcceptable(book: Book, incoming: OrderState)
    requires Stops(book, incoming) && incoming.remaining > 0
    ensures forall j :: 0 <= j < |book| && book[j].side == Opposite(incoming.side)
                        ==> !Accepts(incoming, PriceOf(book[j]))
  {
    var side := Opposite(incoming.side);
    ScanFindsFirstInLine(book, side);
    forall j | 0 <= j < |book| && book[j].side == side ensures !Accepts(incoming, PriceOf(book[j])) {
      assert j == Scan(book, side).value || Outranks(book, Scan(book, side).value, j);
    }
  }

  /**
   How a submission ends is decided by the depth it meets: filled if the depth covers it; otherwise
   a limit order rests, open if it is still whole and partially filled if not, and the rest of a
   market order is cancelled and released.
   */
  lemma DepthDecidesTheEnding(book: Book, o: OrderState)
    requires AllRest(book) && ValidOrder(o) && !Active(book, o.id)
    ensures var out := Add(book, o);
            var left := o.remaining - Min(o.remaining, Depth(book, o));
            && out.ok && out.order.Some?
            && out.order.value == o.(remaining := left, status := out.order.value.status)
            && (out.order.value.status == FILLED <==> o.remaining <= Depth(book, o))
            && (out.order.value.status == CANCELLED <==> o.terms.Market? && Depth(book, o) < o.remaining)
            && (out.order.value.status == OPEN <==> o.terms.Limit? && 0 < left == o.quantity)
            && (out.order.value.status == PARTIALLY_FILLED <==> o.terms.Limit? && 0 < left != o.quantity)
            && out.released == (if o.terms.Market? && left > 0 then [Release(o.id, left)] else [])
            && (Active(out.book, o.id) <==> o.terms.Limit? && left > 0)
  {
    FillsAllItCan(book, o);
    TotalNonNegative(book, DepthWeight(o.side, o.terms));
    MatchKeepsIncoming(book, o);
    GoneForGood(book, o, o.id);
    var m, out := Match(book, o), Add(book, o);
    if m.incoming.remaining != 0 && o.terms.Limit? {
      assert out.book[|m.book|].id == o.id;
    }
  }

  // ---------- What it costs ----------

  /** Money that changes hands in a sequence of trades. */
  function Cost(trades: seq<Trade>): real {
    if trades == [] then 0.0
    else (trades[0].quantity as real) * trades[0].price + Cost(trades[1..])
  }

  /** A way of taking quantity from the resting orders of the other side. */
  predicate Allocation(book: Book, side: Side, take: seq<int>) {
    && |take| == |book|
    && forall i :: 0 <= i < |book| ==>
         0 <= take[i] <= (if book[i].side == Opposite(side) then book[i].remaining else 0)
  }

  function Sum(take: seq<int>): int {
    if take == [] then 0 else Sum(take[..|take| - 1]) + take[|take| - 1]
  }

  function AllocationCost(book: Book, take: seq<int>): real
    requires |take| == |book|
  {
    if book == [] then 0.0
    else
      var last := |book| - 1;
      AllocationCost(book[..last], take[..last]) + (take[last] as real) * PriceOf(book[last])
  }

  // ---------- Notional value, unit by unit ----------

  /** The value of q units at price p, added up one unit at a time so that the laws below stay linear. */
  function Notional(q: int, p: real): real {
    if q <= 0 then 0.0 else Notional(q - 1, p) + p
  }

  lemma {:induction false} NotionalIsProduct(q: int, p: real)
    requires 0 <= q
    ensures Notional(q, p) == (q as real) * p
  {
    if q > 0 {
      NotionalIsProduct(q - 1, p);
      assert (q as real) * p == ((q - 1) as real) * p + p;
    }
  }

  lemma {:induction false} NotionalAdds(a: int, b: int, p: real)
    requires 0 <= a && 0 <= b
    ensures Notional(a + b, p) == Notional(a, p) + Notional(b, p)
  {
    if b > 0 {
      NotionalAdds(a, b - 1, p);
    }
  }

  lemma {:induction false} NotionalDiffers(q: int, p: real, r: real)
    requires 0 <= q
    ensures Notional(q, p - r) == Notional(q, p) - Notional(q, r)
  {
    if q > 0 {
      NotionalDiffers(q - 1, p, r);
    }
  }

  lemma {:induction false} NotionalGrows(a: int, b: int, p: real)
    requires 0 <= a <= b && 0.0 <= p
    ensures Notional(a, p) <= Notional(b, p)
    decreases b - a
  {
    if a < b {
      NotionalGrows(a + 1, b, p);
    }
  }

  // ---------- Burden: cost as the incoming side feels it ----------

  /** What a buyer pays, or the negative of what a seller gets. */
  function Burden(side: Side, p: real): real {
    if side.BUY? then p else -p
  }

  function TradesBurden(side: Side, trades: seq<Trade>): real {
    if trades == [] then 0.0
    else Notional(trades[0].quantity, Burden(side, trades[0].price)) + TradesBurden(side, trades[1..])
  }

  function AllocationBurden(book: Book, side: Side, take: seq<int>): real
    requires |take| == |book|
  {
    if book == [] then 0.0
    else
      var last := |book| - 1;
      AllocationBurden(book[..last], side, take[..last]) + Notional(take[last], Burden(side, PriceOf(book[last])))
  }

  lemma NotionalOfBurden(side: Side, q: int, p: real)
    requires 0 <= q
    ensures Notional(q, Burden(side, p)) == Burden(side, (q as real) * p)
  {
    NotionalIsProduct(q, Burden(side, p));
  }

  lemma {:induction false} TradesBurdenIsCost(side: Side, trades: seq<Trade>)
    requires forall t :: t in trades ==> 0 <= t.quantity
    ensures TradesBurden(side, trades) == Burden(side, Cost(trades))
  {
    if trades != [] {
      NotionalOfBurden(side, trades[0].quantity, trades[0].price);
      TradesBurdenIsCost(side, trades[1..]);
    }
  }

  lemma {:induction false} AllocationBurdenIsCost(book: Book, side: Side, take: seq<int>)
    requires Allocation(book, side, take)
    ensures AllocationBurden(book, side, take) == Burden(side, AllocationCost(book, take))
  {
    if book != [] {
      var last := |book| - 1;
      NotionalOfBurden(side, take[last], PriceOf(book[last]));
      AllocationBurdenIsCost(book[..last], side, take[..last]);
    }
  }

  // ---------- The dual bound ----------

  /** What an order of the other side saves by trading below the reference level. */
  function SlackWeight(side: Side, level: real): OrderState -> real {
    (o: OrderState) =>
      if o.side == Opposite(side) && Burden(side, PriceOf(o)) < level
      then Notional(o.remaining, level - Burden(side, PriceOf(o)))
      else 0.0
  }

  function Slack(book: Book, weight: OrderState -> real): real {
    if book == [] then 0.0
    else Slack(book[..|book| - 1], weight) + weight(book[|book| - 1])
  }

  lemma {:induction false} SlackRemoveAt(book: Book, i: nat, weight: OrderState -> real)
    requires i < |book|
    ensures Slack(book, weight) == Slack(RemoveAt(book, i), weight) + weight(book[i])
  {
    var last := |book| - 1;
    if i == last {
      assert RemoveAt(book, i) == book[..last];
    } else {
      SlackRemoveAt(book[..last], i, weight);
      var s := RemoveAt(book, i);
      assert s[..last - 1] == RemoveAt(book[..last], i);
      assert s[last - 1] == book[last];
    }
  }

  lemma {:induction false} SlackZero(book: Book, weight: OrderState -> real)
    requires forall i :: 0 <= i < |book| ==> weight(book[i]) == 0.0
    ensures Slack(book, weight) == 0.0
  {
    if book != [] {
      SlackZero(book[..|book| - 1], weight);
    }
  }

  /** One order's share of the bound. */
  lemma OrderBound(level: real, burden: real, take: int, most: int)
    requires 0 <= take <= most
    ensures Notional(take, level) - Notional(take, burden)
            <= (if burden < level then Notional(most, level - burden) else 0.0)
  {
    NotionalDiffers(take, level, burden);
    if burden < level {
      NotionalGrows(take, most, level - burden);
    } else {
      NotionalDiffers(take, burden, level);
      NotionalGrows(0, take, burden - level);
    }
  }

  /** Weak duality: every reference level bounds the burden of every allocation from below. */
  lemma {:induction false} DualBound(book: Book, side: Side, take: seq<int>, level: real)
    requires Allocation(book, side, take)
    ensures AllocationBurden(book, side, take) >= Notional(Sum(take), level) - Slack(book, SlackWeight(side, level))
  {
    if book != [] {
      var last := |book| - 1;
      DualBound(book[..last], side, take[..last], level);
      SumNonNegative(take[..last]);
      NotionalAdds(Sum(take[..last]), take[last], level);
      if book[last].side == Opposite(side) {
        OrderBound(level, Burden(side, PriceOf(book[last])), take[last], book[last].remaining);
      }
    }
  }

  lemma {:induction false} SumNonNegative(take: seq<int>)
    requires forall i :: 0 <= i < |take| ==> 0 <= take[i]
    ensures 0 <= Sum(take)
  {
    if take != [] {
      SumNonNegative(take[..|take| - 1]);
    }
  }

  // ---------- The pass meets the bound ----------

  function LastLevel(side: Side, trades: seq<Trade>): real
    requires trades != []
  {
    Burden(side, trades[|trades| - 1].price)
  }

  /** The last level a pass trades at is no better than the price it starts at. */
  lemma LastLevelIsWorst(book: Book, incoming: OrderState)
    requires Orderly(book) && !Stops(book, incoming)
    ensures Match(book, incoming).trades != []
    ensures Burden(incoming.side, PriceOf(book[BestAt(book, incoming)]))
            <= LastLevel(incoming.side, Match(book, incoming).trades)
  {
    TradesWalkTheBook(book, incoming);
    var trades := Match(book, incoming).trades;
    assert trades[0].price == PriceOf(book[BestAt(book, incoming)]);
  }

  /** No order of the other side is better than the best, so at the best level there is no slack. */
  lemma NoSlackAtBest(book: Book, incoming: OrderState)
    requires !Stops(book, incoming)
    ensures var level := Burden(incoming.side, PriceOf(book[BestAt(book, incoming)]));
            Slack(book, SlackWeight(incoming.side, level)) == 0.0
  {
    var best := BestAt(book, incoming);
    var level := Burden(incoming.side, PriceOf(book[best]));
    ScanFindsFirstInLine(book, Opposite(incoming.side));
    forall j | 0 <= j < |book| ensures SlackWeight(incoming.side, level)(book[j]) == 0.0 {
      assert j == best || book[j].side == incoming.side || Outranks(book, best, j);
    }
    SlackZero(book, SlackWeight(incoming.side, level));
  }

  predicate MeetsBound(book: Book, incoming: OrderState) {
    var trades := Match(book, incoming).trades;
    && trades != []
    && 0 <= Filled(book, incoming)
    && var level := LastLevel(incoming.side, trades);
       TradesBurden(incoming.side, trades) ==
       Notional(Filled(book, incoming), level) - Slack(book, SlackWeight(incoming.side, level))
  }

  /** The pass meets the dual bound with equality at its last level. */
  lemma {:induction false} GreedyIsTight(book: Book, incoming: OrderState)
    requires Orderly(book) && !Stops(book, incoming)
    ensures MeetsBound(book, incoming)
    decreases |book|
  {
    var i, qty := BestAt(book, incoming), TradeQty(book, incoming);
    var s, next := RemoveAt(book, i), Reduce(incoming, qty);
    if qty < book[i].remaining || Stops(s, next) {
      var trades := Match(book, incoming).trades;
      assert Stops(s, next) ==> Match(s, next).trades == [];
      assert trades == [Strike(incoming, book[i], qty)];
      assert TradesBurden(incoming.side, trades[1..]) == 0.0;
      NoSlackAtBest(book, incoming);
    } else {
      RemoveAtKeepsOrderly(book, i);
      GreedyIsTight(s, next);
      TightStep(book, incoming);
    }
  }

  lemma TightStep(book: Book, incoming: OrderState)
    requires Orderly(book) && !Stops(book, incoming)
    requires TradeQty(book, incoming) == book[BestAt(book, incoming)].remaining
    requires MeetsBound(RemoveAt(book, BestAt(book, incoming)), Reduce(incoming, TradeQty(book, incoming)))
    ensures MeetsBound(book, incoming)
  {
    var side := incoming.side;
    var i, qty := BestAt(book, incoming), TradeQty(book, incoming);
    var s, next := RemoveAt(book, i), Reduce(incoming, qty);
    var trades, rest := Match(book, incoming).trades, Match(s, next).trades;
    assert trades[1..] == rest;
    var level, burden := LastLevel(side, rest), Burden(side, PriceOf(book[i]));
    assert level == LastLevel(side, trades);
    assert burden <= level by { LastLevelIsWorst(book, incoming); }
    SlackRemoveAt(book, i, SlackWeight(side, level));
    NotionalDiffers(qty, level, burden);
    assert SlackWeight(side, level)(book[i]) == Notional(qty, level) - Notional(qty, burden);
    NotionalAdds(qty, Filled(s, next), level);
    assert Filled(book, incoming) == qty + Filled(s, next);
    assert TradesBurden(side, trades) == Notional(qty, burden) + TradesBurden(side, rest);
  }

  lemma {:induction false} NothingTakenCostsNothing(book: Book, side: Side, take: seq<int>)
    requires Allocation(book, side, take) && Sum(take) <= 0
    ensures AllocationBurden(book, side, take) == 0.0
  {
    if book != [] {
      var last := |book| - 1;
      SumNonNegative(take[..last]);
      NothingTakenCostsNothing(book[..last], side, take[..last]);
    }
  }

  /**
   Greedy matching is optimal: among all ways of taking the traded quantity from the other side, the
   pass pays the least for an incoming buy and earns the most for an incoming sell.
   */
  lemma GreedyIsOptimal(book: Book, incoming: OrderState, take: seq<int>)
    requires Orderly(book)
    requires Allocation(book, incoming.side, take) && Sum(take) == Filled(book, incoming)
    ensures incoming.side.BUY? ==> Cost(Match(book, incoming).trades) <= AllocationCost(book, take)
    ensures incoming.side.SELL? ==> Cost(Match(book, incoming).trades) >= AllocationCost(book, take)
  {
    var side, trades := incoming.side, Match(book, incoming).trades;
    TradesRespectLimits(book, incoming);
    TradesBurdenIsCost(side, trades);
    AllocationBurdenIsCost(book, side, take);
    if Stops(book, incoming) {
      NothingTakenCostsNothing(book, side, take);
    } else {
      GreedyIsTight(book, incoming);
      DualBound(book, side, take, LastLevel(side, trades));
    }
  }
}
