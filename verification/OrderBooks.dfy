/**
 The indexed limit order book. Two price-sorted maps of FIFO lists, an owner map and a cancel index
 are changed together; `flat` is the ghost arrival-ordered book they stand for. Every operation is
 proved to do to `flat` exactly what the naive matcher of PriceTime does.
 */
module OrderBooks {
  import opened Trading
  import opened PriceTime
  import opened MatchingLaws
  import opened BookLaws
  import opened Orders
  import opened BookIndex

  /** What addOrder returns, or the exception it throws. */
  datatype AddResult = Added(trades: seq<Trade>) | NullOrder | DuplicateId

  /** One iteration of the matching loop, seen on the flat book. */
  predicate StepsTo(book: Book, incoming: OrderState, t: Trade, book': Book, incoming': OrderState) {
    && !Stops(book, incoming)
    && var i, qty := BestAt(book, incoming), TradeQty(book, incoming);
       && t == Strike(incoming, book[i], qty)
       && incoming' == Reduce(incoming, qty)
       && book' == if qty < book[i].remaining then book[i := Fill(book[i], qty)] else RemoveAt(book, i)
  }

  lemma StepUnfolds(book: Book, incoming: OrderState, t: Trade, book': Book, incoming': OrderState)
    requires StepsTo(book, incoming, t, book', incoming')
    ensures var m := Match(book', incoming');
            Match(book, incoming) == Matched(m.book, m.incoming, [t] + m.trades)
  {
  }

  lemma StepShrinks(book: Book, incoming: OrderState, t: Trade, book': Book, incoming': OrderState)
    requires StepsTo(book, incoming, t, book', incoming')
    ensures |book'| < |book| || (|book'| == |book| && incoming'.remaining == 0 < incoming.remaining)
  {
  }

  lemma StoppedMatch(book: Book, incoming: OrderState)
    requires Stops(book, incoming)
    ensures Match(book, incoming) == Matched(book, incoming, [])
  {
  }

  /** The order a scan finds, if its price is acceptable, is the one the next iteration hits. */
  lemma ScannedIsHit(book: Book, incoming: OrderState, i: nat)
    requires i < |book| && Scan(book, Opposite(incoming.side)) == Some(i)
    requires 0 < incoming.remaining && Accepts(incoming, PriceOf(book[i]))
    ensures !Stops(book, incoming) && BestAt(book, incoming) == i
    ensures TradeQty(book, incoming) == Min(incoming.remaining, book[i].remaining)
  {
  }

  lemma Newcomer(book: Book, id: OrderId)
    ensures !Active(book, id) <==> forall i :: 0 <= i < |book| ==> book[i].id != id
  {
  }

  class OrderBook {
    var bids: Levels
    var asks: Levels
    var owned: map<OrderId, Order>
    var location: map<OrderId, Location>
    var nextToken: nat
    ghost var flat: Book

    ghost function Shape(): Shape
      reads this
    {
      BookIndex.Shape.Shape(bids, asks, owned, location, nextToken)
    }

    /** The structures agree with the flat book, whose orders are all fit to rest. */
    ghost predicate Represents(guests: set<OrderId>)
      reads this
    {
      Agree(Shape(), flat, guests) && AllRest(flat)
    }

    /** The order objects hold what the flat book says. */
    ghost predicate Tracks()
      reads this, owned.Values
    {
      forall i :: 0 <= i < |flat| ==> flat[i].id in owned && owned[flat[i].id].State() == flat[i]
    }

    ghost predicate TracksExcept(i: nat)
      reads this, owned.Values
    {
      forall j :: 0 <= j < |flat| && j != i ==> flat[j].id in owned && owned[flat[j].id].State() == flat[j]
    }

    ghost predicate Valid()
      reads this, owned.Values
    {
      Represents({}) && Tracks() && WellFormed(flat)
    }

    constructor ()
      ensures Valid() && flat == [] && owned == map[]
    {
      bids, asks, owned, location, nextToken := map[], map[], map[], map[], 0;
      flat := [];
    }

    // ---------- Matching ----------

    /** The book owns the incoming order, and it does not rest. */
    ghost predicate Matching(incoming: Order)
      reads this
    {
      && incoming.id in owned && owned[incoming.id] == incoming
      && forall i :: 0 <= i < |flat| ==> flat[i].id != incoming.id
    }

    /** The first entry of the ask map: its lowest price. */
    method BeginAsks() returns (price: real)
      requires asks != map[]
      ensures BestKey(asks, SELL, price)
    {
      assert asks.Keys != {};
      ghost var least := Least(asks.Keys, (a: real, b: real) => a <= b);
      assert forall q :: q in asks.Keys ==> least <= q;
      price :| price in asks.Keys && forall q :: q in asks.Keys ==> price <= q;
    }

    /** The first entry of the bid map, which sorts in descending order: its highest price. */
    method BeginBids() returns (price: real)
      requires bids != map[]
      ensures BestKey(bids, BUY, price)
    {
      assert bids.Keys != {};
      ghost var greatest := Least(bids.Keys, (a: real, b: real) => a >= b);
      assert forall q :: q in bids.Keys ==> q <= greatest;
      price :| price in bids.Keys && forall q :: q in bids.Keys ==> q <= price;
    }

    /** Completes the removal of a resting order from the structures by removing it from the flat book. */
    ghost method Forgotten(s: Shape, guests: set<OrderId>, side: Side, i: nat, p: real, k: nat)
      requires Agree(s, flat, guests) && AllRest(flat)
      requires i < |flat| && flat[i].id !in guests && RestsAt(flat[i], side, p)
      requires p in SideOf(s, side) && k < |SideOf(s, side)[p]| && SideOf(s, side)[p][k].order.id == flat[i].id
      requires Shape() == Erased(s, side, p, k)
      requires forall j :: 0 <= j < |flat| && j != i ==> flat[j].id in s.owned && s.owned[flat[j].id].State() == flat[j]
      modifies this`flat
      ensures flat == RemoveAt(old(flat), i)
      ensures Represents(guests) && Tracks()
    {
      hide Agree, Scan;
      ErasedAgrees(s, flat, guests, side, i, p, k);
      AgreeIsDistinct(s, flat, guests);
      RemoveAtKeepsOrderly(flat, i);
      flat := RemoveAt(flat, i);
      assert forall j :: 0 <= j < |flat| ==> flat[j] == old(flat)[if j < i then j else j + 1];
    }

    /** Drops the filled order at the front of an ask level from all four structures. */
    method PopBestAsk(ghost guests: set<OrderId>, ghost i: nat, price: real)
      requires Represents(guests) && TracksExcept(i)
      requires i < |flat| && flat[i].id !in guests && RestsAt(flat[i], SELL, price)
      requires price in asks && asks[price] != [] && asks[price][0].order.id == flat[i].id
      modifies this
      ensures Represents(guests) && Tracks()
      ensures flat == RemoveAt(old(flat), i)
      ensures owned == old(owned) - {old(flat)[i].id}
    {
      hide Agree, Scan, AllRest;
      ghost var s := Shape();
      var level := asks[price];
      var restingId := level[0].order.id;
      ErasedByHand(asks, price, 0);
      asks := asks[price := level[1..]];
      location := location - {restingId};
      owned := owned - {restingId};
      if asks[price] == [] {
        asks := asks - {price};
      }
      Forgotten(s, guests, SELL, i, price, 0);
    }

    /** Drops the filled order at the front of a bid level from all four structures. */
    method PopBestBid(ghost guests: set<OrderId>, ghost i: nat, price: real)
      requires Represents(guests) && TracksExcept(i)
      requires i < |flat| && flat[i].id !in guests && RestsAt(flat[i], BUY, price)
      requires price in bids && bids[price] != [] && bids[price][0].order.id == flat[i].id
      modifies this
      ensures Represents(guests) && Tracks()
      ensures flat == RemoveAt(old(flat), i)
      ensures owned == old(owned) - {old(flat)[i].id}
    {
      hide Agree, Scan, AllRest;
      ghost var s := Shape();
      var level := bids[price];
      var restingId := level[0].order.id;
      ErasedByHand(bids, price, 0);
      bids := bids[price := level[1..]];
      location := location - {restingId};
      owned := owned - {restingId};
      if bids[price] == [] {
        bids := bids - {price};
      }
      Forgotten(s, guests, BUY, i, price, 0);
    }

    /** Body of the matching loop of an incoming buy. */
    method HitBestAsk(incoming: Order, price: real) returns (trade: Trade)
      requires Represents({incoming.id}) && Tracks()
      requires Matching(incoming) && incoming.side.BUY?
      requires BestKey(asks, SELL, price) && 0 < incoming.remaining && Accepts(incoming.State(), price)
      modifies this, owned.Values
      ensures Represents({incoming.id}) && Tracks() && Matching(incoming)
      ensures owned.Values <= old(owned.Values)
      ensures StepsTo(old(flat), old(incoming.State()), trade, flat, incoming.State())
      ensures forall o :: o in old(owned.Values) && o !in owned.Values ==> o.status == FILLED && o.remaining == 0
    {
      hide Agree, Scan, Stops, BestAt, TradeQty;
      ghost var i := FrontOfBest(Shape(), flat, {incoming.id}, SELL, price);
      ScannedIsHit(flat, incoming.State(), i);
      var resting := asks[price][0].order;
      assert resting.State() == flat[i] && RestsProperly(flat[i]);
      var qty := Min(incoming.remaining, resting.remaining);
      trade := Trade(incoming.id, resting.id, price, qty);
      incoming.ReduceQuantity(qty);
      resting.ReduceQuantity(qty);
      if resting.remaining == 0 {
        resting.SetStatus(FILLED);
        ValuesShrink(owned, resting.id);
        PopBestAsk({incoming.id}, i, price);
        assert forall j :: 0 <= j < |flat| ==> flat[j] == old(flat)[if j < i then j else j + 1];
      } else {
        resting.SetStatus(PARTIALLY_FILLED);
        FilledAgrees(Shape(), flat, {incoming.id}, i, qty);
        flat := flat[i := Fill(flat[i], qty)];
      }
    }

    /** Body of the matching loop of an incoming sell. */
    method HitBestBid(incoming: Order, price: real) returns (trade: Trade)
      requires Represents({incoming.id}) && Tracks()
      requires Matching(incoming) && incoming.side.SELL?
      requires BestKey(bids, BUY, price) && 0 < incoming.remaining && Accepts(incoming.State(), price)
      modifies this, owned.Values
      ensures Represents({incoming.id}) && Tracks() && Matching(incoming)
      ensures owned.Values <= old(owned.Values)
      ensures StepsTo(old(flat), old(incoming.State()), trade, flat, incoming.State())
      ensures forall o :: o in old(owned.Values) && o !in owned.Values ==> o.status == FILLED && o.remaining == 0
    {
      hide Agree, Scan, Stops, BestAt, TradeQty;
      ghost var i := FrontOfBest(Shape(), flat, {incoming.id}, BUY, price);
      ScannedIsHit(flat, incoming.State(), i);
      var resting := bids[price][0].order;
      assert resting.State() == flat[i] && RestsProperly(flat[i]);
      var qty := Min(incoming.remaining, resting.remaining);
      trade := Trade(resting.id, incoming.id, price, qty);
      incoming.ReduceQuantity(qty);
      resting.ReduceQuantity(qty);
      if resting.remaining == 0 {
        resting.SetStatus(FILLED);
        ValuesShrink(owned, resting.id);
        PopBestBid({incoming.id}, i, price);
        assert forall j :: 0 <= j < |flat| ==> flat[j] == old(flat)[if j < i then j else j + 1];
      } else {
        resting.SetStatus(PARTIALLY_FILLED);
        FilledAgrees(Shape(), flat, {incoming.id}, i, qty);
        flat := flat[i := Fill(flat[i], qty)];
      }
    }

    /** Incoming buy: walks the ask levels from the best price until filled, refused or out of depth. */
    method MatchBuy(incoming: Order) returns (trades: seq<Trade>)
      requires Represents({incoming.id}) && Tracks() && Matching(incoming)
      requires incoming.side.BUY?
      modifies this, owned.Values
      ensures Represents({incoming.id}) && Tracks() && Matching(incoming)
      ensures owned.Values <= old(owned.Values)
      ensures Matched(flat, incoming.State(), trades) == Match(old(flat), old(incoming.State()))
      ensures forall o :: o in old(owned.Values) && o !in owned.Values ==> o.status == FILLED && o.remaining == 0
    {
      hide Agree, AllRest, Scan, Match, StepsTo, OrderBook.Tracks, OrderBook.Matching;
      trades := [];
      ghost var result := Match(flat, incoming.State());
      NoBestLevel(Shape(), flat, {incoming.id}, SELL);
      while incoming.remaining > 0 && asks != map[]
        invariant Represents({incoming.id}) && Tracks() && Matching(incoming)
        invariant owned.Values <= old(owned.Values)
        invariant forall o :: o in old(owned.Values) && o !in owned.Values ==> o.status == FILLED && o.remaining == 0
        invariant asks == map[] <==> Scan(flat, SELL).None?
        invariant var m := Match(flat, incoming.State()); result == Matched(m.book, m.incoming, trades + m.trades)
        decreases |flat|, incoming.remaining
      {
        var price := BeginAsks();
        ghost var i := FrontOfBest(Shape(), flat, {incoming.id}, SELL, price);
        var priceOk := incoming.terms.Market? || incoming.terms.price >= price;
        if !priceOk {
          break;
        }
        ghost var book, o := flat, incoming.State();
        var trade := HitBestAsk(incoming, price);
        StepUnfolds(book, o, trade, flat, incoming.State());
        StepShrinks(book, o, trade, flat, incoming.State());
        NoBestLevel(Shape(), flat, {incoming.id}, SELL);
        trades := trades + [trade];
      }
      StoppedMatch(flat, incoming.State());
    }

    /** Incoming sell: walks the bid levels from the best price until filled, refused or out of depth. */
    method MatchSell(incoming: Order) returns (trades: seq<Trade>)
      requires Represents({incoming.id}) && Tracks() && Matching(incoming)
      requires incoming.side.SELL?
      modifies this, owned.Values
      ensures Represents({incoming.id}) && Tracks() && Matching(incoming)
      ensures owned.Values <= old(owned.Values)
      ensures Matched(flat, incoming.State(), trades) == Match(old(flat), old(incoming.State()))
      ensures forall o :: o in old(owned.Values) && o !in owned.Values ==> o.status == FILLED && o.remaining == 0
    {
      hide Agree, AllRest, Scan, Match, StepsTo, OrderBook.Tracks, OrderBook.Matching;
      trades := [];
      ghost var result := Match(flat, incoming.State());
      NoBestLevel(Shape(), flat, {incoming.id}, BUY);
      while incoming.remaining > 0 && bids != map[]
        invariant Represents({incoming.id}) && Tracks() && Matching(incoming)
        invariant owned.Values <= old(owned.Values)
        invariant forall o :: o in old(owned.Values) && o !in owned.Values ==> o.status == FILLED && o.remaining == 0
        invariant bids == map[] <==> Scan(flat, BUY).None?
        invariant var m := Match(flat, incoming.State()); result == Matched(m.book, m.incoming, trades + m.trades)
        decreases |flat|, incoming.remaining
      {
        var price := BeginBids();
        ghost var i := FrontOfBest(Shape(), flat, {incoming.id}, BUY, price);
        var priceOk := incoming.terms.Market? || incoming.terms.price <= price;
        if !priceOk {
          break;
        }
        ghost var book, o := flat, incoming.State();
        var trade := HitBestBid(incoming, price);
        StepUnfolds(book, o, trade, flat, incoming.State());
        StepShrinks(book, o, trade, flat, incoming.State());
        NoBestLevel(Shape(), flat, {incoming.id}, BUY);
        trades := trades + [trade];
      }
      StoppedMatch(flat, incoming.State());
    }

    method MatchIncoming(incoming: Order) returns (trades: seq<Trade>)
      requires Represents({incoming.id}) && Tracks() && Matching(incoming)
      modifies this, owned.Values
      ensures Represents({incoming.id}) && Tracks() && Matching(incoming)
      ensures owned.Values <= old(owned.Values)
      ensures Matched(flat, incoming.State(), trades) == Match(old(flat), old(incoming.State()))
      ensures forall o :: o in old(owned.Values) && o !in owned.Values ==> o.status == FILLED && o.remaining == 0
    {
      if incoming.side.BUY? {
        trades := MatchBuy(incoming);
      } else {
        trades := MatchSell(incoming);
      }
    }

    // ---------- Resting ----------

    /** Puts a still-open limit order at the back of the level of its price. */
    method RestInBook(incoming: Order)
      requires Represents({incoming.id}) && Tracks()
      requires Matching(incoming)
      requires RestsProperly(incoming.State())
      modifies this
      ensures Represents({}) && Tracks()
      ensures flat == old(flat) + [incoming.State()]
      ensures owned == old(owned)
    {
      hide Agree, Scan;
      ghost var s := Shape();
      var price, id := incoming.terms.price, incoming.id;
      if incoming.side.BUY? {
        bids := bids[price := LevelAt(bids, price) + [Node(nextToken, incoming)]];
        location := location[id := Location(BUY, price, nextToken)];
      } else {
        asks := asks[price := LevelAt(asks, price) + [Node(nextToken, incoming)]];
        location := location[id := Location(SELL, price, nextToken)];
      }
      nextToken := nextToken + 1;
      PushedAgrees(s, flat, incoming, incoming.State());
      flat := flat + [incoming.State()];
    }

    /** Gives up ownership of an order that will not rest. */
    method Dismiss(order: Order, final: OrderStatus)
      requires Represents({order.id}) && Tracks() && Matching(order)
      modifies this`owned, order`status
      ensures Represents({}) && Tracks()
      ensures order.State() == old(order.State()).(status := final)
      ensures owned == old(owned) - {order.id} && owned.Values <= old(owned.Values)
      ensures forall o :: o in old(owned.Values) && o !in owned.Values ==> o == order
    {
      hide Agree, AllRest;
      order.SetStatus(final);
      Newcomer(flat, order.id);
      OwnershipAgrees(Shape(), flat, order);
      ValuesShrink(owned, order.id);
      owned := owned - {order.id};
    }

    // ---------- The public operations ----------

    /**
     Takes ownership of an order and matches it. Trades, book and the order's own final state are
     those of the naive matcher; a null order and an id that is already active change nothing.
     */
    method AddOrder(order: Order?) returns (r: AddResult)
      requires Valid()
      requires order != null ==> ValidOrder(order.State())
      modifies this, owned.Values, order
      ensures Valid()
      ensures r.NullOrder? <==> order == null
      ensures r.DuplicateId? <==> order != null && Active(old(flat), order.id)
      ensures !r.Added? ==> flat == old(flat) && Shape() == old(Shape())
      ensures r.Added? ==>
                var out := Add(old(flat), old(order.State()));
                && out.ok && flat == out.book && r.trades == out.trades
                && Some(order.State()) == out.order
      ensures order != null ==> owned.Values <= old(owned.Values) + {order}
      ensures forall o :: o in old(owned.Values) && o !in owned.Values && o != order ==>
                o.status == FILLED && o.remaining == 0
    {
      hide Agree, Active, AllRest, WellFormed, Scan, Match;
      if order == null {
        return NullOrder;
      }
      var id := order.id;
      OwnedIsActive(Shape(), flat, id);
      if id in owned {
        return DuplicateId;
      }
      ghost var o := order.State();
      AddKeepsWellFormed(flat, o);
      Newcomer(flat, id);
      ValuesGrow(owned, id, order);
      OwnershipAgrees(Shape(), flat, order);
      owned := owned[id := order];
      var trades := MatchIncoming(order);
      MatchKeepsIncoming(old(flat), o);
      MatchReducesIncoming(old(flat), o);
      if order.remaining == 0 {
        Dismiss(order, FILLED);
      } else if order.terms.Limit? {
        order.SetStatus(if order.remaining == order.quantity then OPEN else PARTIALLY_FILLED);
        RestInBook(order);
      } else {
        Dismiss(order, CANCELLED);
      }
      return Added(trades);
    }

    /** Erases from its level the node an index entry remembers, and the level if that empties it. */
    method EraseNode(loc: Location, ghost k: nat)
      requires loc.price in SideOf(Shape(), loc.side)
      requires var level := SideOf(Shape(), loc.side)[loc.price];
               && k < |level| && level[k].token == loc.node
               && forall j :: 0 <= j < |level| && level[j].token == loc.node ==> j == k
      modifies this`bids, this`asks
      ensures Shape() == old(WithSide(Shape(), loc.side, WithoutNode(SideOf(Shape(), loc.side), loc.price, k)))
    {
      ErasedByHand(SideOf(Shape(), loc.side), loc.price, k);
      if loc.side.BUY? {
        var level := bids[loc.price];
        var n :| 0 <= n < |level| && level[n].token == loc.node;
        bids := bids[loc.price := RemoveAt(level, n)];
        if bids[loc.price] == [] {
          bids := bids - {loc.price};
        }
      } else {
        var level := asks[loc.price];
        var n :| 0 <= n < |level| && level[n].token == loc.node;
        asks := asks[loc.price := RemoveAt(level, n)];
        if asks[loc.price] == [] {
          asks := asks - {loc.price};
        }
      }
    }

    /**
     Cancels a resting order through the index. The unchecked lookups succeed: an indexed order's
     level exists and holds the node the index remembers.
     */
    method CancelOrder(id: OrderId) returns (ok: bool)
      requires Valid()
      modifies this, owned.Values
      ensures Valid()
      ensures var out := Remove(old(flat), id); ok == out.ok && flat == out.book
      ensures ok ==> id in old(owned) && old(owned)[id].State() == old(owned[id].State()).(status := CANCELLED)
      ensures ok ==> Some(old(owned)[id].State()) == Remove(old(flat), id).order
      ensures !ok ==> Shape() == old(Shape())
      ensures owned.Values <= old(owned.Values)
    {
      hide Agree, Active, AllRest, Uncrossed, Scan, Match;
      OwnedIsActive(Shape(), flat, id);
      if id !in location {
        return false;
      }
      ghost var s := Shape();
      ghost var i, k := IndexIsRight(s, flat, {}, id);
      RemoveKeepsWellFormed(flat, id);
      var loc := location[id];
      EraseNode(loc, k);
      location := location - {id};
      if id in owned {
        owned[id].SetStatus(CANCELLED);
        owned := owned - {id};
      }
      Forgotten(s, {}, loc.side, i, loc.price, k);
      return true;
    }

    method GetBestBid() returns (price: Option<real>)
      requires Valid()
      ensures price == BestPrice(flat, BUY)
    {
      NoBestLevel(Shape(), flat, {}, BUY);
      if bids == map[] {
        return None;
      }
      var p := BeginBids();
      ghost var i := FrontOfBest(Shape(), flat, {}, BUY, p);
      return Some(p);
    }

    method GetBestAsk() returns (price: Option<real>)
      requires Valid()
      ensures price == BestPrice(flat, SELL)
    {
      NoBestLevel(Shape(), flat, {}, SELL);
      if asks == map[] {
        return None;
      }
      var p := BeginAsks();
      ghost var i := FrontOfBest(Shape(), flat, {}, SELL, p);
      return Some(p);
    }
  }
}
