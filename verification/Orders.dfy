/** Order objects and the factory that builds them. */
module Orders {
  import opened Trading

  datatype OrderKind = MARKET | LIMIT

  class Order {
    const id: OrderId
    const trader: TraderId
    const side: Side
    const terms: Terms
    const quantity: int
    var remaining: int
    var status: OrderStatus

    ghost function State(): OrderState
      reads this
    {
      OrderState(id, trader, side, terms, quantity, remaining, status)
    }

    constructor (id: OrderId, trader: TraderId, side: Side, terms: Terms, quantity: int)
      ensures State() == OrderState(id, trader, side, terms, quantity, quantity, NEW)
    {
      this.id, this.trader, this.side, this.terms := id, trader, side, terms;
      this.quantity, this.remaining, this.status := quantity, quantity, NEW;
    }

    /** Records a fill; the remaining quantity is clamped at zero. */
    method ReduceQuantity(filled: int)
      modifies this`remaining
      ensures remaining == if filled <= old(remaining) then old(remaining) - filled else 0
    {
      remaining := if 0 <= remaining - filled then remaining - filled else 0;
    }

    method SetStatus(s: OrderStatus)
      modifies this`status
      ensures status == s
    {
      status := s;
    }
  }

  /**
   Builds an order, or nothing where a constructor would throw: a size that is not positive, or a
   limit price that is not. The price of a market order is ignored.
   */
  method CreateOrder(kind: OrderKind, id: OrderId, trader: TraderId, side: Side, quantity: int, price: real)
    returns (order: Order?)
    ensures order == null <==> quantity <= 0 || (kind.LIMIT? && price <= 0.0)
    ensures order != null ==>
              && fresh(order)
              && order.State() == Created(kind, id, trader, side, quantity, price)
              && FreshOrder(order.State())
  {
    if quantity <= 0 {
      return null;
    }
    match kind
    case MARKET =>
      order := new Order(id, trader, side, Market, quantity);
    case LIMIT =>
      if price <= 0.0 {
        return null;
      }
      order := new Order(id, trader, side, Limit(price), quantity);
  }

  function Created(kind: OrderKind, id: OrderId, trader: TraderId, side: Side, quantity: int, price: real): OrderState {
    OrderState(id, trader, side, if kind.LIMIT? then Limit(price) else Market, quantity, quantity, NEW)
  }
}
