/** The vocabulary of the exchange: sides, order terms, the value of an order, trades and commands. */
module Trading {

  const TWO_63: int := 0x8000_0000_0000_0000
  const TWO_64: int := 0x1_0000_0000_0000_0000

  /** std::uint64_t, the type of order ids, trader ids and sequence numbers. */
  type Uint64 = x: int | 0 <= x < 0x1_0000_0000_0000_0000
  type OrderId = Uint64
  type TraderId = Uint64

  datatype Option<+T> = None | Some(value: T)

  datatype Side = BUY | SELL

  datatype OrderStatus = NEW | OPEN | PARTIALLY_FILLED | FILLED | CANCELLED

  /** A market order has no price; a limit order carries its limit. */
  datatype Terms = Market | Limit(price: real)

  /** Everything an order object holds except its timestamp. */
  datatype OrderState = OrderState(
    id: OrderId,
    trader: TraderId,
    side: Side,
    terms: Terms,
    quantity: int,
    remaining: int,
    status: OrderStatus)

  datatype Trade = Trade(buyId: OrderId, sellId: OrderId, price: real, quantity: int)

  datatype Command = Submit(order: OrderState) | Cancel(id: OrderId)

  function Opposite(side: Side): Side {
    if side.BUY? then SELL else BUY
  }

  function Min(a: int, b: int): int {
    if a <= b then a else b
  }

  /**
   What the constructors and the clamp in reduceQuantity guarantee of any order. A negative fill may
   leave more remaining than the original size.
   */
  predicate ValidOrder(o: OrderState) {
    && 0 <= o.remaining
    && 0 < o.quantity
    && (o.terms.Limit? ==> 0.0 < o.terms.price)
  }

  /** An order as the factory hands it out: nothing filled yet. */
  predicate FreshOrder(o: OrderState) {
    ValidOrder(o) && o.remaining == o.quantity && o.status == NEW
  }

  /** Some member of a non-empty set. */
  lemma Member<T>(s: set<T>) returns (x: T)
    requires s != {}
    ensures x in s
  {
    x :| x in s;
  }

  /** A finite non-empty set has a least member under any total order. */
  lemma Least<T(!new)>(s: set<T>, leq: (T, T) -> bool) returns (x: T)
    requires s != {}
    requires forall a, b :: leq(a, b) || leq(b, a)
    requires forall a, b, c :: leq(a, b) && leq(b, c) ==> leq(a, c)
    ensures x in s && forall y :: y in s ==> leq(x, y)
    decreases |s|
  {
    x := Member(s);
    var rest := s - {x};
    if rest != {} {
      var m := Least(rest, leq);
      if leq(m, x) {
        x := m;
      }
    }
    assert forall y :: y in s ==> y in rest || y == x || leq(x, y);
  }
}
