/**
 The reference matcher. The book is one flat sequence of resting orders in arrival order; matching
 repeatedly scans the whole sequence for the best price and, at that price, the earliest arrival.
 The indexed OrderBook is proved to compute exactly this.
 */
module PriceTime {
  import opened Trading

  type Book = seq<OrderState>

  /** p is a strictly better price than q for an order resting on the given side. */
  predicate Improves(side: Side, p: real, q: real) {
    match side
    case BUY => p > q
    case SELL => p < q
  }

  /** An order of this side and these terms is willing to trade at price p. */
  predicate Tolerates(side: Side, terms: Terms, p: real) {
    match terms
    case Market => true
    case Limit(limit) => if side.BUY? then limit >= p else limit <= p
  }

  predicate Accepts(o: OrderState, p: real) {
    Tolerates(o.side, o.terms, p)
  }

  function PriceOf(o: OrderState): real {
    if o.terms.Limit? then o.terms.price else 0.0
  }

  /** Index of the best-priced and then earliest order on a side, found by one left-to-right scan. */
  function Scan(book: Book, side: Side): (r: Option<nat>)
    ensures r.Some? ==> r.value < |book| && book[r.value].side == side
  {
    if book == [] then None
    else
      var last := |book| - 1;
      var best := Scan(book[..last], side);
      if book[last].side == side &&
         (best.None? || Improves(side, PriceOf(book[last]), PriceOf(book[best.value])))
      then Some(last)
      else best
  }

  function Fill(o: OrderState, qty: int): OrderState {
    o.(remaining := o.remaining - qty, status := PARTIALLY_FILLED)
  }

  function Reduce(o: OrderState, qty: int): OrderState {
    o.(remaining := o.remaining - qty)
  }

  /** A trade is struck at the resting order's price. */
  function Strike(incoming: OrderState, resting: OrderState, qty: int): Trade {
    if incoming.side.BUY?
    then Trade(incoming.id, resting.id, PriceOf(resting), qty)
    else Trade(resting.id, incoming.id, PriceOf(resting), qty)
  }

  function RemoveAt<T>(s: seq<T>, i: nat): seq<T>
    requires i < |s|
  {
    s[..i] + s[i + 1..]
  }

  datatype Matched = Matched(book: Book, incoming: OrderState, trades: seq<Trade>)

  /** Match an incoming order until it is filled, the other side is empty or its limit is reached. */
  function Match(book: Book, incoming: OrderState): Matched
    decreases |book|
  {
    var best := Scan(book, Opposite(incoming.side));
    if incoming.remaining <= 0 || best.None? || !Accepts(incoming, PriceOf(book[best.value])) then
      Matched(book, incoming, [])
    else
      var i := best.value;
      var qty := Min(incoming.remaining, book[i].remaining);
      var trade := Strike(incoming, book[i], qty);
      if qty < book[i].remaining then
        Matched(book[i := Fill(book[i], qty)], Reduce(incoming, qty), [trade])
      else
        var rest := Match(RemoveAt(book, i), Reduce(incoming, qty));
        Matched(rest.book, rest.incoming, [trade] + rest.trades)
  }

  predicate Active(book: Book, id: OrderId) {
    exists i :: 0 <= i < |book| && book[i].id == id
  }

  /** Quantity that leaves the market without trading: cancelled, or an unfilled market remainder. */
  datatype Release = Release(id: OrderId, quantity: int)

  /**
   Result of one command. `order` is the final state of the submitted or cancelled order, when
   there is one; `ok` is false for a refused duplicate and for a cancel that finds nothing.
   */
  datatype Outcome = Outcome(
    ok: bool,
    book: Book,
    trades: seq<Trade>,
    order: Option<OrderState>,
    released: seq<Release>)

  function RestStatus(o: OrderState): OrderStatus {
    if o.remaining == o.quantity then OPEN else PARTIALLY_FILLED
  }

  function Add(book: Book, o: OrderState): Outcome {
    if Active(book, o.id) then
      Outcome(false, book, [], None, [])
    else
      var m := Match(book, o);
      if m.incoming.remaining == 0 then
        Outcome(true, m.book, m.trades, Some(m.incoming.(status := FILLED)), [])
      else if m.incoming.terms.Limit? then
        var resting := m.incoming.(status := RestStatus(m.incoming));
        Outcome(true, m.book + [resting], m.trades, Some(resting), [])
      else
        Outcome(true, m.book, m.trades, Some(m.incoming.(status := CANCELLED)),
                [Release(o.id, m.incoming.remaining)])
  }

  function IndexOf(book: Book, id: OrderId): (r: Option<nat>)
    ensures r.Some? ==> r.value < |book| && book[r.value].id == id
    ensures r.Some? <==> Active(book, id)
  {
    if book == [] then None
    else if book[|book| - 1].id == id then Some(|book| - 1)
    else
      var r := IndexOf(book[..|book| - 1], id);
      assert Active(book, id) ==> Active(book[..|book| - 1], id);
      r
  }

  function Remove(book: Book, id: OrderId): Outcome {
    var at := IndexOf(book, id);
    if at.None? then
      Outcome(false, book, [], None, [])
    else
      var o := book[at.value];
      Outcome(true, RemoveAt(book, at.value), [], Some(o.(status := CANCELLED)),
              [Release(id, o.remaining)])
  }

  function Apply(book: Book, c: Command): Outcome {
    match c
    case Submit(o) => Add(book, o)
    case Cancel(id) => Remove(book, id)
  }

  function BestPrice(book: Book, side: Side): Option<real> {
    var best := Scan(book, side);
    if best.None? then None else Some(PriceOf(book[best.value]))
  }

  /** A submission under an id that is still active makes addOrder throw. */
  predicate Throws(book: Book, c: Command) {
    c.Submit? && Active(book, c.order.id)
  }

  /** The accumulated effect of a stream of commands on a market. */
  datatype Session = Session(book: Book, trades: seq<Trade>, released: seq<Release>)

  function RunFrom(start: Book, commands: seq<Command>): Session {
    if commands == [] then Session(start, [], [])
    else
      var before := RunFrom(start, commands[..|commands| - 1]);
      var out := Apply(before.book, commands[|commands| - 1]);
      Session(out.book, before.trades + out.trades, before.released + out.released)
  }

  /** A run starts from an empty market. */
  function Run(commands: seq<Command>): Session {
    RunFrom([], commands)
  }

  // ---------- Invariants of the flat book ----------

  /** Only limit orders with something left rest; one that counts as open is whole. */
  predicate RestsProperly(o: OrderState) {
    && o.terms.Limit?
    && 0.0 < o.terms.price
    && 1 <= o.remaining
    && (o.status == OPEN || o.status == PARTIALLY_FILLED)
    && (o.status == OPEN ==> o.remaining == o.quantity)
  }

  /** No more is left than the order's size, and the status says whether it is whole. */
  predicate WellSized(o: OrderState) {
    && o.remaining <= o.quantity
    && (o.status == OPEN <==> o.remaining == o.quantity)
    && (o.status == PARTIALLY_FILLED <==> o.remaining != o.quantity)
  }

  predicate AllRest(book: Book) {
    forall i :: 0 <= i < |book| ==> RestsProperly(book[i])
  }

  predicate DistinctIds(book: Book) {
    forall i, j :: 0 <= i < j < |book| ==> book[i].id != book[j].id
  }

  predicate Uncrossed(book: Book) {
    forall i, j :: 0 <= i < |book| && 0 <= j < |book| && book[i].side.BUY? && book[j].side.SELL?
      ==> PriceOf(book[i]) < PriceOf(book[j])
  }

  predicate WellFormed(book: Book) {
    && AllRest(book)
    && DistinctIds(book)
    && Uncrossed(book)
  }

  predicate ValidCommand(c: Command) {
    c.Submit? ==> ValidOrder(c.order)
  }

  predicate ValidCommands(cs: seq<Command>) {
    forall i :: 0 <= i < |cs| ==> ValidCommand(cs[i])
  }
}
