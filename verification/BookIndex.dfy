/**
 The data structures of the indexed book and how they represent the flat one: price levels of list
 nodes, the owner map and the cancel index. A list iterator is the identity of a list node; it stays
 valid while other nodes come and go, and dereferencing it needs the node to be still there.
 */
module BookIndex {
  import opened Trading
  import opened PriceTime
  import opened MatchingLaws
  import opened Orders

  /** A node of a price level's list: its identity and the order it points to. */
  datatype Node = Node(token: nat, order: Order)

  datatype Location = Location(side: Side, price: real, node: nat)

  /** A price-sorted map of FIFO lists; its first entry is its best key. */
  type Levels = map<real, seq<Node>>

  function LevelAt(levels: Levels, p: real): seq<Node> {
    if p in levels then levels[p] else []
  }

  function NodeIds(level: seq<Node>): (ids: seq<OrderId>)
    ensures |ids| == |level| && forall k :: 0 <= k < |level| ==> ids[k] == level[k].order.id
  {
    seq(|level|, k requires 0 <= k < |level| => level[k].order.id)
  }

  predicate RestsAt(o: OrderState, side: Side, p: real) {
    o.side == side && PriceOf(o) == p
  }

  /** Ids resting on a side at one price, in arrival order. */
  function IdsAt(flat: Book, side: Side, p: real): seq<OrderId> {
    if flat == [] then []
    else
      var last := |flat| - 1;
      IdsAt(flat[..last], side, p) + if RestsAt(flat[last], side, p) then [flat[last].id] else []
  }

  // ---------- Representation ----------

  /** The levels list exactly the orders of the flat book, price by price and first come first; none is empty. */
  ghost predicate Lists(levels: Levels, side: Side, flat: Book) {
    && (forall p :: p in levels ==> levels[p] != [])
    && (forall p: real :: NodeIds(LevelAt(levels, p)) == IdsAt(flat, side, p))
  }

  /** A node points to the owned order, and the cancel index points back to the node. */
  ghost predicate NodeLinked(n: Node, side: Side, p: real, owned: map<OrderId, Order>,
                             location: map<OrderId, Location>, nextToken: nat)
  {
    && n.token < nextToken
    && n.order.id in owned && owned[n.order.id] == n.order
    && n.order.id in location && location[n.order.id] == Location(side, p, n.token)
  }

  ghost predicate Linked(levels: Levels, side: Side, owned: map<OrderId, Order>,
                         location: map<OrderId, Location>, nextToken: nat)
  {
    && (forall p, k :: p in levels && 0 <= k < |levels[p]| ==>
          NodeLinked(levels[p][k], side, p, owned, location, nextToken))
    && (forall p, a, b :: p in levels && 0 <= a < b < |levels[p]| ==> levels[p][a].token != levels[p][b].token)
  }

  // ---------- Ids at a price under changes of the flat book ----------

  lemma {:induction false} ListedIsActive(flat: Book, side: Side, p: real, id: OrderId)
    requires id in IdsAt(flat, side, p)
    ensures exists i :: 0 <= i < |flat| && RestsAt(flat[i], side, p) && flat[i].id == id
  {
    var last := |flat| - 1;
    if id in IdsAt(flat[..last], side, p) {
      ListedIsActive(flat[..last], side, p, id);
      var i :| 0 <= i < last && RestsAt(flat[..last][i], side, p) && flat[..last][i].id == id;
      assert RestsAt(flat[i], side, p);
    } else {
      assert RestsAt(flat[last], side, p);
    }
  }

  lemma {:induction false} ActiveIsListed(flat: Book, i: nat)
    requires i < |flat|
    ensures flat[i].id in IdsAt(flat, flat[i].side, PriceOf(flat[i]))
  {
    if i < |flat| - 1 {
      ActiveIsListed(flat[..|flat| - 1], i);
    }
  }

  /** The first order in line heads the list of its price. */
  lemma {:induction false} FirstIsFront(flat: Book, side: Side, p: real, i: nat)
    requires i < |flat| && RestsAt(flat[i], side, p)
    requires forall j :: 0 <= j < i ==> !RestsAt(flat[j], side, p)
    ensures IdsAt(flat, side, p) != [] && IdsAt(flat, side, p)[0] == flat[i].id
  {
    var last := |flat| - 1;
    if i < last {
      FirstIsFront(flat[..last], side, p, i);
    } else {
      NoneListed(flat[..last], side, p);
    }
  }

  lemma {:induction false} NoneListed(flat: Book, side: Side, p: real)
    requires forall j :: 0 <= j < |flat| ==> !RestsAt(flat[j], side, p)
    ensures IdsAt(flat, side, p) == []
  {
    if flat != [] {
      NoneListed(flat[..|flat| - 1], side, p);
    }
  }

  /** A fill changes nobody's place. */
  lemma {:induction false} IdsAtAfterFill(flat: Book, i: nat, o: OrderState, side: Side, p: real)
    requires i < |flat|
    requires o.id == flat[i].id && o.side == flat[i].side && o.terms == flat[i].terms
    ensures IdsAt(flat[i := o], side, p) == IdsAt(flat, side, p)
  {
    var last := |flat| - 1;
    if i < last {
      IdsAtAfterFill(flat[..last], i, o, side, p);
      assert flat[i := o][..last] == flat[..last][i := o];
    } else {
      assert flat[i := o][..last] == flat[..last];
    }
  }

  lemma {:induction false} IdsAtElsewhere(flat: Book, i: nat, side: Side, p: real)
    requires i < |flat| && !RestsAt(flat[i], side, p)
    ensures IdsAt(RemoveAt(flat, i), side, p) == IdsAt(flat, side, p)
  {
    var last := |flat| - 1;
    var s := RemoveAt(flat, i);
    if i < last {
      IdsAtElsewhere(flat[..last], i, side, p);
      assert s[..last - 1] == RemoveAt(flat[..last], i);
      assert s[last - 1] == flat[last];
    } else {
      assert s == flat[..last];
    }
  }

  /** Removing an order removes its entry from the list of its price and keeps the others' order. */
  lemma {:induction false} IdsAtAfterRemove(flat: Book, i: nat, k: nat)
    requires DistinctIds(flat) && i < |flat|
    requires var ids := IdsAt(flat, flat[i].side, PriceOf(flat[i]));
             k < |ids| && ids[k] == flat[i].id
    ensures IdsAt(RemoveAt(flat, i), flat[i].side, PriceOf(flat[i]))
         == RemoveAt(IdsAt(flat, flat[i].side, PriceOf(flat[i])), k)
  {
    var last, side, p := |flat| - 1, flat[i].side, PriceOf(flat[i]);
    var s := RemoveAt(flat, i);
    var ids := IdsAt(flat[..last], side, p);
    if i == last {
      assert s == flat[..last];
      if k < |ids| {
        ListedIsActive(flat[..last], side, p, ids[k]);
        assert false;
      }
      assert RemoveAt(ids + [flat[last].id], k) == ids;
    } else {
      assert k < |ids|;
      IdsAtAfterRemove(flat[..last], i, k);
      assert s[..last - 1] == RemoveAt(flat[..last], i);
      assert s[last - 1] == flat[last];
      assert RemoveAt(ids + [flat[last].id], k) == RemoveAt(ids, k) + [flat[last].id];
    }
  }

  // ---------- The best level ----------

  /** p is the first key of the level map, in the order its side sorts by. */
  predicate BestKey(levels: Levels, side: Side, p: real) {
    p in levels && forall q :: q in levels ==> !Improves(side, q, p)
  }

  /** The front of the best level is what a scan of the flat book finds. */
  lemma BestLevelIsScan(levels: Levels, side: Side, flat: Book, p: real)
    requires Lists(levels, side, flat) && BestKey(levels, side, p)
    ensures Scan(flat, side).Some?
    ensures PriceOf(flat[Scan(flat, side).value]) == p
    ensures levels[p][0].order.id == flat[Scan(flat, side).value].id
  {
    ScanFindsFirstInLine(flat, side);
    var front := IdsAt(flat, side, p)[0];
    ListedIsActive(flat, side, p, front);
    var j :| 0 <= j < |flat| && RestsAt(flat[j], side, p) && flat[j].id == front;
    var i := Scan(flat, side).value;
    assert i == j || Outranks(flat, i, j);
    var q := PriceOf(flat[i]);
    ActiveIsListed(flat, i);
    assert NodeIds(LevelAt(levels, q)) != [];
    assert q in levels;
    assert p == q;
    FirstIsFront(flat, side, p, i);
  }

  lemma EmptyLevelsIsNoScan(levels: Levels, side: Side, flat: Book)
    requires Lists(levels, side, flat)
    ensures Scan(flat, side).None? <==> levels == map[]
  {
    ScanFindsFirstInLine(flat, side);
    if Scan(flat, side).Some? {
      var i := Scan(flat, side).value;
      ActiveIsListed(flat, i);
      assert NodeIds(LevelAt(levels, PriceOf(flat[i]))) != [];
      assert PriceOf(flat[i]) in levels;
    } else if levels != map[] {
      assert levels.Keys != {};
      var p := Member(levels.Keys);
      assert levels[p] != [] && NodeIds(LevelAt(levels, p)) == IdsAt(flat, side, p);
      NoneListed(flat, side, p);
      assert false;
    }
  }

  // ---------- Listing under changes of the levels ----------

  /** Level map after the k-th node of a level is erased; an emptied level is dropped. */
  function WithoutNode(levels: Levels, p: real, k: nat): Levels
    requires p in levels && k < |levels[p]|
  {
    if |levels[p]| == 1 then levels - {p} else levels[p := RemoveAt(levels[p], k)]
  }

  lemma ErasedIsListed(levels: Levels, side: Side, flat: Book, i: nat, p: real, k: nat)
    requires Lists(levels, side, flat) && DistinctIds(flat)
    requires i < |flat| && RestsAt(flat[i], side, p)
    requires p in levels && k < |levels[p]| && levels[p][k].order.id == flat[i].id
    ensures Lists(WithoutNode(levels, p, k), side, RemoveAt(flat, i))
  {
    var levels', flat' := WithoutNode(levels, p, k), RemoveAt(flat, i);
    forall q: real ensures NodeIds(LevelAt(levels', q)) == IdsAt(flat', side, q) {
      assert NodeIds(LevelAt(levels, q)) == IdsAt(flat, side, q);
      if q == p {
        IdsAtAfterRemove(flat, i, k);
        assert NodeIds(LevelAt(levels', p)) == RemoveAt(NodeIds(levels[p]), k);
      } else {
        IdsAtElsewhere(flat, i, side, q);
        assert LevelAt(levels', q) == LevelAt(levels, q);
      }
    }
  }

  lemma ErasedElsewhere(levels: Levels, side: Side, flat: Book, i: nat)
    requires Lists(levels, side, flat)
    requires i < |flat| && flat[i].side != side
    ensures Lists(levels, side, RemoveAt(flat, i))
  {
    forall q: real ensures NodeIds(LevelAt(levels, q)) == IdsAt(RemoveAt(flat, i), side, q) {
      assert NodeIds(LevelAt(levels, q)) == IdsAt(flat, side, q);
      IdsAtElsewhere(flat, i, side, q);
    }
  }

  lemma FilledIsListed(levels: Levels, side: Side, flat: Book, i: nat, o: OrderState)
    requires Lists(levels, side, flat)
    requires i < |flat| && o.id == flat[i].id && o.side == flat[i].side && o.terms == flat[i].terms
    ensures Lists(levels, side, flat[i := o])
  {
    forall q: real ensures NodeIds(LevelAt(levels, q)) == IdsAt(flat[i := o], side, q) {
      assert NodeIds(LevelAt(levels, q)) == IdsAt(flat, side, q);
      IdsAtAfterFill(flat, i, o, side, q);
    }
  }

  lemma IdsAtAfterPush(flat: Book, o: OrderState, side: Side, p: real)
    ensures IdsAt(flat + [o], side, p) == IdsAt(flat, side, p) + if RestsAt(o, side, p) then [o.id] else []
  {
  }

  lemma PushedIsListed(levels: Levels, side: Side, flat: Book, o: OrderState, n: Node)
    requires Lists(levels, side, flat)
    requires o.side == side && n.order.id == o.id
    ensures Lists(levels[PriceOf(o) := LevelAt(levels, PriceOf(o)) + [n]], side, flat + [o])
  {
    var p := PriceOf(o);
    var levels' := levels[p := LevelAt(levels, p) + [n]];
    forall q: real ensures NodeIds(LevelAt(levels', q)) == IdsAt(flat + [o], side, q) {
      assert NodeIds(LevelAt(levels, q)) == IdsAt(flat, side, q);
      IdsAtAfterPush(flat, o, side, q);
      if q == p {
        assert NodeIds(LevelAt(levels, p) + [n]) == NodeIds(LevelAt(levels, p)) + [o.id];
      } else {
        assert LevelAt(levels', q) == LevelAt(levels, q);
      }
    }
  }

  lemma PushedElsewhere(levels: Levels, side: Side, flat: Book, o: OrderState)
    requires Lists(levels, side, flat) && o.side != side
    ensures Lists(levels, side, flat + [o])
  {
  }

  // ---------- Links under changes of the maps ----------

  /** No node of the levels points to the order with this id. */
  ghost predicate Unlisted(levels: Levels, id: OrderId) {
    forall p, k :: p in levels && 0 <= k < |levels[p]| ==> levels[p][k].order.id != id
  }

  lemma InactiveIsUnlisted(levels: Levels, side: Side, flat: Book, id: OrderId)
    requires Lists(levels, side, flat) && !Active(flat, id)
    ensures Unlisted(levels, id)
  {
    forall p, k | p in levels && 0 <= k < |levels[p]| ensures levels[p][k].order.id != id {
      assert NodeIds(LevelAt(levels, p)) == IdsAt(flat, side, p);
      var listed := levels[p][k].order.id;
      assert NodeIds(levels[p])[k] == listed;
      ListedIsActive(flat, side, p, listed);
    }
  }

  lemma ErasedIsLinked(levels: Levels, side: Side, owned: map<OrderId, Order>, location: map<OrderId, Location>,
                       nextToken: nat, p: real, k: nat)
    requires Linked(levels, side, owned, location, nextToken)
    requires p in levels && k < |levels[p]|
    ensures Linked(WithoutNode(levels, p, k), side, owned, location, nextToken)
  {
  }

  lemma ForgottenIsLinked(levels: Levels, side: Side, owned: map<OrderId, Order>, location: map<OrderId, Location>,
                          nextToken: nat, id: OrderId)
    requires Linked(levels, side, owned, location, nextToken) && Unlisted(levels, id)
    ensures Linked(levels, side, owned - {id}, location - {id}, nextToken)
  {
  }

  /** Recording the place of an order that no node points to disturbs no other link. */
  lemma RecordedIsLinked(levels: Levels, side: Side, owned: map<OrderId, Order>, location: map<OrderId, Location>,
                         nextToken: nat, id: OrderId, place: Location)
    requires Linked(levels, side, owned, location, nextToken) && Unlisted(levels, id)
    ensures Linked(levels, side, owned, location[id := place], nextToken + 1)
  {
  }

  lemma PushedIsLinked(levels: Levels, side: Side, owned: map<OrderId, Order>, location: map<OrderId, Location>,
                       nextToken: nat, o: Order, p: real)
    requires Linked(levels, side, owned, location, nextToken) && Unlisted(levels, o.id)
    requires o.id in owned && owned[o.id] == o
    ensures Linked(levels[p := LevelAt(levels, p) + [Node(nextToken, o)]], side, owned,
                   location[o.id := Location(side, p, nextToken)], nextToken + 1)
  {
  }

  // ---------- The whole representation ----------

  /** The four structures of a book, and the supply of list-node identities. */
  datatype Shape = Shape(
    bids: Levels,
    asks: Levels,
    owned: map<OrderId, Order>,
    location: map<OrderId, Location>,
    nextToken: nat)

  function SideOf(s: Shape, side: Side): Levels {
    if side.BUY? then s.bids else s.asks
  }

  function WithSide(s: Shape, side: Side, levels: Levels): Shape {
    if side.BUY? then s.(bids := levels) else s.(asks := levels)
  }

  /**
   The structures agree with each other and with the flat book. `guests` are the ids owned but not
   resting: the incoming order while it is being matched.
   */
  ghost predicate Agree(s: Shape, flat: Book, guests: set<OrderId>) {
    && DistinctIds(flat)
    && (forall id :: id in s.owned <==> Active(flat, id) || id in guests)
    && (forall id :: id in s.location <==> Active(flat, id))
    && (forall id :: id in s.owned ==> s.owned[id].id == id)
    && AgreeOn(s, flat, BUY)
    && AgreeOn(s, flat, SELL)
  }

  ghost predicate AgreeOn(s: Shape, flat: Book, side: Side) {
    && Lists(SideOf(s, side), side, flat)
    && Linked(SideOf(s, side), side, s.owned, s.location, s.nextToken)
  }

  /** The k-th node of a level is erased and its order forgotten everywhere. */
  function Erased(s: Shape, side: Side, p: real, k: nat): Shape
    requires p in SideOf(s, side) && k < |SideOf(s, side)[p]|
  {
    var id := SideOf(s, side)[p][k].order.id;
    WithSide(s, side, WithoutNode(SideOf(s, side), p, k)).(owned := s.owned - {id}, location := s.location - {id})
  }

  lemma ActiveAfterRemoveAt(flat: Book, i: nat, id: OrderId)
    requires DistinctIds(flat) && i < |flat|
    ensures Active(RemoveAt(flat, i), id) <==> Active(flat, id) && id != flat[i].id
  {
    var flat' := RemoveAt(flat, i);
    assert forall k :: 0 <= k < |flat'| ==> flat'[k] == flat[if k < i then k else k + 1];
    if Active(flat, id) && id != flat[i].id {
      var j :| 0 <= j < |flat| && flat[j].id == id;
      assert flat'[if j < i then j else j - 1] == flat[j];
    }
  }

  lemma ErasedAgreesOn(s: Shape, flat: Book, side: Side, other: Side, i: nat, p: real, k: nat)
    requires DistinctIds(flat) && AgreeOn(s, flat, other)
    requires i < |flat| && RestsAt(flat[i], side, p)
    requires p in SideOf(s, side) && k < |SideOf(s, side)[p]| && SideOf(s, side)[p][k].order.id == flat[i].id
    ensures AgreeOn(Erased(s, side, p, k), RemoveAt(flat, i), other)
  {
    var s', flat' := Erased(s, side, p, k), RemoveAt(flat, i);
    if other == side {
      ErasedIsListed(SideOf(s, side), side, flat, i, p, k);
      ErasedIsLinked(SideOf(s, side), side, s.owned, s.location, s.nextToken, p, k);
    } else {
      ErasedElsewhere(SideOf(s, other), other, flat, i);
    }
    ActiveAfterRemoveAt(flat, i, flat[i].id);
    InactiveIsUnlisted(SideOf(s', other), other, flat', flat[i].id);
    ForgottenIsLinked(SideOf(s', other), other, s.owned, s.location, s.nextToken, flat[i].id);
  }

  /** Erasing the node an index entry leads to removes its order from the flat book. */
  lemma ErasedAgrees(s: Shape, flat: Book, guests: set<OrderId>, side: Side, i: nat, p: real, k: nat)
    requires Agree(s, flat, guests)
    requires i < |flat| && flat[i].id !in guests && RestsAt(flat[i], side, p)
    requires p in SideOf(s, side) && k < |SideOf(s, side)[p]| && SideOf(s, side)[p][k].order.id == flat[i].id
    ensures Agree(Erased(s, side, p, k), RemoveAt(flat, i), guests)
  {
    RemoveAtKeepsDistinct(flat, i);
    forall id ensures Active(RemoveAt(flat, i), id) <==> Active(flat, id) && id != flat[i].id {
      ActiveAfterRemoveAt(flat, i, id);
    }
    ErasedAgreesOn(s, flat, side, BUY, i, p, k);
    ErasedAgreesOn(s, flat, side, SELL, i, p, k);
  }

  /** A partial fill changes no structure. */
  lemma FilledAgrees(s: Shape, flat: Book, guests: set<OrderId>, i: nat, qty: int)
    requires Agree(s, flat, guests) && i < |flat|
    ensures Agree(s, flat[i := Fill(flat[i], qty)], guests)
  {
    var flat' := flat[i := Fill(flat[i], qty)];
    FilledIsListed(s.bids, BUY, flat, i, flat'[i]);
    FilledIsListed(s.asks, SELL, flat, i, flat'[i]);
    assert forall j :: 0 <= j < |flat| ==> flat'[j].id == flat[j].id;
    forall id ensures Active(flat', id) <==> Active(flat, id) {
      if Active(flat, id) {
        var j :| 0 <= j < |flat| && flat[j].id == id;
        assert flat'[j].id == id;
      }
    }
  }

  /** A guest is put at the back of the level of its price and recorded in the cancel index. */
  function Pushed(s: Shape, o: Order, p: real): Shape {
    var levels := SideOf(s, o.side);
    WithSide(s, o.side, levels[p := LevelAt(levels, p) + [Node(s.nextToken, o)]])
      .(location := s.location[o.id := Location(o.side, p, s.nextToken)], nextToken := s.nextToken + 1)
  }

  lemma PushedAgrees(s: Shape, flat: Book, o: Order, os: OrderState)
    requires Agree(s, flat, {o.id}) && !Active(flat, o.id)
    requires s.owned[o.id] == o
    requires os.id == o.id && os.side == o.side
    ensures Agree(Pushed(s, o, PriceOf(os)), flat + [os], {})
  {
    var side, other, p := o.side, Opposite(o.side), PriceOf(os);
    var place := Location(side, p, s.nextToken);
    InactiveIsUnlisted(SideOf(s, side), side, flat, o.id);
    InactiveIsUnlisted(SideOf(s, other), other, flat, o.id);
    PushedIsListed(SideOf(s, side), side, flat, os, Node(s.nextToken, o));
    PushedElsewhere(SideOf(s, other), other, flat, os);
    PushedIsLinked(SideOf(s, side), side, s.owned, s.location, s.nextToken, o, p);
    RecordedIsLinked(SideOf(s, other), other, s.owned, s.location, s.nextToken, o.id, place);
    forall id ensures Active(flat + [os], id) <==> Active(flat, id) || id == o.id {
      ActiveAfterPush(flat, os, id);
    }
  }

  lemma ActiveAfterPush(flat: Book, o: OrderState, id: OrderId)
    ensures Active(flat + [o], id) <==> Active(flat, id) || id == o.id
  {
    if Active(flat, id) {
      var j :| 0 <= j < |flat| && flat[j].id == id;
      assert (flat + [o])[j].id == id;
    }
    if id == o.id {
      assert (flat + [o])[|flat|].id == id;
    }
  }

  /** Taking ownership of a new order, and giving it up, leave the resting orders alone. */
  lemma OwnershipAgrees(s: Shape, flat: Book, o: Order)
    requires !Active(flat, o.id)
    requires Agree(s, flat, {}) || Agree(s, flat, {o.id})
    ensures Agree(s.(owned := s.owned[o.id := o]), flat, {o.id})
    ensures Agree(s.(owned := s.owned - {o.id}), flat, {})
  {
    OwnershipAgreesOn(s, flat, o, BUY);
    OwnershipAgreesOn(s, flat, o, SELL);
  }

  lemma OwnershipAgreesOn(s: Shape, flat: Book, o: Order, side: Side)
    requires !Active(flat, o.id) && AgreeOn(s, flat, side)
    ensures AgreeOn(s.(owned := s.owned[o.id := o]), flat, side)
    ensures AgreeOn(s.(owned := s.owned - {o.id}), flat, side)
  {
    var levels := SideOf(s, side);
    InactiveIsUnlisted(levels, side, flat, o.id);
    forall p, k | p in levels && 0 <= k < |levels[p]|
      ensures NodeLinked(levels[p][k], side, p, s.owned[o.id := o], s.location, s.nextToken)
      ensures NodeLinked(levels[p][k], side, p, s.owned - {o.id}, s.location, s.nextToken)
    {
      assert NodeLinked(levels[p][k], side, p, s.owned, s.location, s.nextToken);
    }
  }

  /**
   The cancel index is right: an entry leads to a level that exists and to a node of that level,
   and that node holds the order the entry is for.
   */
  lemma IndexIsRight(s: Shape, flat: Book, guests: set<OrderId>, id: OrderId) returns (i: nat, k: nat)
    requires Agree(s, flat, guests) && id in s.location
    ensures IndexOf(flat, id) == Some(i)
    ensures var loc := s.location[id];
            var levels := SideOf(s, loc.side);
            && RestsAt(flat[i], loc.side, loc.price)
            && loc.price in levels
            && k < |levels[loc.price]|
            && levels[loc.price][k].token == loc.node && levels[loc.price][k].order.id == id
            && (forall j :: 0 <= j < |levels[loc.price]| && levels[loc.price][j].token == loc.node ==> j == k)
  {
    i := IndexOf(flat, id).value;
    var side, p := flat[i].side, PriceOf(flat[i]);
    var levels := SideOf(s, side);
    assert AgreeOn(s, flat, side);
    ActiveIsListed(flat, i);
    var ids := IdsAt(flat, side, p);
    assert NodeIds(LevelAt(levels, p)) == ids;
    k :| 0 <= k < |ids| && ids[k] == id;
    assert p in levels && NodeIds(levels[p])[k] == levels[p][k].order.id;
    assert NodeLinked(levels[p][k], side, p, s.owned, s.location, s.nextToken);
  }

  /** No order is listed twice: two nodes of the book with the same order are one node of one level. */
  lemma ListedOnce(s: Shape, flat: Book, guests: set<OrderId>,
                   side1: Side, p1: real, k1: nat, side2: Side, p2: real, k2: nat)
    requires Agree(s, flat, guests)
    requires p1 in SideOf(s, side1) && k1 < |SideOf(s, side1)[p1]|
    requires p2 in SideOf(s, side2) && k2 < |SideOf(s, side2)[p2]|
    requires SideOf(s, side1)[p1][k1].order.id == SideOf(s, side2)[p2][k2].order.id
    ensures side1 == side2 && p1 == p2 && k1 == k2
  {
  }

  /** Erasing by hand: update the level, then drop it if it became empty. */
  lemma ErasedByHand(levels: Levels, p: real, k: nat)
    requires p in levels && k < |levels[p]|
    ensures var shorter := RemoveAt(levels[p], k);
            && |shorter| == |levels[p]| - 1
            && WithoutNode(levels, p, k) ==
               if shorter == [] then levels[p := shorter] - {p} else levels[p := shorter]
    ensures k == 0 ==> RemoveAt(levels[p], k) == levels[p][1..]
  {
  }

  /** What the matching loop finds at the front of the best level. */
  lemma FrontOfBest(s: Shape, flat: Book, guests: set<OrderId>, side: Side, p: real) returns (i: nat)
    requires Agree(s, flat, guests) && BestKey(SideOf(s, side), side, p)
    ensures i < |flat| && Scan(flat, side) == Some(i) && RestsAt(flat[i], side, p)
    ensures var level := SideOf(s, side)[p];
            && level != [] && level[0].order.id == flat[i].id
            && flat[i].id in s.owned && s.owned[flat[i].id] == level[0].order
    ensures DistinctIds(flat)
  {
    var levels := SideOf(s, side);
    assert AgreeOn(s, flat, side);
    BestLevelIsScan(levels, side, flat, p);
    i := Scan(flat, side).value;
    assert NodeLinked(levels[p][0], side, p, s.owned, s.location, s.nextToken);
  }

  lemma NoBestLevel(s: Shape, flat: Book, guests: set<OrderId>, side: Side)
    requires Agree(s, flat, guests)
    ensures Scan(flat, side).None? <==> SideOf(s, side) == map[]
  {
    assert AgreeOn(s, flat, side);
    EmptyLevelsIsNoScan(SideOf(s, side), side, flat);
  }

  lemma AgreeIsDistinct(s: Shape, flat: Book, guests: set<OrderId>)
    requires Agree(s, flat, guests)
    ensures DistinctIds(flat)
  {
  }

  lemma OwnedIsActive(s: Shape, flat: Book, id: OrderId)
    requires Agree(s, flat, {})
    ensures id in s.owned <==> Active(flat, id)
    ensures id in s.location <==> Active(flat, id)
  {
  }

  lemma ValuesShrink<K, V>(m: map<K, V>, k: K)
    ensures (m - {k}).Values <= m.Values
    ensures forall v :: v in m.Values && v !in (m - {k}).Values ==> k in m && v == m[k]
  {
    forall j | j in m && j != k ensures m[j] in (m - {k}).Values {
      assert (m - {k})[j] == m[j];
    }
  }

  lemma ValuesGrow<K, V>(m: map<K, V>, k: K, v: V)
    ensures m[k := v].Values <= m.Values + {v}
    ensures k !in m ==> m.Values <= m[k := v].Values
  {
    forall j | j in m && k !in m ensures m[j] in m[k := v].Values {
      assert m[k := v][j] == m[j];
    }
  }
}
