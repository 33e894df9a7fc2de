/**
 Time priority, told in terms of the command stream: when each resting order was accepted, and that
 among equal prices the order accepted earlier is always served first.
 */
module ArrivalOrder {
  import opened Trading
  import opened PriceTime
  import opened MatchingLaws
  import opened Conservation
  import opened BookLaws

  // ---------- When an order was accepted ----------

  /** Command k of the stream submits order `id`, and nothing rests under that id when it does. */
  predicate Admits(commands: seq<Command>, k: nat, id: OrderId)
    requires k < |commands|
  {
    commands[k].Submit? && commands[k].order.id == id && !Active(Run(commands[..k]).book, id)
  }

  /** The position in the stream of the last accepted submission of an id, or -1. */
  function AcceptedAt(commands: seq<Command>, id: OrderId): (k: int)
    ensures -1 <= k < |commands|
    ensures 0 <= k ==> Admits(commands, k, id)
    ensures forall j :: k < j < |commands| ==> !Admits(commands, j, id)
  {
    if commands == [] then -1
    else
      var last := |commands| - 1;
      var before := commands[..last];
      assert forall j :: 0 <= j < last ==> before[..j] == commands[..j];
      assert forall j :: 0 <= j < last ==> (Admits(before, j, id) <==> Admits(commands, j, id));
      if Admits(commands, last, id) then last else AcceptedAt(before, id)
  }

  /** Resting orders stand in the order in which they were accepted. */
  ghost predicate InArrivalOrder(commands: seq<Command>, book: Book) {
    && (forall i :: 0 <= i < |book| ==> 0 <= AcceptedAt(commands, book[i].id))
    && (forall i, j :: 0 <= i < j < |book| ==>
          AcceptedAt(commands, book[i].id) < AcceptedAt(commands, book[j].id))
  }

  // ---------- Commands keep the order of survivors ----------

  /** Position p of each order of `after` in `book`, with the same ids in the same order. */
  ghost predicate Embeds(after: Book, book: Book, place: seq<nat>) {
    && |place| == |after|
    && (forall i :: 0 <= i < |after| ==> place[i] < |book| && book[place[i]].id == after[i].id)
    && (forall i, j :: 0 <= i < j < |after| ==> place[i] < place[j])
  }

  function Identity(n: nat): (place: seq<nat>)
    ensures |place| == n && forall i :: 0 <= i < n ==> place[i] == i
  {
    seq(n, i => i)
  }

  /** Positions in a sequence from which the element at `removed` is gone. */
  function Unshift(place: seq<nat>, removed: nat): (r: seq<nat>)
    ensures |r| == |place|
    ensures forall i :: 0 <= i < |place| ==> r[i] == if place[i] < removed then place[i] else place[i] + 1
  {
    seq(|place|, i requires 0 <= i < |place| => if place[i] < removed then place[i] else place[i] + 1)
  }

  lemma UnshiftEmbeds(after: Book, book: Book, removed: nat, place: seq<nat>)
    requires removed < |book| && Embeds(after, RemoveAt(book, removed), place)
    ensures Embeds(after, book, Unshift(place, removed))
  {
    var s := RemoveAt(book, removed);
    assert forall k :: 0 <= k < |s| ==> s[k] == book[if k < removed then k else k + 1];
  }

  /** A matching pass removes orders and fills them; it moves none. */
  lemma {:induction false} MatchKeepsPlaces(book: Book, incoming: OrderState) returns (place: seq<nat>)
    ensures Embeds(Match(book, incoming).book, book, place)
    decreases |book|
  {
    if Stops(book, incoming) {
      place := Identity(|book|);
    } else {
      var i, qty := BestAt(book, incoming), TradeQty(book, incoming);
      if qty < book[i].remaining {
        place := Identity(|book|);
      } else {
        var rest := MatchKeepsPlaces(RemoveAt(book, i), Reduce(incoming, qty));
        UnshiftEmbeds(Match(book, incoming).book, book, i, rest);
        place := Unshift(rest, i);
      }
    }
  }

  lemma RemoveKeepsPlaces(book: Book, id: OrderId) returns (place: seq<nat>)
    ensures Embeds(Remove(book, id).book, book, place)
  {
    var at := IndexOf(book, id);
    if at.None? {
      place := Identity(|book|);
    } else {
      var s := RemoveAt(book, at.value);
      assert Embeds(s, s, Identity(|s|));
      UnshiftEmbeds(s, book, at.value, Identity(|s|));
      place := Unshift(Identity(|s|), at.value);
    }
  }

  lemma SurvivorsInOrder(commands: seq<Command>, book: Book, after: Book, place: seq<nat>)
    requires InArrivalOrder(commands, book) && Embeds(after, book, place)
    ensures InArrivalOrder(commands, after)
  {
    hide AcceptedAt;
  }

  // ---------- Whole runs ----------

  /** A command that does not admit an id leaves open when that id was accepted. */
  lemma NotAdmitted(commands: seq<Command>, id: OrderId)
    requires commands != [] && !Admits(commands, |commands| - 1, id)
    ensures AcceptedAt(commands, id) == AcceptedAt(commands[..|commands| - 1], id)
  {
  }

  lemma OrderCarriesOver(commands: seq<Command>, after: Book)
    requires commands != [] && InArrivalOrder(commands[..|commands| - 1], after)
    requires forall i :: 0 <= i < |after| ==> !Admits(commands, |commands| - 1, after[i].id)
    ensures InArrivalOrder(commands, after)
  {
    hide AcceptedAt, Admits;
    forall i | 0 <= i < |after| ensures AcceptedAt(commands, after[i].id) ==
                                        AcceptedAt(commands[..|commands| - 1], after[i].id) {
      NotAdmitted(commands, after[i].id);
    }
  }

  /** Every id that survives a command from an earlier book was active in that book. */
  lemma SurvivorsAreNotAdmitted(commands: seq<Command>, after: Book, place: seq<nat>)
    requires commands != [] && Embeds(after, Run(commands[..|commands| - 1]).book, place)
    ensures forall i :: 0 <= i < |after| ==> !Admits(commands, |commands| - 1, after[i].id)
  {
    hide Run;
    var book := Run(commands[..|commands| - 1]).book;
    forall i | 0 <= i < |after| ensures !Admits(commands, |commands| - 1, after[i].id) {
      assert book[place[i]].id == after[i].id;
    }
  }

  lemma LastIsNewest(commands: seq<Command>, book: Book, o: OrderState)
    requires commands != [] && InArrivalOrder(commands, book) && Admits(commands, |commands| - 1, o.id)
    requires forall i :: 0 <= i < |book| ==> !Admits(commands, |commands| - 1, book[i].id)
    ensures InArrivalOrder(commands, book + [o])
  {
    hide Admits;
    var all := book + [o];
    assert forall i :: 0 <= i < |book| ==> all[i] == book[i];
  }

  /**
   After every run, resting orders stand in the order in which they were accepted. An order keeps its
   place whatever is filled of it, and the newest order is the last.
   */
  lemma {:induction false} BookIsInArrivalOrder(commands: seq<Command>)
    ensures InArrivalOrder(commands, Run(commands).book)
  {
    if commands != [] {
      hide InArrivalOrder, Admits, Match, Remove, Run, AcceptedAt;
      var last := |commands| - 1;
      var before, c := commands[..last], commands[last];
      var book := Run(before).book;
      BookIsInArrivalOrder(before);
      RunStep(commands);
      if c.Submit? && !Active(book, c.order.id) {
        AcceptedKeepsOrder(commands);
      } else if c.Submit? {
        KeptInOrder(commands, book, Identity(|book|));
      } else {
        var place := RemoveKeepsPlaces(book, c.id);
        KeptInOrder(commands, Remove(book, c.id).book, place);
      }
    } else {
      NothingRests();
    }
  }

  /** An accepted submission: the survivors keep their places and what is left of it comes last. */
  lemma AcceptedKeepsOrder(commands: seq<Command>)
    requires commands != []
    requires var last := |commands| - 1;
             && commands[last].Submit? && !Active(Run(commands[..last]).book, commands[last].order.id)
             && InArrivalOrder(commands[..last], Run(commands[..last]).book)
    ensures var last := |commands| - 1;
            InArrivalOrder(commands, Add(Run(commands[..last]).book, commands[last].order).book)
  {
    hide InArrivalOrder, Admits, Match, Run, AcceptedAt;
    var last := |commands| - 1;
    var book, o := Run(commands[..last]).book, commands[last].order;
    var m := Match(book, o);
    var place := MatchKeepsPlaces(book, o);
    MatchKeepsIncoming(book, o);
    KeptInOrder(commands, m.book, place);
    AdmittedNow(commands);
    if m.incoming.remaining != 0 && m.incoming.terms.Limit? {
      LastIsNewest(commands, m.book, m.incoming.(status := RestStatus(m.incoming)));
    }
  }

  lemma NothingRests()
    ensures Run([]).book == [] && InArrivalOrder([], Run([]).book)
  {
  }

  lemma RunStep(commands: seq<Command>)
    requires commands != []
    ensures var last := |commands| - 1;
            Run(commands).book == Apply(Run(commands[..last]).book, commands[last]).book
  {
  }

  lemma AdmittedNow(commands: seq<Command>)
    requires commands != []
    requires var last := |commands| - 1;
             commands[last].Submit? && !Active(Run(commands[..last]).book, commands[last].order.id)
    ensures Admits(commands, |commands| - 1, commands[|commands| - 1].order.id)
  {
  }

  lemma KeptInOrder(commands: seq<Command>, after: Book, place: seq<nat>)
    requires commands != []
    requires var book := Run(commands[..|commands| - 1]).book;
             InArrivalOrder(commands[..|commands| - 1], book) && Embeds(after, book, place)
    ensures InArrivalOrder(commands, after)
    ensures forall i :: 0 <= i < |after| ==> !Admits(commands, |commands| - 1, after[i].id)
  {
    hide InArrivalOrder, Admits, Run, Embeds;
    SurvivorsInOrder(commands[..|commands| - 1], Run(commands[..|commands| - 1]).book, after, place);
    SurvivorsAreNotAdmitted(commands, after, place);
    OrderCarriesOver(commands, after);
  }

  // ---------- Price-time priority over whole runs ----------

  /** a is to be served before b: at a better price for the taker, or at the same price and accepted earlier. */
  predicate Precedes(commands: seq<Command>, a: OrderState, b: OrderState) {
    && a.terms.Limit? && b.terms.Limit? && a.side == b.side
    && (|| (if a.side.SELL? then a.terms.price < b.terms.price else a.terms.price > b.terms.price)
        || (a.terms.price == b.terms.price && AcceptedAt(commands, a.id) < AcceptedAt(commands, b.id)))
  }

  lemma PrecedesIsOutranks(commands: seq<Command>, j: nat, i: nat)
    requires j < |Run(commands).book| && i < |Run(commands).book|
    requires Precedes(commands, Run(commands).book[j], Run(commands).book[i])
    ensures Outranks(Run(commands).book, j, i)
  {
    hide Run, AcceptedAt;
    BookIsInArrivalOrder(commands);
  }

  /**
   Price-time priority at every step of every run: if a submission takes any of a resting order, then
   each resting order of that side that precedes it, by price or by when it was accepted, is taken
   completely by the same submission and is out of the book.
   */
  lemma RunRespectsPriority(commands: seq<Command>, k: nat, j: nat, i: nat)
    requires ValidCommands(commands)
    requires k < |commands| && commands[k].Submit?
    requires var book, o := Run(commands[..k]).book, commands[k].order;
             && i < |book| && j < |book|
             && book[i].side == Opposite(o.side)
             && Precedes(commands[..k], book[j], book[i])
             && Taken(o.side, Apply(book, commands[k]).trades, book[i].id) > 0
    ensures var book, o := Run(commands[..k]).book, commands[k].order;
            && Taken(o.side, Apply(book, commands[k]).trades, book[j].id) == book[j].remaining
            && !Active(Run(commands[..k + 1]).book, book[j].id)
  {
    hide AcceptedAt;
    var book, o := Run(commands[..k]).book, commands[k].order;
    PrecedesIsOutranks(commands[..k], j, i);
    RunKeepsWellFormed(commands[..k]);
    PriorityRespected(book, o, j, i);
    NoTradePastABetterOrder(book, o, j, i);
    MatchKeepsIncoming(book, o);
    assert commands[..k + 1][..k] == commands[..k];
    assert commands[..k + 1][k] == commands[k];
  }
}
