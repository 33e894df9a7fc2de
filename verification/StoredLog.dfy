/**
 What the events table holds, as a selection of everything ever journaled: the mask of the events that
 were committed, how far the log is certain to survive, and when the table is a prefix of the log.
 */
module StoredLog {
  import opened Trading
  import opened Journal
  import opened EventTable
  import opened GroupCommit
  import opened Flushing

  // ---------- The durable events as a selection of the log ----------

  /** For each appended event, in order: whether its batch was committed. */
  function EventMask(rs: seq<Record>, fates: seq<bool>): (mask: seq<bool>)
    requires |fates| <= |rs|
    ensures |mask| == |EventsOf(rs)|
  {
    if rs == [] then []
    else
      var last := |rs| - 1;
      var settled := |fates| == |rs|;
      var before := EventMask(rs[..last], if settled then fates[..last] else fates);
      if rs[last].Event? then before + [settled && fates[last]] else before
  }

  lemma MaskPush(rs: seq<Record>, fates: seq<bool>, r: Record, ok: bool)
    requires |fates| == |rs|
    ensures EventMask(rs + [r], fates + [ok]) == if r.Event? then EventMask(rs, fates) + [ok] else EventMask(rs, fates)
  {
    assert (rs + [r])[..|rs|] == rs && (fates + [ok])[..|rs|] == fates;
  }

  lemma MaskPushOpen(rs: seq<Record>, fates: seq<bool>, r: Record)
    requires |fates| <= |rs|
    ensures EventMask(rs + [r], fates) == if r.Event? then EventMask(rs, fates) + [false] else EventMask(rs, fates)
  {
    assert (rs + [r])[..|rs|] == rs;
  }

  lemma KeepPush(log: seq<JournalEvent>, mask: seq<bool>, e: JournalEvent, ok: bool)
    requires |mask| == |log|
    ensures Keep(log + [e], mask + [ok]) == if ok then Keep(log, mask) + [e] else Keep(log, mask)
  {
    assert (log + [e])[..|log|] == log && (mask + [ok])[..|log|] == mask;
  }

  lemma {:induction false} CommittedPush(rs: seq<Record>, fates: seq<bool>, r: Record, ok: bool)
    requires |fates| == |rs|
    ensures Committed(rs + [r], fates + [ok]) == if ok then Committed(rs, fates) + [r] else Committed(rs, fates)
  {
    assert (fates + [ok])[..|rs|] == fates;
    CommittedLocal(rs, [r], fates);
  }

  lemma {:induction false} MaskSelectsCommitted(rs: seq<Record>, fates: seq<bool>)
    requires |fates| <= |rs|
    ensures Keep(EventsOf(rs), EventMask(rs, fates)) == EventsOf(Committed(rs, fates))
  {
    if rs != [] {
      hide EventsOf, EventMask, Committed, Keep;
      var last := |rs| - 1;
      var before, r := rs[..last], rs[last];
      assert rs == before + [r];
      SplitsPush(before, r);
      if |fates| == |rs| {
        var fates', ok := fates[..last], fates[last];
        assert fates == fates' + [ok];
        MaskSelectsCommitted(before, fates');
        MaskPush(before, fates', r, ok);
        CommittedPush(before, fates', r, ok);
        SplitsPush(Committed(before, fates'), r);
        if r.Event? {
          KeepPush(EventsOf(before), EventMask(before, fates'), r.event, ok);
        }
      } else {
        MaskSelectsCommitted(before, fates);
        MaskPushOpen(before, fates, r);
        CommittedLocal(before, [r], fates);
        if r.Event? {
          KeepPush(EventsOf(before), EventMask(before, fates), r.event, false);
        }
      }
    } else {
      EmptyHistory(fates);
    }
  }

  lemma EmptyHistory(fates: seq<bool>)
    requires fates == []
    ensures Keep(EventsOf([]), EventMask([], fates)) == EventsOf(Committed([], fates))
  {
  }

  /** As far as all records are committed, all events are selected. */
  lemma {:induction false} MaskFront(rs: seq<Record>, fates: seq<bool>, n: nat)
    requires n <= |fates| <= |rs| && forall i :: 0 <= i < n ==> fates[i]
    ensures |EventsOf(rs[..n])| <= |EventsOf(rs)|
    ensures forall i :: 0 <= i < |EventsOf(rs[..n])| ==> EventMask(rs, fates)[i]
  {
    if rs != [] {
      var last := |rs| - 1;
      var fates' := if |fates| == |rs| then fates[..last] else fates;
      if n <= last {
        MaskFront(rs[..last], fates', n);
        assert rs[..last][..n] == rs[..n];
      } else {
        MaskFront(rs[..last], fates', last);
        assert rs[..last][..last] == rs[..last] && rs[..n] == rs;
      }
    }
  }

  function Mask(s: Store): (mask: seq<bool>)
    requires |s.fates| <= |s.appended|
    ensures |mask| == |Log(s)|
  {
    Repeat(true, |s.base|) + EventMask(s.appended, s.fates)
  }

  /** The durable events are the log, less the events of failed and unsettled batches. */
  lemma DurableIsSelected(s: Store)
    requires |s.fates| <= |s.appended|
    ensures DurableEvents(s) == Keep(Log(s), Mask(s))
  {
    hide EventsOf, Committed;
    var n, all := |s.base|, Repeat(true, |s.base|);
    KeepConcat(s.base, EventsOf(s.appended), all, EventMask(s.appended, s.fates));
    MaskSelectsCommitted(s.appended, s.fates);
    KeepFront(s.base, all, n);
    KeepMembers(s.base, all);
    assert s.base[..n] == s.base;
  }

  /** How many leading records were committed without any failure before them. */
  function Lead(fates: seq<bool>): (n: nat)
    ensures n <= |fates| && forall i :: 0 <= i < n ==> fates[i]
    ensures n < |fates| ==> !fates[n]
  {
    if fates == [] || !fates[0] then 0
    else
      var n := Lead(fates[1..]);
      assert forall i :: 1 <= i < n + 1 ==> fates[i] == fates[1..][i - 1];
      n + 1
  }

  lemma {:induction false} LeadGrows(a: seq<bool>, b: seq<bool>)
    requires a <= b
    ensures Lead(a) <= Lead(b)
  {
    if a != [] && a[0] {
      LeadGrows(a[1..], b[1..]);
    }
  }

  /** How much of the log is certain to be on stable storage. */
  function Front(s: Store): nat
    requires |s.fates| <= |s.appended|
  {
    Position(s, Lead(s.fates))
  }

  lemma FrontIsSelected(s: Store)
    requires |s.fates| <= |s.appended|
    ensures Front(s) <= |Log(s)| && forall i :: 0 <= i < Front(s) ==> Mask(s)[i]
  {
    hide EventsOf;
    MaskFront(s.appended, s.fates, Lead(s.fates));
  }

  /** Appending leaves the front where it is; settling can only move it forward. */
  lemma FrontGrows(s: Store, s': Store)
    requires |s.fates| <= |s.appended| && |s'.fates| <= |s'.appended|
    requires s.appended <= s'.appended && s.fates <= s'.fates && s'.base == s.base
    ensures Front(s) <= Front(s') && (s'.fates == s.fates ==> Front(s') == Front(s))
  {
    hide EventsOf;
    var a, b := Lead(s.fates), Lead(s'.fates);
    LeadGrows(s.fates, s'.fates);
    assert s.appended[..a] == s'.appended[..b][..a] == s'.appended[..a];
    EventsPrefix(s'.appended[..b], a);
  }

  // ---------- Failed batches and the shape of the table ----------

  predicate NoFailures(s: Store) {
    forall k :: 0 <= k < |s.fates| ==> s.fates[k]
  }

  /**
   As long as no batch of this process has failed, the table holds exactly a prefix of the log: the
   rows found at the start, then the settled events; at least everything done, which is at least
   everything a returned flush waited for.
   */
  lemma DurableIsPrefix(s: Store)
    requires Inv(s) && NoFailures(s)
    ensures s.done <= |s.fates| <= |s.appended|
    ensures DurableEvents(s) == s.base + EventsOf(s.appended[..|s.fates|])
    ensures s.table == TableOf(DurableEvents(s)) && DurableEvents(s) <= Log(s)
    ensures s.base + EventsOf(s.appended[..s.done]) <= DurableEvents(s)
    ensures Front(s) == |DurableEvents(s)|
  {
    hide EventsOf, TradesOf, Committed, TableOf;
    CommittedAll(s.appended, s.fates);
    EventsPrefix(s.appended, |s.fates|);
    EventsPrefix(s.appended[..|s.fates|], s.done);
    assert s.appended[..|s.fates|][..s.done] == s.appended[..s.done];
  }

  /** No event is lost to a failed batch while a later one is kept. */
  predicate NoGap(rs: seq<Record>, fates: seq<bool>)
    requires |fates| <= |rs|
  {
    forall i, j :: 0 <= i < j < |fates| && rs[i].Event? && rs[j].Event? && fates[j] ==> fates[i]
  }

  lemma {:induction false} KeptWithoutLoss(rs: seq<Record>, fates: seq<bool>)
    requires |fates| <= |rs| && forall i :: 0 <= i < |fates| && rs[i].Event? ==> fates[i]
    ensures EventsOf(Committed(rs, fates)) == EventsOf(rs[..|fates|])
  {
    if fates != [] {
      hide EventsOf, Committed;
      var last := |fates| - 1;
      KeptWithoutLoss(rs, fates[..last]);
      CommittedStep(rs, fates);
      assert rs[..last] == rs[..|fates[..last]|];
      assert rs[..|fates|] == rs[..last] + [rs[last]];
      SplitsPush(rs[..last], rs[last]);
      SplitsPush(Committed(rs, fates[..last]), rs[last]);
    }
  }

  lemma {:induction false} NoGapKeepsAPrefix(rs: seq<Record>, fates: seq<bool>)
    requires |fates| <= |rs| && NoGap(rs, fates)
    ensures EventsOf(Committed(rs, fates)) <= EventsOf(rs)
  {
    if fates != [] {
      hide EventsOf, Committed;
      var last := |fates| - 1;
      NoGapKeepsAPrefix(rs, fates[..last]);
      CommittedStep(rs, fates);
      if rs[last].Event? && fates[last] {
        KeptWithoutLoss(rs, fates);
        EventsPrefix(rs, |fates|);
      } else if fates[last] {
        SplitsPush(Committed(rs, fates[..last]), rs[last]);
      }
    }
  }

  /** In a kept prefix of the log, an event before a kept one is kept too. */
  lemma PrefixHasNoGap(s: Store, i: nat, j: nat)
    requires Inv(s) && DistinctNumbers(Log(s)) && DurableEvents(s) <= Log(s)
    requires i < j < |s.fates| && s.appended[i].Event? && s.appended[j].Event? && s.fates[j]
    ensures s.fates[i]
  {
    hide EventsOf, TradesOf, Committed, TableOf;
    var kept := DurableEvents(s);
    CommittedIsHeld(s, j);
    var q :| 0 <= q < |kept| && kept[q] == s.appended[j].event;
    PositionOf(s, j);
    assert q == Position(s, j);
    PositionsRise(s, i, j);
    PositionOf(s, i);
    assert kept[Position(s, i)] == s.appended[i].event;
    HeldIsDurable(s, s.appended[i].event);
    HeldWasCommitted(s, i);
  }

  /**
   The durable events are a prefix of everything ever journaled, which is what recovery needs, if and
   only if no failed batch has swallowed an event that comes before a committed one.
   */
  lemma PrefixIffNoGap(s: Store)
    requires Inv(s) && DistinctNumbers(Log(s))
    ensures |s.fates| <= |s.appended|
    ensures DurableEvents(s) <= Log(s) <==> NoGap(s.appended, s.fates)
  {
    hide EventsOf, TradesOf, Committed, TableOf;
    var rs, fates := s.appended, s.fates;
    if NoGap(rs, fates) {
      NoGapKeepsAPrefix(rs, fates);
    }
    if DurableEvents(s) <= Log(s) {
      forall a, b | 0 <= a < b < |fates| && rs[a].Event? && rs[b].Event? && fates[b] ensures fates[a] {
        PrefixHasNoGap(s, a, b);
      }
    }
  }
}
