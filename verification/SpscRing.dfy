/**
 The lock-free single-producer single-consumer ring as an interleaving of atomic steps. Each side's
 load of the other side's index may return a stale value: any value that index has had since the
 last one seen, which is what acquire loads of release stores allow. Histories (`pushed`, `popped`)
 and the unwrapped counts behind the loaded indices (`seenTail`, `seenHead`) are kept beside the real
 state; no step's guard depends on them except as the source of a loaded value.
 */
module SpscRing {
  import opened Trading

  // ---------- Masked indices ----------

  function Pow2(k: nat): (p: nat)
    ensures 0 < p
  {
    if k == 0 then 1 else 2 * Pow2(k - 1)
  }

  /** Bitwise and. */
  function BitAnd(x: nat, y: nat): nat {
    if x == 0 || y == 0 then 0
    else (if x % 2 == 1 && y % 2 == 1 then 1 else 0) + 2 * BitAnd(x / 2, y / 2)
  }

  /** The slot of an unwrapped index in a ring of n slots: its remainder by n. */
  function Wrap(i: nat, n: nat): (r: nat)
    requires 0 < n
    ensures r < n
  {
    if i < n then i else Wrap(i - n, n)
  }

  /** Masking with a power of two less one wraps the index into the ring. */
  lemma {:induction false} MaskIsWrap(x: nat, k: nat)
    ensures BitAnd(x, Pow2(k) - 1) == Wrap(x, Pow2(k))
  {
    if k == 0 {
      WrapOne(x);
    } else if x > 0 {
      var half := Pow2(k - 1);
      MaskIsWrap(x / 2, k - 1);
      assert (2 * half - 1) / 2 == half - 1 && (2 * half - 1) % 2 == 1;
      HalvingWrap(x, half);
    }
  }

  lemma WrapOne(x: nat)
    ensures Wrap(x, 1) == 0
  {
  }

  lemma {:induction false} HalvingWrap(x: nat, half: nat)
    requires half > 0
    ensures Wrap(x, 2 * half) == x % 2 + 2 * Wrap(x / 2, half)
  {
    if x >= 2 * half {
      HalvingWrap(x - 2 * half, half);
      assert (x - 2 * half) / 2 == x / 2 - half;
    }
  }

  /** Fewer than n consecutive indices fall into different slots. */
  lemma {:induction false} WrapSeparates(a: nat, b: nat, n: nat)
    requires a <= b < a + n && Wrap(a, n) == Wrap(b, n)
    ensures a == b
  {
    if a >= n {
      WrapSeparates(a - n, b - n, n);
    }
  }

  lemma {:induction false} WrapNext(a: nat, n: nat)
    requires 0 < n
    ensures Wrap(Wrap(a, n) + 1, n) == Wrap(a + 1, n)
  {
    if a >= n {
      WrapNext(a - n, n);
    }
  }

  // ---------- The machine ----------

  /** The producer between calls, past a successful check, and past the write of its slot. */
  datatype Producer<T> = PIdle | PReady(item: T) | PWritten(item: T)

  /** The consumer between calls, past a successful check, and past the move out of its slot. */
  datatype Consumer<T> = CIdle | CReady | CTaken(item: Option<T>)

  datatype Ring<T> = Ring(
    buffer: seq<Option<T>>,
    head: nat,
    tail: nat,
    producer: Producer<T>,
    consumer: Consumer<T>,
    pushed: seq<T>,
    popped: seq<Option<T>>,
    seenTail: nat,
    seenHead: nat)

  function Mask<T>(s: Ring<T>, i: nat): nat {
    if |s.buffer| == 0 then 0 else BitAnd(i, |s.buffer| - 1)
  }

  /** Capacity is a power of two and at least two. */
  ghost predicate Capacity(n: nat) {
    n >= 2 && exists k :: n == Pow2(k)
  }

  ghost predicate Init<T>(s: Ring<T>) {
    && Capacity(|s.buffer|) && (forall j :: 0 <= j < |s.buffer| ==> s.buffer[j] == None)
    && s == Ring(s.buffer, 0, 0, PIdle, CIdle, [], [], 0, 0)
  }

  /** push: load the tail, as it stood after `view` pops, and refuse the item if the ring looks full. */
  ghost predicate PushCheck<T>(s: Ring<T>, s': Ring<T>, item: T, view: nat) {
    && s.producer.PIdle? && |s.buffer| > 0
    && s.seenTail <= view <= |s.popped|
    && s' == s.(seenTail := view,
                producer := if Mask(s, s.head + 1) == Wrap(view, |s.buffer|) then PIdle else PReady(item))
  }

  ghost predicate PushWrite<T>(s: Ring<T>, s': Ring<T>) {
    && s.producer.PReady? && s.head < |s.buffer|
    && s' == s.(buffer := s.buffer[s.head := Some(s.producer.item)], producer := PWritten(s.producer.item))
  }

  ghost predicate PushStore<T>(s: Ring<T>, s': Ring<T>) {
    && s.producer.PWritten?
    && s' == s.(head := Mask(s, s.head + 1), producer := PIdle, pushed := s.pushed + [s.producer.item])
  }

  /** pop: load the head, as it stood after `view` pushes, and give up if the ring looks empty. */
  ghost predicate PopCheck<T>(s: Ring<T>, s': Ring<T>, view: nat) {
    && s.consumer.CIdle? && |s.buffer| > 0
    && s.seenHead <= view <= |s.pushed|
    && s' == s.(seenHead := view,
                consumer := if s.tail == Wrap(view, |s.buffer|) then CIdle else CReady)
  }

  /** The item is moved out, which leaves the slot empty. */
  ghost predicate PopTake<T>(s: Ring<T>, s': Ring<T>) {
    && s.consumer.CReady? && s.tail < |s.buffer|
    && s' == s.(buffer := s.buffer[s.tail := None], consumer := CTaken(s.buffer[s.tail]))
  }

  ghost predicate PopStore<T>(s: Ring<T>, s': Ring<T>) {
    && s.consumer.CTaken?
    && s' == s.(tail := Mask(s, s.tail + 1), consumer := CIdle, popped := s.popped + [s.consumer.item])
  }

  ghost predicate Next<T(!new)>(s: Ring<T>, s': Ring<T>) {
    || (exists item, view :: PushCheck(s, s', item, view))
    || PushWrite(s, s')
    || PushStore(s, s')
    || (exists view :: PopCheck(s, s', view))
    || PopTake(s, s')
    || PopStore(s, s')
  }

  ghost predicate Behavior<T(!new)>(run: seq<Ring<T>>) {
    && run != [] && Init(run[0])
    && forall i :: 0 <= i < |run| - 1 ==> Next(run[i], run[i + 1])
  }

  // ---------- The invariant ----------

  /** Items read out of the ring so far, counting one whose tail is not yet stored. */
  function Taken<T>(s: Ring<T>): nat {
    |s.popped| + if s.consumer.CTaken? then 1 else 0
  }

  /** Items written into the ring so far, counting one whose head is not yet stored. */
  function Written<T>(s: Ring<T>): seq<T> {
    if s.producer.PWritten? then s.pushed + [s.producer.item] else s.pushed
  }

  ghost predicate Counters<T>(s: Ring<T>) {
    var n, h, t := |s.buffer|, |s.pushed|, |s.popped|;
    && Capacity(n)
    && s.head == Wrap(h, n) && s.tail == Wrap(t, n)
    && s.seenTail <= t && h < s.seenTail + n
    && (!s.producer.PIdle? ==> h + 1 < s.seenTail + n)
    && t <= s.seenHead <= h
    && (!s.consumer.CIdle? ==> t < s.seenHead)
  }

  /** What slot number k, counted without wrapping, must hold. */
  function Expected<T>(s: Ring<T>, k: nat): Option<T> {
    if k < |Written(s)| then Some(Written(s)[k]) else None
  }

  /** Exactly the written and unread items are in the buffer, each in its own slot; other slots are empty. */
  ghost predicate Slots<T>(s: Ring<T>) {
    && |s.buffer| > 0
    && forall k: nat :: Taken(s) <= k < Taken(s) + |s.buffer| ==> s.buffer[Wrap(k, |s.buffer|)] == Expected(s, k)
  }

  ghost predicate History<T>(s: Ring<T>) {
    && |s.popped| <= |s.pushed|
    && (forall i :: 0 <= i < |s.popped| ==> s.popped[i] == Some(s.pushed[i]))
    && (s.consumer.CTaken? ==> |s.popped| < |s.pushed| && s.consumer.item == Some(s.pushed[|s.popped|]))
  }

  ghost predicate Inv<T>(s: Ring<T>) {
    Counters(s) && Slots(s) && History(s)
  }

  lemma MaskNext<T>(s: Ring<T>, count: nat)
    requires Capacity(|s.buffer|)
    ensures Mask(s, Wrap(count, |s.buffer|) + 1) == Wrap(count + 1, |s.buffer|)
  {
    var n := |s.buffer|;
    var k :| n == Pow2(k);
    MaskIsWrap(Wrap(count, n) + 1, k);
    WrapNext(count, n);
  }

  /** The full check, made on masked indices, means that the view holds all but one slot. */
  lemma FullCheck<T>(s: Ring<T>, view: nat)
    requires Counters(s) && s.seenTail <= view <= |s.popped|
    ensures Mask(s, s.head + 1) == Wrap(view, |s.buffer|) <==> |s.pushed| + 1 == view + |s.buffer|
  {
    var n, h := |s.buffer|, |s.pushed|;
    MaskNext(s, h);
    if Wrap(h + 1, n) == Wrap(view, n) {
      if h + 1 < view + n {
        WrapSeparates(view, h + 1, n);
      }
    }
  }

  /** The empty check, made on masked indices, means that the view shows nothing to pop. */
  lemma EmptyCheck<T>(s: Ring<T>, view: nat)
    requires Counters(s) && s.seenHead <= view <= |s.pushed|
    ensures s.tail == Wrap(view, |s.buffer|) <==> |s.popped| == view
  {
    if s.tail == Wrap(view, |s.buffer|) {
      WrapSeparates(|s.popped|, view, |s.buffer|);
    }
  }

  lemma PushCheckKeepsInv<T>(s: Ring<T>, s': Ring<T>, item: T, view: nat)
    requires Inv(s) && PushCheck(s, s', item, view)
    ensures Inv(s')
  {
    FullCheck(s, view);
    assert Written(s') == Written(s);
  }

  lemma PushWriteKeepsInv<T>(s: Ring<T>, s': Ring<T>)
    requires Inv(s) && PushWrite(s, s')
    ensures Inv(s')
  {
    var n, h := |s.buffer|, |s.pushed|;
    forall k: nat | Taken(s') <= k < Taken(s') + n ensures s'.buffer[Wrap(k, n)] == Expected(s', k) {
      assert s.buffer[Wrap(k, n)] == Expected(s, k);
      if Wrap(k, n) == Wrap(h, n) {
        if k <= h { WrapSeparates(k, h, n); } else { WrapSeparates(h, k, n); }
      }
    }
  }

  lemma PushStoreKeepsInv<T>(s: Ring<T>, s': Ring<T>)
    requires Inv(s) && PushStore(s, s')
    ensures Inv(s')
  {
    MaskNext(s, |s.pushed|);
    assert Written(s') == Written(s);
    assert forall k: nat :: Expected(s', k) == Expected(s, k);
  }

  lemma PopCheckKeepsInv<T>(s: Ring<T>, s': Ring<T>, view: nat)
    requires Inv(s) && PopCheck(s, s', view)
    ensures Inv(s')
  {
  }

  lemma PopTakeKeepsInv<T>(s: Ring<T>, s': Ring<T>)
    requires Inv(s) && PopTake(s, s')
    ensures Inv(s')
  {
    var n, t := |s.buffer|, |s.popped|;
    assert s.buffer[Wrap(t, n)] == Expected(s, t);
    forall k: nat | Taken(s') <= k < Taken(s') + n ensures s'.buffer[Wrap(k, n)] == Expected(s', k) {
      assert Expected(s', k) == Expected(s, k);
      if k < t + n {
        assert s.buffer[Wrap(k, n)] == Expected(s, k);
        if Wrap(k, n) == Wrap(t, n) {
          WrapSeparates(t, k, n);
        }
      } else {
      }
    }
  }

  lemma PopStoreKeepsInv<T>(s: Ring<T>, s': Ring<T>)
    requires Inv(s) && PopStore(s, s')
    ensures Inv(s')
  {
    MaskNext(s, |s.popped|);
    assert forall k: nat :: Expected(s', k) == Expected(s, k);
  }

  lemma NextKeepsInv<T(!new)>(s: Ring<T>, s': Ring<T>)
    requires Inv(s) && Next(s, s')
    ensures Inv(s')
  {
    if item, view :| PushCheck(s, s', item, view) {
      PushCheckKeepsInv(s, s', item, view);
    } else if PushWrite(s, s') {
      PushWriteKeepsInv(s, s');
    } else if PushStore(s, s') {
      PushStoreKeepsInv(s, s');
    } else if view :| PopCheck(s, s', view) {
      PopCheckKeepsInv(s, s', view);
    } else if PopTake(s, s') {
      PopTakeKeepsInv(s, s');
    } else {
      PopStoreKeepsInv(s, s');
    }
  }

  lemma {:induction false} BehaviorKeepsInv<T(!new)>(run: seq<Ring<T>>, i: nat)
    requires Behavior(run) && i < |run|
    ensures Inv(run[i])
  {
    if i > 0 {
      BehaviorKeepsInv(run, i - 1);
      NextKeepsInv(run[i - 1], run[i]);
    } else {
      assert forall k: nat :: Expected(run[0], k) == None;
    }
  }

  // ---------- Safety ----------

  /** First in, first out: what was popped is always a prefix of what was pushed, item by item. */
  lemma PoppedIsPrefixOfPushed<T(!new)>(run: seq<Ring<T>>, i: nat)
    requires Behavior(run) && i < |run|
    ensures |run[i].popped| <= |run[i].pushed|
    ensures forall k :: 0 <= k < |run[i].popped| ==> run[i].popped[k] == Some(run[i].pushed[k])
    ensures |run[i].pushed| - |run[i].popped| <= |run[i].buffer| - 1
  {
    BehaviorKeepsInv(run, i);
  }

  /**
   No slot is lost or raced for. A producer about to write holds an empty slot that the consumer is
   not about to read, and has seen the pop that emptied it; a consumer about to read holds the next
   item in line, and has seen the push that wrote it.
   */
  lemma SlotsAreNeverContended<T(!new)>(run: seq<Ring<T>>, i: nat)
    requires Behavior(run) && i < |run|
    ensures var s := run[i];
            && (s.producer.PReady? ==>
                  s.head < |s.buffer| && s.buffer[s.head] == None && |s.pushed| - |s.buffer| < s.seenTail)
            && (s.consumer.CReady? ==>
                  && s.tail < |s.buffer| && |s.popped| < s.seenHead <= |s.pushed|
                  && s.buffer[s.tail] == Some(s.pushed[|s.popped|]))
            && (s.producer.PReady? && s.consumer.CReady? ==> s.head != s.tail)
  {
    BehaviorKeepsInv(run, i);
    var s := run[i];
    var n, h, t := |s.buffer|, |s.pushed|, |s.popped|;
    if s.producer.PReady? {
      assert s.buffer[Wrap(h, n)] == Expected(s, h);
    }
    if s.consumer.CReady? {
      assert s.buffer[Wrap(t, n)] == Expected(s, t);
    }
  }

  // ---------- Progress ----------

  /**
   The outcome of a push's check: the item is taken up if and only if, as far as the producer can see,
   fewer than all but one slots are in use. With an up-to-date view that is the true number.
   */
  lemma PushDecides<T(!new)>(run: seq<Ring<T>>, i: nat, s': Ring<T>, item: T, view: nat)
    requires Behavior(run) && i < |run| && PushCheck(run[i], s', item, view)
    ensures var s := run[i];
            && s' == s.(seenTail := view, producer := s'.producer)
            && (s'.producer == PReady(item) <==> |s.pushed| - view < |s.buffer| - 1)
            && (s'.producer == PIdle <==> |s.pushed| - view == |s.buffer| - 1)
  {
    BehaviorKeepsInv(run, i);
    FullCheck(run[i], view);
    PushCheckKeepsInv(run[i], s', item, view);
  }

  /** The outcome of a pop's check: an item is taken if and only if the consumer can see one. */
  lemma PopDecides<T(!new)>(run: seq<Ring<T>>, i: nat, s': Ring<T>, view: nat)
    requires Behavior(run) && i < |run| && PopCheck(run[i], s', view)
    ensures var s := run[i];
            && s' == s.(seenHead := view, consumer := s'.consumer)
            && (s'.consumer == CReady <==> |s.popped| < view)
            && (s'.consumer == CIdle <==> |s.popped| == view)
  {
    BehaviorKeepsInv(run, i);
    EmptyCheck(run[i], view);
  }

  lemma Extended<T(!new)>(run: seq<Ring<T>>, s': Ring<T>)
    requires Behavior(run) && Next(run[|run| - 1], s')
    ensures Behavior(run + [s'])
  {
    hide Next, Init;
    var more := run + [s'];
    forall i | 0 <= i < |more| - 1 ensures Next(more[i], more[i + 1]) {
      if i < |run| - 1 {
        assert more[i] == run[i] && more[i + 1] == run[i + 1];
      }
    }
  }

  /** A push that has passed its check ends, in at most two steps of the producer, with its item in the ring. */
  lemma PushFinishes<T(!new)>(run: seq<Ring<T>>) returns (run': seq<Ring<T>>)
    requires Behavior(run) && !run[|run| - 1].producer.PIdle?
    ensures Behavior(run') && run <= run' && |run'| <= |run| + 2
    ensures var s, s' := run[|run| - 1], run'[|run'| - 1];
            && s'.producer == PIdle && s'.pushed == s.pushed + [s.producer.item]
            && s'.popped == s.popped && s'.consumer == s.consumer
  {
    hide Inv, Next, Init;
    var s := run[|run| - 1];
    BehaviorKeepsInv(run, |run| - 1);
    HeadInRange(s);
    run' := run;
    if s.producer.PReady? {
      s := s.(buffer := s.buffer[s.head := Some(s.producer.item)], producer := PWritten(s.producer.item));
      WriteIsNext(run[|run| - 1], s);
      Extended(run, s);
      run' := run + [s];
    }
    var end := s.(head := Mask(s, s.head + 1), producer := PIdle, pushed := s.pushed + [s.producer.item]);
    StoreIsNext(s, end);
    Extended(run', end);
    run' := run' + [end];
  }

  lemma HeadInRange<T>(s: Ring<T>)
    requires Inv(s)
    ensures s.head < |s.buffer| && s.tail < |s.buffer| && s.seenTail <= |s.popped| && s.seenHead <= |s.pushed|
  {
  }

  lemma WriteIsNext<T(!new)>(s: Ring<T>, s': Ring<T>)
    requires PushWrite(s, s')
    ensures Next(s, s')
  {
  }

  lemma StoreIsNext<T(!new)>(s: Ring<T>, s': Ring<T>)
    requires PushStore(s, s')
    ensures Next(s, s')
  {
  }

  /** From any reachable state, an idle producer can push into a ring that is not full. */
  lemma PushSucceeds<T(!new)>(run: seq<Ring<T>>, item: T) returns (run': seq<Ring<T>>)
    requires Behavior(run) && run[|run| - 1].producer.PIdle?
    requires var s := run[|run| - 1]; |s.pushed| - |s.popped| < |s.buffer| - 1
    ensures Behavior(run') && run <= run' && |run'| <= |run| + 3
    ensures var s, s' := run[|run| - 1], run'[|run'| - 1];
            && s'.producer == PIdle && s'.pushed == s.pushed + [item]
            && s'.popped == s.popped && s'.consumer == s.consumer
  {
    hide Inv, Init;
    var s := run[|run| - 1];
    BehaviorKeepsInv(run, |run| - 1);
    HeadInRange(s);
    var view := |s.popped|;
    var s' := s.(seenTail := view,
                 producer := if Mask(s, s.head + 1) == Wrap(view, |s.buffer|) then PIdle else PReady(item));
    assert PushCheck(s, s', item, view);
    PushDecides(run, |run| - 1, s', item, view);
    Extended(run, s');
    run' := PushFinishes(run + [s']);
  }

  lemma TakeIsNext<T(!new)>(s: Ring<T>, s': Ring<T>)
    requires PopTake(s, s')
    ensures Next(s, s')
  {
  }

  lemma PopStoreIsNext<T(!new)>(s: Ring<T>, s': Ring<T>)
    requires PopStore(s, s')
    ensures Next(s, s')
  {
  }

  /** A pop that has passed its check ends, in at most two steps of the consumer, with the next item in line. */
  lemma PopFinishes<T(!new)>(run: seq<Ring<T>>) returns (run': seq<Ring<T>>)
    requires Behavior(run) && !run[|run| - 1].consumer.CIdle?
    ensures Behavior(run') && run <= run' && |run'| <= |run| + 2
    ensures var s, s' := run[|run| - 1], run'[|run'| - 1];
            && |s.popped| < |s.pushed| && s'.popped == s.popped + [Some(s.pushed[|s.popped|])]
            && s'.consumer == CIdle && s'.pushed == s.pushed && s'.producer == s.producer
  {
    hide Inv, Next, Init;
    var s := run[|run| - 1];
    BehaviorKeepsInv(run, |run| - 1);
    HeadInRange(s);
    run' := run;
    if s.consumer.CReady? {
      s := s.(buffer := s.buffer[s.tail := None], consumer := CTaken(s.buffer[s.tail]));
      TakeIsNext(run[|run| - 1], s);
      Extended(run, s);
      run' := run + [s];
    }
    BehaviorKeepsInv(run', |run'| - 1);
    TakenIsNextInLine(s);
    var end := s.(tail := Mask(s, s.tail + 1), consumer := CIdle, popped := s.popped + [s.consumer.item]);
    PopStoreIsNext(s, end);
    Extended(run', end);
    run' := run' + [end];
  }

  lemma TakenIsNextInLine<T>(s: Ring<T>)
    requires Inv(s) && s.consumer.CTaken?
    ensures |s.popped| < |s.pushed| && s.consumer.item == Some(s.pushed[|s.popped|])
  {
  }

  /** From any reachable state, an idle consumer can pop the next item of a ring that is not empty. */
  lemma PopSucceeds<T(!new)>(run: seq<Ring<T>>) returns (run': seq<Ring<T>>)
    requires Behavior(run) && run[|run| - 1].consumer.CIdle?
    requires |run[|run| - 1].popped| < |run[|run| - 1].pushed|
    ensures Behavior(run') && run <= run' && |run'| <= |run| + 3
    ensures var s, s' := run[|run| - 1], run'[|run'| - 1];
            && s'.popped == s.popped + [Some(s.pushed[|s.popped|])]
            && s'.consumer == CIdle && s'.pushed == s.pushed && s'.producer == s.producer
  {
    hide Inv, Init;
    var s := run[|run| - 1];
    BehaviorKeepsInv(run, |run| - 1);
    HeadInRange(s);
    var view := |s.pushed|;
    var s' := s.(seenHead := view, consumer := if s.tail == Wrap(view, |s.buffer|) then CIdle else CReady);
    assert PopCheck(s, s', view);
    PopDecides(run, |run| - 1, s', view);
    Extended(run, s');
    run' := PopFinishes(run + [s']);
  }

  /** Nothing gets stuck in the ring: an idle consumer can pop every item pushed so far, in order. */
  lemma {:induction false} RingDrains<T(!new)>(run: seq<Ring<T>>) returns (run': seq<Ring<T>>)
    requires Behavior(run) && run[|run| - 1].consumer.CIdle?
    ensures Behavior(run') && run <= run'
    ensures var s, s' := run[|run| - 1], run'[|run'| - 1];
            && s'.pushed == s.pushed && |s'.popped| == |s.pushed|
            && forall k :: 0 <= k < |s.pushed| ==> s'.popped[k] == Some(s.pushed[k])
    decreases |run[|run| - 1].pushed| - |run[|run| - 1].popped|
  {
    hide Next, Init;
    var s := run[|run| - 1];
    PoppedIsPrefixOfPushed(run, |run| - 1);
    if |s.popped| == |s.pushed| {
      run' := run;
    } else {
      var more := PopSucceeds(run);
      run' := RingDrains(more);
    }
  }
}
