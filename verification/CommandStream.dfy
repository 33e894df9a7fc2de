/**
 The one ordered command stream. Any number of producers push; one matching thread pops; a control
 thread starts and stops the engine over and over. Each critical section is one atomic step.
 */
module CommandStream {
  import opened Trading

  /** A command together with the producer that pushed it. */
  datatype Item = Item(producer: nat, command: Command)

  /** The control thread is between calls, or inside stop() waiting for the matching thread. */
  datatype Control = Free | Joining

  datatype Stream = Stream(
    queue: seq<Item>,
    stopping: bool,
    running: bool,
    threadAlive: bool,
    control: Control,
    pushed: seq<Item>,
    processed: seq<Item>)

  ghost predicate Init(s: Stream) {
    s == Stream([], false, false, false, Free, [], [])
  }

  /** submitOrder() or cancelOrder() from any thread, whether or not the engine is running. */
  predicate Push(s: Stream, s': Stream, item: Item) {
    s' == s.(queue := s.queue + [item], pushed := s.pushed + [item])
  }

  /** start(): nothing if running; otherwise joins a finished thread, clears the stop flag and spawns. */
  predicate Start(s: Stream, s': Stream) {
    && s.control.Free?
    && if s.running then s' == s
       else !s.threadAlive && s' == s.(stopping := false, running := true, threadAlive := true)
  }

  /** stop(): nothing if not running; otherwise raises the stop flag and waits. */
  predicate StopBegin(s: Stream, s': Stream) {
    && s.control.Free?
    && s' == if s.running then s.(running := false, stopping := true, control := Joining) else s
  }

  predicate StopReturn(s: Stream, s': Stream) {
    s.control.Joining? && !s.threadAlive && s' == s.(control := Free)
  }

  /** The matching thread pops the oldest command and processes it; in Service it can also die of it. */
  predicate Serve(s: Stream, s': Stream) {
    && s.threadAlive && s.queue != []
    && s' == s.(queue := s.queue[1..], processed := s.processed + [s.queue[0]])
  }

  /** pop() returns nothing only when the queue is stopping and empty; the loop then ends. */
  predicate ThreadEnd(s: Stream, s': Stream) {
    s.threadAlive && s.queue == [] && s.stopping && s' == s.(threadAlive := false)
  }

  ghost predicate Next(s: Stream, s': Stream) {
    || (exists item :: Push(s, s', item))
    || Start(s, s')
    || StopBegin(s, s')
    || StopReturn(s, s')
    || Serve(s, s')
    || ThreadEnd(s, s')
  }

  ghost predicate Behavior(run: seq<Stream>) {
    && run != [] && Init(run[0])
    && forall i :: 0 <= i < |run| - 1 ==> Next(run[i], run[i + 1])
  }

  predicate Inv(s: Stream) {
    && s.pushed == s.processed + s.queue
    && (s.running ==> s.threadAlive && !s.stopping && s.control.Free?)
    && (s.threadAlive && !s.running ==> s.stopping && s.control.Joining?)
  }

  lemma NextKeepsInv(s: Stream, s': Stream)
    requires Inv(s) && Next(s, s')
    ensures Inv(s')
  {
  }

  /** In every state, what was pushed is what was processed followed by what is queued. */
  lemma {:induction false} StreamIsIntact(run: seq<Stream>, i: nat)
    requires Behavior(run) && i < |run|
    ensures Inv(run[i])
    ensures run[i].pushed == run[i].processed + run[i].queue
  {
    if i > 0 {
      StreamIsIntact(run, i - 1);
      NextKeepsInv(run[i - 1], run[i]);
    }
  }

  /** The commands of one producer, in stream order. */
  function By(producer: nat, items: seq<Item>): seq<Command> {
    if items == [] then []
    else
      var last := |items| - 1;
      By(producer, items[..last]) + if items[last].producer == producer then [items[last].command] else []
  }

  lemma {:induction false} ByConcat(producer: nat, a: seq<Item>, b: seq<Item>)
    ensures By(producer, a + b) == By(producer, a) + By(producer, b)
  {
    if b == [] {
      assert a + b == a;
    } else {
      ByConcat(producer, a, b[..|b| - 1]);
      assert (a + b)[..|a + b| - 1] == a + b[..|b| - 1];
    }
  }

  /** Each producer's commands are processed in the order it pushed them, none skipped or repeated. */
  lemma ProducerOrderIsKept(run: seq<Stream>, i: nat, producer: nat)
    requires Behavior(run) && i < |run|
    ensures By(producer, run[i].processed) <= By(producer, run[i].pushed)
    ensures By(producer, run[i].pushed) == By(producer, run[i].processed) + By(producer, run[i].queue)
  {
    StreamIsIntact(run, i);
    ByConcat(producer, run[i].processed, run[i].queue);
  }

  /** The state when stop() has returned and start() has not been called since. */
  predicate Stopped(s: Stream) {
    !s.running && s.control.Free?
  }

  lemma QuietStep(s: Stream, s': Stream)
    requires Inv(s) && Next(s, s') && Stopped(s) && Stopped(s')
    ensures s'.processed == s.processed && s.queue <= s'.queue
  {
  }

  /**
   From the moment stop() has returned until start() is called, nothing is processed and no pushed
   command is lost: the queue only grows, and is there for the next start.
   */
  lemma {:induction false} PushesWhileStoppedAreKept(run: seq<Stream>, i: nat, j: nat)
    requires Behavior(run) && i <= j < |run|
    requires forall k :: i <= k <= j ==> Stopped(run[k])
    ensures run[j].processed == run[i].processed && run[i].queue <= run[j].queue
    ensures run[j].pushed == run[i].processed + run[j].queue
    decreases j - i
  {
    StreamIsIntact(run, j);
    if i < j {
      PushesWhileStoppedAreKept(run, i, j - 1);
      StreamIsIntact(run, j - 1);
      QuietStep(run[j - 1], run[j]);
    }
  }

  lemma JoiningStep(s: Stream, s': Stream, before: seq<Item>)
    requires Inv(s) && Next(s, s') && s.control.Joining? && s'.control.Joining?
    requires before <= s.pushed && (s.threadAlive || before <= s.processed)
    ensures before <= s'.pushed && (s'.threadAlive || before <= s'.processed)
  {
    if ThreadEnd(s, s') {
      assert s.processed + [] == s.processed;
    }
  }

  /** While stop() waits: what was pushed before the call has been processed, or the thread is still at it. */
  lemma {:induction false} DrainsWhileJoining(run: seq<Stream>, a: nat, b: nat)
    requires Behavior(run) && a < b < |run|
    requires run[a].running && StopBegin(run[a], run[a + 1])
    requires forall k :: a < k <= b ==> run[k].control.Joining?
    ensures run[a].pushed <= run[b].pushed && (run[b].threadAlive || run[a].pushed <= run[b].processed)
    decreases b
  {
    hide Next;
    StreamIsIntact(run, b - 1);
    if a + 1 < b {
      DrainsWhileJoining(run, a, b - 1);
      JoiningStep(run[b - 1], run[b], run[a].pushed);
    }
  }

  /** stop(), from call to return: every command pushed before the call has been processed, in order. */
  lemma StopDrains(run: seq<Stream>, a: nat, b: nat, after: Stream)
    requires Behavior(run) && a < b < |run|
    requires run[a].running && StopBegin(run[a], run[a + 1])
    requires forall k :: a < k <= b ==> run[k].control.Joining?
    requires StopReturn(run[b], after)
    ensures run[a].pushed <= run[b].processed
  {
    DrainsWhileJoining(run, a, b);
  }

  // ---------- Progress ----------

  lemma Extended(run: seq<Stream>, s': Stream)
    requires Behavior(run) && Next(run[|run| - 1], s')
    ensures Behavior(run + [s'])
  {
    hide Next, Init;
    var more := run + [s'];
    forall i | 0 <= i < |more| - 1 ensures Next(more[i], more[i + 1]) {
      if i < |run| - 1 {
        assert more[i] == run[i] && more[i + 1] == run[i + 1];
      }
    }
  }

  /** Whatever the state in which start() is called, a live thread that is not told to stop results. */
  lemma StartStarts(run: seq<Stream>, i: nat, s': Stream)
    requires Behavior(run) && i < |run| && Start(run[i], s')
    ensures s'.running && s'.threadAlive && !s'.stopping
    ensures s'.queue == run[i].queue && s'.processed == run[i].processed && s'.pushed == run[i].pushed
  {
    StreamIsIntact(run, i);
  }

  /** stop() called on a running engine tells the thread to stop and waits for it. */
  lemma StopStops(run: seq<Stream>, i: nat, s': Stream)
    requires Behavior(run) && i < |run| && StopBegin(run[i], s') && run[i].running
    ensures s'.stopping && s'.control.Joining? && !s'.running
    ensures s'.queue == run[i].queue && s'.processed == run[i].processed && s'.pushed == run[i].pushed
  {
  }

  /** A pushed command is the last one queued. */
  lemma PushEnqueues(run: seq<Stream>, i: nat, s': Stream, item: Item)
    requires Behavior(run) && i < |run| && Push(run[i], s', item)
    ensures s'.pushed == run[i].processed + run[i].queue + [item] && s'.queue == run[i].queue + [item]
  {
    StreamIsIntact(run, i);
  }

  /** The state once the thread has served the first n queued commands. */
  function AfterServing(s: Stream, n: nat): Stream
    requires n <= |s.queue|
  {
    s.(queue := s.queue[n..], processed := s.processed + s.queue[..n])
  }

  /** A live thread serves everything queued, in order, in as many steps as there are commands. */
  lemma {:induction false} ThreadServes(run: seq<Stream>, n: nat) returns (run': seq<Stream>)
    requires Behavior(run) && run[|run| - 1].threadAlive && n <= |run[|run| - 1].queue|
    ensures Behavior(run') && run <= run' && |run'| == |run| + n
    ensures run'[|run'| - 1] == AfterServing(run[|run| - 1], n)
    decreases n
  {
    hide Next, Init;
    var s := run[|run| - 1];
    if n == 0 {
      run' := run;
      assert s.queue[0..] == s.queue && s.processed + s.queue[..0] == s.processed;
    } else {
      var before := ThreadServes(run, n - 1);
      var a, b := AfterServing(s, n - 1), AfterServing(s, n);
      ServesOne(s, n - 1);
      Extended(before, b);
      run' := before + [b];
    }
  }

  lemma ServesOne(s: Stream, n: nat)
    requires s.threadAlive && n < |s.queue|
    ensures Next(AfterServing(s, n), AfterServing(s, n + 1))
  {
    assert s.queue[..n + 1] == s.queue[..n] + [s.queue[n]];
    assert s.queue[n..][1..] == s.queue[n + 1..];
    assert s.processed + s.queue[..n] + [s.queue[n]] == s.processed + s.queue[..n + 1];
    assert Serve(AfterServing(s, n), AfterServing(s, n + 1));
  }

  /**
   From any state in which the engine is stopped, however many commands were queued meanwhile: it can be
   started, serves them all, and can be stopped again, with everything ever pushed processed.
   */
  lemma StartServeStop(run: seq<Stream>) returns (run': seq<Stream>)
    requires Behavior(run) && Stopped(run[|run| - 1])
    ensures Behavior(run') && run <= run'
    ensures var s, s' := run[|run| - 1], run'[|run'| - 1];
            Stopped(s') && s'.pushed == s.pushed == s'.processed && s'.queue == []
  {
    hide Next, Init;
    var s := run[|run| - 1];
    StreamIsIntact(run, |run| - 1);
    var a := StartIsPossible(s);
    Extended(run, a);
    var served := ThreadServes(run + [a], |a.queue|);
    var b := served[|served| - 1];
    assert a.queue[|a.queue|..] == [] && a.queue[..|a.queue|] == a.queue;
    var c, d, e := StopIsPossible(b);
    Extended(served, c);
    Extended(served + [c], d);
    Extended(served + [c] + [d], e);
    run' := served + [c] + [d] + [e];
  }

  lemma StartIsPossible(s: Stream) returns (s': Stream)
    requires Inv(s) && Stopped(s)
    ensures Next(s, s') && Start(s, s')
    ensures s'.running && s'.threadAlive && !s'.stopping && s'.control.Free?
    ensures s'.queue == s.queue && s'.processed == s.processed && s'.pushed == s.pushed
  {
    s' := s.(stopping := false, running := true, threadAlive := true);
    assert Start(s, s');
  }

  /** With nothing left to serve: the stop flag is raised, the thread ends and stop() returns. */
  lemma StopIsPossible(s: Stream) returns (a: Stream, b: Stream, c: Stream)
    requires s.running && s.threadAlive && s.control.Free? && s.queue == []
    ensures Next(s, a) && Next(a, b) && Next(b, c) && StopBegin(s, a) && ThreadEnd(a, b) && StopReturn(b, c)
    ensures Stopped(c) && c.queue == [] && c.processed == s.processed && c.pushed == s.pushed
  {
    a := s.(running := false, stopping := true, control := Joining);
    b := a.(threadAlive := false);
    c := b.(control := Free);
    assert StopBegin(s, a) && ThreadEnd(a, b) && StopReturn(b, c);
  }

  /** A command pushed while the engine is stopped is served once it runs again. */
  lemma PushedIsServed(run: seq<Stream>, item: Item) returns (run': seq<Stream>)
    requires Behavior(run) && Stopped(run[|run| - 1])
    ensures Behavior(run') && run <= run'
    ensures run'[|run'| - 1].processed == run[|run| - 1].pushed + [item]
  {
    var s := run[|run| - 1];
    var s' := s.(queue := s.queue + [item], pushed := s.pushed + [item]);
    assert Push(s, s', item);
    hide Next, Init;
    Extended(run, s');
    run' := StartServeStop(run + [s']);
  }
}
