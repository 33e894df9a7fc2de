/**
 A failed commit cannot wedge a flush. The rank of a pending flush is how many steps of the writer it
 is away from being released; every step of the writer lowers it whether the commit succeeds or
 fails, no other step raises it, and until it is zero the writer always has a step to take.
 */
module FlushProgress {
  import opened Trading
  import opened Journal
  import opened EventTable
  import opened GroupCommit

  predicate WriterStep(s: Store, s': Store) {
    TakeBatch(s, s') || CommitOk(s, s') || CommitFail(s, s') || Advance(s, s')
  }

  /** The flush waiting for `target` records may return. */
  predicate Released(s: Store, target: nat) {
    s.done >= target || s.stopping
  }

  function Rank(s: Store, target: nat): nat {
    if Released(s, target) then 0
    else
      match s.writer
      case Waiting => 3
      case Holding(batch) => if s.done + Size(batch) >= target then 2 else 5
      case Settled(batch) => if s.done + Size(batch) >= target then 1 else 4
      case Exited => 0
  }

  /** The writer leaves only at teardown. */
  predicate Tended(s: Store) {
    s.writer.Exited? ==> s.stopping
  }

  lemma NextIsTended(s: Store, s': Store)
    requires Tended(s) && Next(s, s')
    ensures Tended(s')
  {
    hide TableOf, Insertable, Storable, Size;
  }

  lemma {:induction false} BehaviorIsTended(run: seq<Store>, i: nat)
    requires Behavior(run) && i < |run|
    ensures Tended(run[i])
  {
    hide Next;
    if i > 0 {
      BehaviorIsTended(run, i - 1);
      NextIsTended(run[i - 1], run[i]);
    }
  }

  /** Until the flush is released, the writer has a step to take. */
  lemma WriterCanMove(s: Store, target: nat) returns (s': Store)
    requires Inv(s) && Tended(s) && target <= s.enqueued && !Released(s, target)
    ensures WriterStep(s, s') && Next(s, s')
  {
    hide TableOf, Insertable, Queued, Persisted;
    CountersAddUp(s);
    match s.writer
    case Waiting =>
      s' := s.(eventQueue := [], tradeQueue := [], writer := Holding(Batch(s.eventQueue, s.tradeQueue)));
      assert TakeBatch(s, s');
    case Holding(batch) =>
      s' := s.(writer := Settled(batch), fates := s.fates + Repeat(false, Size(batch)));
      assert CommitFail(s, s');
    case Settled(batch) =>
      s' := s.(writer := Waiting, done := s.done + Size(batch));
      assert Advance(s, s');
  }

  lemma WriterLowersRank(s: Store, s': Store, target: nat)
    requires Inv(s) && WriterStep(s, s') && target <= s.enqueued && !Released(s, target)
    ensures Rank(s', target) < Rank(s, target)
  {
    hide TableOf, Insertable, Queued, Persisted;
    CountersAddUp(s);
  }

  lemma NothingRaisesRank(s: Store, s': Store, target: nat)
    requires Inv(s) && Tended(s) && Next(s, s') && target <= s.enqueued
    ensures Rank(s', target) <= Rank(s, target)
  {
    hide TableOf, Insertable, Queued, Persisted, Storable;
    if WriterStep(s, s') && !Released(s, target) {
      WriterLowersRank(s, s', target);
    }
  }

  lemma RankTells(s: Store, target: nat)
    requires Tended(s)
    ensures Rank(s, target) == 0 <==> Released(s, target)
    ensures Rank(s, target) <= 5
  {
  }

  /** How many of the steps from a to b the writer took. */
  ghost function WriterSteps(run: seq<Store>, a: nat, b: nat): nat
    requires a <= b < |run|
    decreases b
  {
    if a == b then 0
    else WriterSteps(run, a, b - 1) + if WriterStep(run[b - 1], run[b]) then 1 else 0
  }

  /** Whatever else happens in between, each step of the writer brings the release closer. */
  lemma {:induction false} RankFalls(run: seq<Store>, a: nat, b: nat, target: nat)
    requires Behavior(run) && a <= b < |run| && target <= run[a].enqueued
    ensures target <= run[b].enqueued
    ensures Released(run[b], target) || Rank(run[b], target) + WriterSteps(run, a, b) <= Rank(run[a], target)
    decreases b
  {
    hide Next, Inv, WriterStep, Rank, Released;
    if a < b {
      var s, s' := run[b - 1], run[b];
      RankFalls(run, a, b - 1, target);
      BehaviorKeepsInv(run, b - 1);
      BehaviorKeepsInv(run, b);
      BehaviorIsTended(run, b - 1);
      BehaviorIsTended(run, b);
      HistoryGrows(s, s');
      Enqueued(s);
      Enqueued(s');
      RankTells(s, target);
      RankTells(s', target);
      NothingRaisesRank(s, s', target);
      if WriterStep(s, s') && !Released(s, target) {
        WriterLowersRank(s, s', target);
      }
    }
  }

  /**
   No flush can be wedged. From any state of any behavior, a waiting flush may return once the writer
   has taken five steps, whichever commits failed and whatever was enqueued meanwhile; and until it may
   return the writer has a step to take.
   */
  lemma FlushCannotBeWedged(run: seq<Store>, a: nat, b: nat, w: nat)
    requires Behavior(run) && a <= b < |run| && forall k :: a <= k <= b ==> w in run[k].waiters
    ensures var s := run[b];
            && (5 <= WriterSteps(run, a, b) ==> FlushReturn(s, s.(waiters := s.waiters - {w}), w))
            && (FlushReturn(s, s.(waiters := s.waiters - {w}), w)
                || exists s' :: WriterStep(s, s') && Next(s, s'))
  {
    hide Next, WriterStep, Rank, Queued, Persisted;
    var target := run[a].waiters[w];
    WaiterKeepsTarget(run, a, b, w);
    BehaviorKeepsInv(run, a);
    RankFalls(run, a, b, target);
    BehaviorKeepsInv(run, b);
    BehaviorIsTended(run, a);
    BehaviorIsTended(run, b);
    RankTells(run[a], target);
    RankTells(run[b], target);
    if !Released(run[b], target) {
      var s' := WriterCanMove(run[b], target);
    }
  }

  lemma {:induction false} WaiterKeepsTarget(run: seq<Store>, a: nat, b: nat, w: nat)
    requires Behavior(run) && a <= b < |run| && forall k :: a <= k <= b ==> w in run[k].waiters
    ensures run[b].waiters[w] == run[a].waiters[w]
    decreases b
  {
    hide Next;
    if a < b {
      WaiterKeepsTarget(run, a, b - 1, w);
      HistoryGrows(run[b - 1], run[b]);
      WaiterStays(run[b - 1], run[b], w);
    }
  }

  // ---------- Running dry ----------

  ghost predicate WriterPath(path: seq<Store>, from: Store, to: Store) {
    && path != [] && path[0] == from && path[|path| - 1] == to
    && forall i :: 0 <= i < |path| - 1 ==> WriterStep(path[i], path[i + 1])
  }

  /** Steps the writer is away from having nothing to do. */
  function Load(s: Store): nat {
    var queued := if s.eventQueue == [] && s.tradeQueue == [] then 0 else 3;
    match s.writer
    case Waiting => queued
    case Holding(_) => queued + 2
    case Settled(_) => queued + 1
    case Exited => 0
  }

  lemma WriterWorks(s: Store) returns (s': Store)
    requires Inv(s) && !s.writer.Exited? && Load(s) > 0
    ensures WriterStep(s, s') && Next(s, s') && Load(s') < Load(s) && !s'.writer.Exited?
    ensures s'.waiters == s.waiters && s'.stopping == s.stopping && s'.appended == s.appended
  {
    hide TableOf, Insertable, Queued, Persisted;
    match s.writer
    case Waiting =>
      s' := s.(eventQueue := [], tradeQueue := [], writer := Holding(Batch(s.eventQueue, s.tradeQueue)));
      assert TakeBatch(s, s');
    case Holding(batch) =>
      s' := s.(writer := Settled(batch), fates := s.fates + Repeat(false, Size(batch)));
      assert CommitFail(s, s');
    case Settled(batch) =>
      s' := s.(writer := Waiting, done := s.done + Size(batch));
      assert Advance(s, s');
  }

  /** On its own, the writer comes to wait on empty queues with every record settled. */
  lemma {:induction false} WriterRunsDry(s: Store) returns (path: seq<Store>, s': Store)
    requires Inv(s) && !s.writer.Exited?
    ensures WriterPath(path, s, s') && Inv(s')
    ensures s'.writer.Waiting? && s'.eventQueue == [] && s'.tradeQueue == []
    ensures s'.done == s'.enqueued == s.enqueued
    ensures s'.waiters == s.waiters && s'.stopping == s.stopping && s'.appended == s.appended
    decreases Load(s)
  {
    hide Inv, Next, WriterStep;
    Enqueued(s);
    if Load(s) == 0 {
      path, s' := [s], s;
      CountersAddUp(s);
    } else {
      var t := WriterWorks(s);
      NextKeepsInv(s, t);
      Enqueued(t);
      var rest;
      rest, s' := WriterRunsDry(t);
      path := [s] + rest;
    }
  }

  lemma {:induction false} Continues(run: seq<Store>, path: seq<Store>, to: Store)
    requires Behavior(run) && WriterPath(path, run[|run| - 1], to)
    ensures Behavior(run + path[1..]) && (run + path[1..])[|run + path[1..]| - 1] == to
  {
    var more := run + path[1..];
    forall i | 0 <= i < |more| - 1 ensures Next(more[i], more[i + 1]) {
      if i < |run| - 1 {
        assert more[i] == run[i] && more[i + 1] == run[i + 1];
      } else {
        var k := i - |run| + 1;
        assert more[i] == path[k] && more[i + 1] == path[k + 1];
        assert WriterStep(path[k], path[k + 1]);
      }
    }
  }

  lemma Extended(run: seq<Store>, s': Store)
    requires Behavior(run) && Next(run[|run| - 1], s')
    ensures Behavior(run + [s'])
  {
    hide Next, Init;
    var more := run + [s'];
    forall i | 0 <= i < |more| - 1 ensures Next(more[i], more[i + 1]) {
      if i < |run| - 1 {
        assert more[i] == run[i] && more[i + 1] == run[i + 1];
      }
    }
  }

  /**
   The destructor cannot hang: from any state of any behavior the stop flag can be raised, and the writer
   then settles whatever is queued or in flight and exits.
   */
  lemma TeardownEnds(run: seq<Store>) returns (run': seq<Store>)
    requires Behavior(run) && !run[|run| - 1].writer.Exited?
    ensures Behavior(run') && run <= run'
    ensures var s, s' := run[|run| - 1], run'[|run'| - 1];
            s'.stopping && s'.writer.Exited? && s'.appended == s.appended && s'.done == s'.enqueued == s.enqueued
  {
    var a := run[|run| - 1].(stopping := true);
    assert Stop(run[|run| - 1], a);
    hide Inv, Next, Init, WriterPath;
    Extended(run, a);
    BehaviorKeepsInv(run + [a], |run|);
    var path, b := WriterRunsDry(a);
    Continues(run + [a], path, b);
    var more := run + [a] + path[1..];
    var c := b.(writer := Exited);
    ExitIsNext(b, c);
    Extended(more, c);
    run' := more + [c];
  }

  lemma ExitIsNext(s: Store, s': Store)
    requires Exit(s, s')
    ensures Next(s, s')
  {
  }
}
