/** Runs of the protocol, crashes and restarts included, and the invariant on all of them. */
module Reachability {
  import opened Shards
  import opened LogCodec
  import opened Snapshots
  import opened Replay
  import opened Protocol
  import opened Invariants
  import QuietMoves
  import LogMoves
  import ShardMoves

  ghost predicate CanAct(hash: Hash, s: State, a: Action) {
    Shape(s) && |s.counted| == |s.shards| && Enabled(hash, s, a)
  }

  /** A run: any interleaving of any number of tasks, time steps and restarts from a fresh server. */
  ghost predicate Run(hash: Hash, states: seq<State>, actions: seq<Action>) {
    && |states| == |actions| + 1 && Initial(states[0])
    && forall i :: 0 <= i < |actions| ==>
         CanAct(hash, states[i], actions[i]) && states[i + 1] == Apply(hash, states[i], actions[i])
  }

  ghost predicate Reachable(hash: Hash, s: State) {
    exists states, actions :: Run(hash, states, actions) && s == states[|actions|]
  }

  lemma MoveInv(hash: Hash, s: State, t: nat, move: Move)
    requires Inv(hash, s) && t < |s.tasks| && MoveEnabled(hash, s, t, move)
    ensures Inv(hash, ApplyMove(hash, s, t, move))
  {
    hide ApplyMove, Exclusion, Stored, Counter, LogAndStore, Results;
    match move {
      case BeginWrite(_) => QuietMoves.BeginInv(hash, s, t, move);
      case BeginPlain(_) => QuietMoves.BeginInv(hash, s, t, move);
      case BeginRewrite => QuietMoves.BeginInv(hash, s, t, move);
      case Acquire => QuietMoves.AcquireInv(hash, s, t);
      case Append(ok) =>
        if ok {
          LogMoves.AppendInv(hash, s, t);
        } else {
          QuietMoves.BeginInv(hash, s, t, move);
        }
      case Peek(key) => ShardMoves.PeekInv(hash, s, t, key);
      case Mutate => ShardMoves.MutateInv(hash, s, t);
      case Count => ShardMoves.CountInv(hash, s, t);
      case Release => LogMoves.ReleaseInv(hash, s, t);
      case Reply => QuietMoves.BeginInv(hash, s, t, move);
      case SizeRead(_) => QuietMoves.BeginInv(hash, s, t, move);
      case Swap(ok) => LogMoves.SwapInv(hash, s, t, ok);
    }
  }

  /** Every action keeps the invariant. */
  lemma StepInv(hash: Hash, s: State, a: Action)
    requires Inv(hash, s) && CanAct(hash, s, a)
    ensures Inv(hash, Apply(hash, s, a))
  {
    hide ApplyMove, MoveEnabled, Exclusion, Stored, Counter, LogAndStore, Results;
    match a {
      case Tick(later) => TickInv(hash, s, later);
      case Step(t, move) => MoveInv(hash, s, t, move);
      case Restart(count, clocks, tasks) => LogMoves.RestartInv(hash, s, count, clocks, tasks);
    }
  }

  /** The invariant holds at every point of every run. */
  lemma {:induction false} RunInv(hash: Hash, states: seq<State>, actions: seq<Action>)
    requires Run(hash, states, actions)
    ensures forall i :: 0 <= i < |states| ==> Inv(hash, states[i])
    decreases |actions|
  {
    hide Initial, Inv, Apply, CanAct;
    if |actions| == 0 {
      InitialInv(hash, states[0]);
    } else {
      var last := |actions| - 1;
      assert states[..last + 1][0] == states[0];
      RunInv(hash, states[..last + 1], actions[..last]);
      assert states[..last + 1][last] == states[last];
      StepInv(hash, states[last], actions[last]);
      forall i | 0 <= i < |states| ensures Inv(hash, states[i]) {
        assert i <= last ==> states[..last + 1][i] == states[i];
      }
    }
  }

  lemma ReachableInv(hash: Hash, s: State)
    requires Reachable(hash, s)
    ensures Inv(hash, s)
  {
    hide Inv, Initial, CanAct, Apply;
    var states, actions :| Run(hash, states, actions) && s == states[|actions|];
    RunInv(hash, states, actions);
  }

  // -------------------------------------------- runs without rewrite or restart

  predicate KeepsBase(a: Action) {
    !a.Restart? && (a.Step? ==> a.move != Swap(true))
  }

  /** The startup store stays, the base stays, and if nothing was forgotten before, nothing is. */
  predicate SameBase(s: State, n: State) {
    && n.start == s.start && n.base == s.base && n.baseLog == s.baseLog
    && (s.history == s.executed ==> n.history == n.executed)
  }

  lemma VisitKeepsBase(hash: Hash, s: State, t: nat)
    requires |s.counted| == |s.shards|
    ensures ShardMoves.InVisit(s, t) ==> SameBase(s, MutateState(hash, s, t))
    ensures ShardMoves.AfterChange(s, t) ==> SameBase(s, CountState(hash, s, t))
  {
    hide VisitModel, VisitShard, VisitJob, VisitOwner, Visits, ShardOf, AfterVisit, Recount;
  }

  lemma EndKeepsBase(s: State, t: nat)
    requires t < |s.tasks|
    ensures s.tasks[t].Exec? && s.tasks[t].phase.Finished? ==> SameBase(s, ReleaseState(s, t))
    ensures s.tasks[t].Appending? && CanLog(s.tasks[t].command)
        ==> forall ok :: SameBase(s, AppendState(s, t, ok))
    ensures s.tasks[t].Swapping? ==> SwapState(s, t, true).start == s.start && SameBase(s, SwapState(s, t, false))
  {
    hide CanLog, JobOf, Absolute, SnapshotLog, SnapshotOf;
  }

  lemma MoveKeepsBase(hash: Hash, s: State, t: nat, move: Move)
    requires Shape(s) && |s.counted| == |s.shards| && t < |s.tasks| && MoveEnabled(hash, s, t, move)
    ensures ApplyMove(hash, s, t, move).start == s.start
    ensures move != Swap(true) ==> SameBase(s, ApplyMove(hash, s, t, move))
  {
    VisitKeepsBase(hash, s, t);
    EndKeepsBase(s, t);
    hide MutateState, CountState, ReleaseState, AppendState, SwapState, Granted, JobOf, CanAcquire, CanLog, PlainJob;
  }

  lemma StepKeepsBase(hash: Hash, s: State, a: Action)
    requires CanAct(hash, s, a) && !a.Restart?
    ensures Apply(hash, s, a).start == s.start
    ensures KeepsBase(a) ==> SameBase(s, Apply(hash, s, a))
  {
    hide ApplyMove, MoveEnabled, Shape;
    if a.Step? {
      MoveKeepsBase(hash, s, a.t, a.move);
    }
  }

  /** Until the first rewrite or restart, the base is the empty store and the empty log. */
  lemma {:induction false} BaseIsEmpty(hash: Hash, states: seq<State>, actions: seq<Action>)
    requires Run(hash, states, actions)
    requires forall i :: 0 <= i < |actions| ==> KeepsBase(actions[i])
    ensures var s := states[|actions|];
            s.base == map[] && s.baseLog == [] && s.history == s.executed
    decreases |actions|
  {
    hide CanAct, Apply;
    if |actions| == 0 {
    } else {
      var last := |actions| - 1;
      assert states[..last + 1][0] == states[0];
      BaseIsEmpty(hash, states[..last + 1], actions[..last]);
      StepKeepsBase(hash, states[last], actions[last]);
    }
  }

  /** Until the first restart, the store of the last startup is the empty one. */
  lemma {:induction false} StartIsEmpty(hash: Hash, states: seq<State>, actions: seq<Action>)
    requires Run(hash, states, actions)
    requires forall i :: 0 <= i < |actions| ==> !actions[i].Restart?
    ensures states[|actions|].start == map[]
    decreases |actions|
  {
    hide CanAct, Apply;
    if |actions| == 0 {
    } else {
      var last := |actions| - 1;
      assert states[..last + 1][0] == states[0];
      StartIsEmpty(hash, states[..last + 1], actions[..last]);
      StepKeepsBase(hash, states[last], actions[last]);
    }
  }
}
