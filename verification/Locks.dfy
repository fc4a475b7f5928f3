/** Locks are taken in one order, so some task can always go on. */
module Locks {
  import opened Bytes
  import opened Shards
  import opened Protocol
  import opened Invariants
  import opened Reachability

  /** A task waits only for a lock above every lock it holds. */
  lemma LocksAscend(hash: Hash, count: nat, pc: Pc, lock: Lock)
    requires count > 0 && WellFormedPc(pc, count)
    requires Wanted(hash, count, pc).Some? && Held(hash, count, pc, lock).Some?
    ensures Rank(lock) < Rank(Wanted(hash, count, pc).value.0)
  {
  }

  /** A busy task that is not waiting for a lock can move. */
  lemma OffLockMoves(hash: Hash, s: State, t: nat) returns (move: Move)
    requires Shape(s) && t < |s.tasks| && !s.tasks[t].Idle? && Wanted(hash, |s.shards|, s.tasks[t]).None?
    ensures MoveEnabled(hash, s, t, move) && !move.Acquire?
  {
    hide CanAcquire;
    match s.tasks[t] {
      case Appending(_) => move := Append(true);
      case Exec(_, job, InShard(i)) =>
        var shard := s.shards[ShardOf(hash, job, i, |s.shards|)];
        if key :| key in shard && Unread(job, shard, key) {
          move := Peek(key);
        } else {
          move := Mutate;
        }
      case Exec(_, _, Mutated(_, _)) => move := Count;
      case Exec(_, _, Finished) => move := Release;
      case Replying => move := Reply;
      case ReadingSize => move := SizeRead(false);
      case Swapping(_, _) => move := Swap(false);
      case _ => move := Reply;
    }
  }

  lemma IdleHoldsNothing(hash: Hash, count: nat, pc: Pc, lock: Lock)
    requires count > 0 && WellFormedPc(pc, count) && Held(hash, count, pc, lock).Some?
    ensures !pc.Idle?
  {
  }

  lemma RankBound(lock: Lock)
    ensures Rank(lock) <= 3
  {
  }

  /** Where waiting tasks stand in the queues of their locks: the smaller, the earlier. */
  type Queue = seq<nat>

  /** Another task waits for the same lock and came earlier. */
  ghost predicate WaitsAhead(hash: Hash, s: State, queue: Queue, u: nat, t: nat)
    requires Shape(s) && |queue| == |s.tasks| && t < |s.tasks| && u < |s.tasks|
  {
    && Wanted(hash, |s.shards|, s.tasks[t]).Some? && Wanted(hash, |s.shards|, s.tasks[u]).Some?
    && Wanted(hash, |s.shards|, s.tasks[u]).value.0 == Wanted(hash, |s.shards|, s.tasks[t]).value.0
    && queue[u] < queue[t]
  }

  /** The move is enabled and, where it takes a lock, nobody queues ahead: readers wait behind a waiting writer. */
  ghost predicate FairlyEnabled(hash: Hash, s: State, queue: Queue, t: nat, move: Move)
    requires Shape(s) && |queue| == |s.tasks| && t < |s.tasks|
  {
    && MoveEnabled(hash, s, t, move)
    && (move.Acquire? ==> forall u :: 0 <= u < |s.tasks| ==> !WaitsAhead(hash, s, queue, u, t))
  }

  /** Following from a busy task whoever blocks it, holder or earlier in the queue, leads to a task that can move. */
  lemma {:induction false} Unblocked(hash: Hash, s: State, queue: Queue, t: nat) returns (u: nat, move: Move)
    requires Shape(s) && |queue| == |s.tasks| && t < |s.tasks| && !s.tasks[t].Idle?
    ensures u < |s.tasks| && !s.tasks[u].Idle? && FairlyEnabled(hash, s, queue, u, move)
    decreases match Wanted(hash, |s.shards|, s.tasks[t]) case None => 0 case Some(w) => 4 - Rank(w.0), queue[t]
  {
    hide Wanted, Held, Rank, WellFormedPc, Compatible, WaitsAhead;
    var count := |s.shards|;
    if Wanted(hash, count, s.tasks[t]).None? {
      move := OffLockMoves(hash, s, t);
      return t, move;
    }
    var (lock, mode) := Wanted(hash, count, s.tasks[t]).value;
    RankBound(lock);
    var v: nat;
    if v0 :| 0 <= v0 < |s.tasks| && WaitsAhead(hash, s, queue, v0, t) {
      AheadWaits(hash, s, queue, v0, t);
      v := v0;
    } else if Grantable(hash, s, t, lock, mode) {
      return t, Acquire;
    } else {
      v :| 0 <= v < |s.tasks| && v != t && !Compatible(Held(hash, count, s.tasks[v], lock), Some(mode));
      assert Held(hash, count, s.tasks[v], lock).Some? by { NobodyCompatible(mode); }
      IdleHoldsNothing(hash, count, s.tasks[v], lock);
      if Wanted(hash, count, s.tasks[v]).Some? {
        LocksAscend(hash, count, s.tasks[v], lock);
        RankBound(Wanted(hash, count, s.tasks[v]).value.0);
      }
    }
    u, move := Unblocked(hash, s, queue, v);
  }

  lemma AheadWaits(hash: Hash, s: State, queue: Queue, u: nat, t: nat)
    requires Shape(s) && |queue| == |s.tasks| && t < |s.tasks| && u < |s.tasks| && WaitsAhead(hash, s, queue, u, t)
    ensures !s.tasks[u].Idle? && queue[u] < queue[t]
    ensures Wanted(hash, |s.shards|, s.tasks[t]).Some? && Wanted(hash, |s.shards|, s.tasks[u]).Some?
    ensures Wanted(hash, |s.shards|, s.tasks[u]).value.0 == Wanted(hash, |s.shards|, s.tasks[t]).value.0
  {
  }

  lemma NobodyCompatible(mode: Mode)
    ensures Compatible(None, Some(mode))
  {
  }

  ghost predicate Busy(s: State) {
    exists t :: 0 <= t < |s.tasks| && !s.tasks[t].Idle?
  }

  /** No reachable state is deadlocked, in whatever order the waiting tasks queue: while some task is busy,
      a busy task can move. */
  lemma NoDeadlock(hash: Hash, s: State, queue: Queue)
    requires Reachable(hash, s) && Busy(s) && |queue| == |s.tasks|
    ensures Shape(s)
    ensures exists t, move :: 0 <= t < |s.tasks| && !s.tasks[t].Idle? && FairlyEnabled(hash, s, queue, t, move)
  {
    ReachableInv(hash, s);
    hide Reachable, Inv, FairlyEnabled;
    InvShape(hash, s);
    var t :| 0 <= t < |s.tasks| && !s.tasks[t].Idle?;
    var u, move := Unblocked(hash, s, queue, t);
  }

  lemma InvShape(hash: Hash, s: State)
    requires Inv(hash, s)
    ensures Shape(s)
  {
  }

  /** In every reachable state no two tasks hold a lock in conflicting modes. */
  lemma MutualExclusion(hash: Hash, s: State)
    requires Reachable(hash, s)
    ensures Shape(s) && Exclusion(hash, s)
  {
    ReachableInv(hash, s);
    hide Reachable;
  }

  // -------------------------------------------------------- who waits for whom

  /** The task runs a rewrite, from the export to the swap. */
  predicate Rewriting(pc: Pc) {
    pc.WantSwap? || pc.Swapping? || (pc.Exec? && pc.owner.Rewriter?)
  }

  /** The task is a client between its append and its answer. */
  predicate Writing(pc: Pc) {
    pc.Appending? || pc.Replying? || (pc.Exec? && pc.owner.Writer?)
  }

  predicate Inside(pc: Pc) {
    pc.Exec? && !pc.phase.WantGlobal?
  }

  /** A client waits at the barrier for a rewrite alone, and at the engine for another client's write, a look at the
      log's size or a swap. */
  lemma ClientWaits(hash: Hash, s: State, t: nat)
    requires Shape(s) && t < |s.tasks|
    ensures s.tasks[t].WantBarrier? ==>
              (CanAcquire(hash, s, t) <==> forall u :: 0 <= u < |s.tasks| && u != t ==> !Rewriting(s.tasks[u]))
    ensures s.tasks[t].WantEngine? ==>
              (CanAcquire(hash, s, t) <==> forall u :: 0 <= u < |s.tasks| && u != t ==>
                 !Writing(s.tasks[u]) && !s.tasks[u].ReadingSize? && !s.tasks[u].Swapping?)
  {
    hide CanLog, JobOf, PlainJob;
  }

  /** A command on keys waits for scans alone to enter the store, and inside for a task at its own shard; a scan
      waits for everybody inside. */
  lemma StoreWaits(hash: Hash, s: State, t: nat)
    requires Shape(s) && t < |s.tasks| && s.tasks[t].Exec?
    ensures s.tasks[t].phase.WantGlobal? ==>
              (CanAcquire(hash, s, t) <==> forall u :: 0 <= u < |s.tasks| && u != t ==>
                 !(Inside(s.tasks[u]) && (s.tasks[t].job.Scan? || s.tasks[u].job.Scan?)))
    ensures s.tasks[t].phase.AtShard? ==>
              (CanAcquire(hash, s, t) <==> forall u :: 0 <= u < |s.tasks| && u != t ==>
                 !(s.tasks[u].Exec? && (s.tasks[u].phase.InShard? || s.tasks[u].phase.Mutated?)
                   && ShardOf(hash, s.tasks[u].job, s.tasks[u].phase.i, |s.shards|)
                      == ShardOf(hash, s.tasks[t].job, s.tasks[t].phase.i, |s.shards|)))
  {
    hide CanLog, JobOf, PlainJob;
  }
}
