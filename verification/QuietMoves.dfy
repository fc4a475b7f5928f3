/** Moves that only change which locks a task holds or waits for. */
module QuietMoves {
  import opened Bytes
  import opened Clock
  import opened Shards
  import opened Replay
  import opened Protocol
  import opened Invariants

  // ------------------------------------------------------------------ locks

  /** `to` holds no lock that `from` does not hold the same way. */
  ghost predicate HoldsNoMore(hash: Hash, count: nat, to: Pc, from: Pc)
    requires count > 0 && WellFormedPc(to, count) && WellFormedPc(from, count)
  {
    forall lock :: Held(hash, count, to, lock).None? || Held(hash, count, to, lock) == Held(hash, count, from, lock)
  }

  /** Taking no lock keeps exclusion. */
  lemma NoMoreExcludes(hash: Hash, s: State, n: State, t: nat, to: Pc)
    requires Shape(s) && Exclusion(hash, s) && t < |s.tasks| && WellFormedPc(to, |s.shards|)
    requires HoldsNoMore(hash, |s.shards|, to, s.tasks[t])
    requires |n.shards| == |s.shards| && n.tasks == s.tasks[t := to]
    ensures Shape(n) && Exclusion(hash, n)
  {
    hide Held, WellFormedPc, Compatible;
    CompatibleNone();
    forall u, v, lock | 0 <= u < |n.tasks| && 0 <= v < |n.tasks| && u != v
      ensures Compatible(Held(hash, |n.shards|, n.tasks[u], lock), Held(hash, |n.shards|, n.tasks[v], lock))
    {
      assert Compatible(Held(hash, |s.shards|, s.tasks[u], lock), Held(hash, |s.shards|, s.tasks[v], lock));
    }
  }

  lemma CompatibleNone()
    ensures forall m: Option<Mode> :: Compatible(None, m) && Compatible(m, None)
    ensures forall m: Option<Mode>, o: Option<Mode> :: Compatible(m, o) == Compatible(o, m)
  {
  }

  /** A granted lock is held by nobody in a conflicting mode. */
  lemma GrantedHolds(hash: Hash, count: nat, pc: Pc, now: Time, lock: Lock)
    requires count > 0 && WellFormedPc(pc, count) && Wanted(hash, count, pc).Some?
    ensures var to := Granted(pc, count, now); var wanted := Wanted(hash, count, pc).value;
            && WellFormedPc(to, count)
            && (Held(hash, count, to, lock).None? || Held(hash, count, to, lock) == Held(hash, count, pc, lock)
                || (lock == wanted.0 && Held(hash, count, to, lock) == Some(wanted.1)))
  {
    hide Route;
  }

  lemma AcquireExcludes(hash: Hash, s: State, t: nat)
    requires Shape(s) && Exclusion(hash, s) && t < |s.tasks| && CanAcquire(hash, s, t)
    ensures WellFormedPc(Granted(s.tasks[t], |s.shards|, s.now), |s.shards|)
    ensures Shape(Moved(s, t, Granted(s.tasks[t], |s.shards|, s.now)))
    ensures Exclusion(hash, Moved(s, t, Granted(s.tasks[t], |s.shards|, s.now)))
  {
    hide Held, WellFormedPc, Granted, Compatible, Wanted;
    var count, to := |s.shards|, Granted(s.tasks[t], |s.shards|, s.now);
    var n := Moved(s, t, to);
    GrantedHolds(hash, count, s.tasks[t], s.now, Barrier);
    CompatibleNone();
    forall u, v, lock | 0 <= u < |n.tasks| && 0 <= v < |n.tasks| && u != v
      ensures Compatible(Held(hash, count, n.tasks[u], lock), Held(hash, count, n.tasks[v], lock))
    {
      GrantedHolds(hash, count, s.tasks[t], s.now, lock);
      assert Compatible(Held(hash, count, s.tasks[u], lock), Held(hash, count, s.tasks[v], lock));
    }
  }

  // --------------------------------------------------------- nothing changed

  /** Neither the counter's nor the log's view of the task changes. */
  ghost predicate Quiet(hash: Hash, count: nat, from: Pc, to: Pc)
    requires count > 0 && WellFormedPc(from, count) && WellFormedPc(to, count)
  {
    && !(to.Exec? && to.phase.Mutated?)
    && (to.Exec? && to.job == Scan(Flush) ==>
          if from.Exec? && from.job == Scan(Flush) then Visited(to.phase, count) == Visited(from.phase, count)
          else to.phase.WantGlobal?)
    && (forall x :: Uncounted(hash, count, to, x) == Uncounted(hash, count, from, x))
    && PendingOf(to, count) == PendingOf(from, count)
  }

  /** A quiet move keeps the invariant. */
  lemma QuietInv(hash: Hash, s: State, t: nat, to: Pc)
    requires Inv(hash, s) && t < |s.tasks| && WellFormedPc(to, |s.shards|)
    requires Quiet(hash, |s.shards|, s.tasks[t], to)
    requires Shape(Moved(s, t, to)) && Exclusion(hash, Moved(s, t, to))
    requires TaskResult(hash, s, to)
    ensures Inv(hash, Moved(s, t, to))
  {
    hide Held, WellFormedPc, Compatible, Represents, Routed, Agreement, InOrder, Uncounted, PendingOf, Sum, OneAhead, Collecting;
    var n := Moved(s, t, to);
    QuietCounter(hash, s, t, to);
    forall u | 0 <= u < |n.tasks| ensures TaskLog(hash, n, n.tasks[u]) && TaskResult(hash, n, n.tasks[u]) {
      assert TaskLog(hash, s, s.tasks[u]) && TaskResult(hash, s, s.tasks[u]);
      SameElsewhere(hash, s, t, to);
    }
    if NonePending(n) {
      forall u | 0 <= u < |s.tasks| ensures PendingOf(s.tasks[u], |s.shards|).None? {
        assert PendingOf(n.tasks[u], |n.shards|).None?;
      }
    }
  }

  lemma QuietCounter(hash: Hash, s: State, t: nat, to: Pc)
    requires Shape(s) && Counter(hash, s) && t < |s.tasks| && WellFormedPc(to, |s.shards|)
    requires Quiet(hash, |s.shards|, s.tasks[t], to) && Shape(Moved(s, t, to))
    ensures Counter(hash, Moved(s, t, to))
  {
    hide WellFormedPc, Uncounted, PendingOf, Sum;
    var n := Moved(s, t, to);
    forall u | 0 <= u < |n.tasks| ensures RemembersCount(hash, n, n.tasks[u]) {
      assert RemembersCount(hash, s, s.tasks[u]);
    }
    forall x | 0 <= x < |n.shards| && AllCounted(hash, n, x) ensures n.counted[x] == |n.shards[x]| {
      forall u | 0 <= u < |s.tasks| ensures !Uncounted(hash, |s.shards|, s.tasks[u], x) {
        assert !Uncounted(hash, |n.shards|, n.tasks[u], x);
      }
      assert AllCounted(hash, s, x);
    }
  }

  /** What is said of log and export does not mention the tasks. */
  lemma SameElsewhere(hash: Hash, s: State, t: nat, to: Pc)
    requires |s.shards| > 0 && t < |s.tasks|
    ensures forall pc :: TaskLog(hash, Moved(s, t, to), pc) == TaskLog(hash, s, pc)
    ensures forall pc :: TaskResult(hash, Moved(s, t, to), pc) == TaskResult(hash, s, pc)
  {
  }

  // ------------------------------------------------------------- the moves

  lemma BeginInv(hash: Hash, s: State, t: nat, move: Move)
    requires Inv(hash, s) && t < |s.tasks| && MoveEnabled(hash, s, t, move)
    requires move.BeginWrite? || move.BeginPlain? || move.BeginRewrite? || move.Reply? || move.SizeRead?
          || move == Append(false)
    ensures Inv(hash, ApplyMove(hash, s, t, move))
  {
    hide Exclusion, Stored, Counter, LogAndStore, Results, Visits, Shape;
    var pc := s.tasks[t];
    ShapeOf(s, t);
    var to := match move
      case BeginWrite(c) => WantBarrier(c)
      case BeginPlain(job) => Exec(Plain, job, WantGlobal)
      case BeginRewrite => WantSize
      case SizeRead(large) => if large then WantRewrite else Idle
      case Append(_) => Replying
      case _ => Idle;
    assert HoldsNoMore(hash, |s.shards|, to, pc);
    NoMoreExcludes(hash, s, Moved(s, t, to), t, to);
    QuietInv(hash, s, t, to);
  }

  lemma ShapeOf(s: State, t: nat)
    requires Shape(s) && t < |s.tasks|
    ensures |s.shards| > 0 && WellFormedPc(s.tasks[t], |s.shards|)
  {
  }

  lemma GrantedQuiet(hash: Hash, count: nat, pc: Pc, now: Time)
    requires count > 0 && WellFormedPc(pc, count) && Wanted(hash, count, pc).Some?
    requires WellFormedPc(Granted(pc, count, now), count)
    ensures Quiet(hash, count, pc, Granted(pc, count, now))
  {
    hide Route;
  }

  /** An export begins at the instant the global lock is granted, with nothing collected. */
  lemma GrantedExport(hash: Hash, s: State, pc: Pc)
    requires |s.shards| > 0 && Stored(hash, s) && TaskResult(hash, s, pc) && WellFormedPc(pc, |s.shards|)
    ensures TaskResult(hash, s, Granted(pc, |s.shards|, s.now))
  {
    hide Represents, Routed, Route;
  }

  lemma AcquireInv(hash: Hash, s: State, t: nat)
    requires Inv(hash, s) && t < |s.tasks| && MoveEnabled(hash, s, t, Acquire)
    ensures Inv(hash, ApplyMove(hash, s, t, Acquire))
  {
    hide Exclusion, Stored, Counter, LogAndStore, TaskResult, Granted, Wanted, Quiet;
    AcquireExcludes(hash, s, t);
    GrantedQuiet(hash, |s.shards|, s.tasks[t], s.now);
    GrantedExport(hash, s, s.tasks[t]);
    QuietInv(hash, s, t, Granted(s.tasks[t], |s.shards|, s.now));
  }
}
