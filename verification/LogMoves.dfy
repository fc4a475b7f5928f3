/** Moves that change the log or end a job: append, release, swap and restart. */
module LogMoves {
  import opened Bytes
  import opened Clock
  import opened Commands
  import opened Reference
  import opened Shards
  import opened Snapshots
  import opened LogCodec
  import opened Replay
  import Aof
  import opened Protocol
  import opened Invariants
  import opened QuietMoves

  // ------------------------------------------------------------ who excludes

  /** A task that holds the engine is the only one that can have a write pending. */
  lemma EngineAlone(hash: Hash, s: State, t: nat, u: nat)
    requires Shape(s) && Exclusion(hash, s) && t < |s.tasks| && u < |s.tasks| && t != u
    requires Held(hash, |s.shards|, s.tasks[t], Engine) == Some(Exclusive)
          || Held(hash, |s.shards|, s.tasks[t], Barrier) == Some(Exclusive)
    ensures PendingOf(s.tasks[u], |s.shards|).None?
  {
    hide Visits, Visited;
    assert Compatible(Held(hash, |s.shards|, s.tasks[t], Engine), Held(hash, |s.shards|, s.tasks[u], Engine));
    assert Compatible(Held(hash, |s.shards|, s.tasks[t], Barrier), Held(hash, |s.shards|, s.tasks[u], Barrier));
  }

  /** A task under the exclusive global lock is the only one inside the store. */
  lemma GlobalAlone(hash: Hash, s: State, t: nat, u: nat)
    requires Shape(s) && Exclusion(hash, s) && t < |s.tasks| && u < |s.tasks| && t != u
    requires s.tasks[t].Exec? && !s.tasks[t].phase.WantGlobal? && s.tasks[t].job.Scan?
    ensures s.tasks[u].Exec? ==> s.tasks[u].phase.WantGlobal?
  {
    assert Compatible(Held(hash, |s.shards|, s.tasks[t], Global), Held(hash, |s.shards|, s.tasks[u], Global));
  }

  // ----------------------------------------------------------------- append

  lemma PartialNone(hash: Hash, count: nat, m: Store, c: Command)
    requires count > 0 && (IsKeyed(c) || c.FlushDb?)
    ensures Partial(hash, count, m, JobOf(c), 0) == m
  {
    if c.Del? {
      assert Elements(c.keys[..0]) == {};
    }
  }

  lemma AppendInv(hash: Hash, s: State, t: nat)
    requires Inv(hash, s) && t < |s.tasks| && MoveEnabled(hash, s, t, Append(true))
    ensures Inv(hash, ApplyMove(hash, s, t, Append(true)))
  {
    hide Represents, Routed, Agreement, InOrder, Sum, Partial, Logged, Collecting, Fold, Absolute, KeysOf, WellFormedPc, Uncounted;
    ShapeOf(s, t);
    AppendLocks(hash, s, t);
    var c := s.tasks[t].command;
    var to := Exec(Writer(s.now, [], 0), JobOf(c), WantGlobal);
    var n := AppendState(s, t, true);
    forall u | 0 <= u < |s.tasks| ensures PendingOf(s.tasks[u], |s.shards|).None? {
      if u != t {
        EngineAlone(hash, s, t, u);
      }
    }
    PartialNone(hash, |s.shards|, s.committed, c);
    AppendCounter(hash, s, t);
    assert PendingOf(n.tasks[t], |n.shards|) == Some(Pending(s.now, JobOf(c), 0)) by { PendingStart(c, s.now, |s.shards|); }
    CommandOfJob(c);
    ResultsSame(hash, s, n);
    forall u | 0 <= u < |n.tasks| ensures TaskResult(hash, n, n.tasks[u]) {
      assert TaskResult(hash, s, s.tasks[u]);
    }
    forall u | 0 <= u < |n.tasks| ensures TaskLog(hash, n, n.tasks[u]) {
      assert u != t ==> n.tasks[u] == s.tasks[u];
    }
  }

  lemma CommandOfJob(c: Command)
    requires CanLog(c)
    ensures CommandOf(JobOf(c)) == c
  {
  }

  lemma PendingStart(c: Command, now: Time, count: nat)
    requires CanLog(c) && count > 0
    ensures PendingOf(Exec(Writer(now, [], 0), JobOf(c), WantGlobal), count) == Some(Pending(now, JobOf(c), 0))
    ensures WellFormedPc(Exec(Writer(now, [], 0), JobOf(c), WantGlobal), count)
  {
  }

  lemma AppendLocks(hash: Hash, s: State, t: nat)
    requires Shape(s) && Exclusion(hash, s) && t < |s.tasks| && s.tasks[t].Appending?
    requires CanLog(s.tasks[t].command)
    ensures Shape(AppendState(s, t, true)) && Exclusion(hash, AppendState(s, t, true))
    ensures Held(hash, |s.shards|, s.tasks[t], Engine) == Some(Exclusive)
  {
    hide Exclusion, JobOf;
    var c := s.tasks[t].command;
    var to := Exec(Writer(s.now, [], 0), JobOf(c), WantGlobal);
    PendingStart(c, s.now, |s.shards|);
    NoMoreExcludes(hash, s, AppendState(s, t, true), t, to);
  }

  lemma AppendCounter(hash: Hash, s: State, t: nat)
    requires Shape(s) && Counter(hash, s) && t < |s.tasks| && s.tasks[t].Appending? && CanLog(s.tasks[t].command)
    requires Shape(AppendState(s, t, true))
    ensures Counter(hash, AppendState(s, t, true))
  {
    hide Sum, JobOf;
    var n := AppendState(s, t, true);
    forall u | 0 <= u < |n.tasks| ensures RemembersCount(hash, n, n.tasks[u]) {
      assert RemembersCount(hash, s, s.tasks[u]);
    }
    forall x | 0 <= x < |n.shards| && AllCounted(hash, n, x) ensures n.counted[x] == |n.shards[x]| {
      forall u | 0 <= u < |s.tasks| ensures !Uncounted(hash, |s.shards|, s.tasks[u], x) {
        assert !Uncounted(hash, |n.shards|, n.tasks[u], x);
      }
      assert AllCounted(hash, s, x);
    }
  }

  // ---------------------------------------------------------------- release

  lemma ReleaseInv(hash: Hash, s: State, t: nat)
    requires Inv(hash, s) && t < |s.tasks| && MoveEnabled(hash, s, t, Release)
    ensures Inv(hash, ApplyMove(hash, s, t, Release))
  {
    hide Represents, Routed, Agreement, InOrder, Sum, Partial, Logged, Fold, LogAndStore, Exclusion, Counter, Stored, Results, Shape;
    ShapeOf(s, t);
    var pc, n := s.tasks[t], ReleaseState(s, t);
    var to := n.tasks[t];
    assert HoldsNoMore(hash, |s.shards|, to, pc);
    NoMoreExcludes(hash, s, Moved(s, t, to), t, to);
    NoMoreExcludes(hash, s, n, t, to);
    if pc.job == Scan(Flush) {
      FlushReleaseInv(hash, s, t);
    } else {
      ExportEnds(hash, s, t);
      QuietInv(hash, s, t, to);
    }
  }

  lemma ExportEnds(hash: Hash, s: State, t: nat)
    requires Shape(s) && Results(hash, s) && t < |s.tasks| && s.tasks[t].Exec? && s.tasks[t].phase.Finished?
    ensures TaskResult(hash, s, ReleaseState(s, t).tasks[t])
  {
    hide Represents;
    assert TaskResult(hash, s, s.tasks[t]);
  }

  lemma FlushReleaseInv(hash: Hash, s: State, t: nat)
    requires Inv(hash, s) && t < |s.tasks| && MoveEnabled(hash, s, t, Release)
    requires s.tasks[t].job == Scan(Flush)
    requires Shape(ReleaseState(s, t)) && Exclusion(hash, ReleaseState(s, t))
    ensures Inv(hash, ReleaseState(s, t))
  {
    hide Represents, Routed, Agreement, InOrder, Sum, Partial, Logged, Fold, Collecting, WellFormedPc, Held;
    var n := ReleaseState(s, t);
    assert RemembersCount(hash, s, s.tasks[t]);
    SumZero(n.counted);
    ResultsSame(hash, s, n);
    forall u | 0 <= u < |n.tasks| ensures RemembersCount(hash, n, n.tasks[u]) {
      if u != t {
        GlobalAlone(hash, s, t, u);
      }
    }
    forall u | 0 <= u < |n.tasks| ensures TaskResult(hash, n, n.tasks[u]) && TaskLog(hash, n, n.tasks[u]) {
      assert TaskResult(hash, s, s.tasks[u]) && TaskLog(hash, s, s.tasks[u]);
    }
    if NonePending(n) {
      forall u | 0 <= u < |s.tasks| ensures PendingOf(s.tasks[u], |s.shards|).None? {
        assert PendingOf(n.tasks[u], |n.shards|).None?;
      }
    }
  }

  // ------------------------------------------------------------------- swap

  lemma SwapInv(hash: Hash, s: State, t: nat, ok: bool)
    requires Inv(hash, s) && t < |s.tasks| && MoveEnabled(hash, s, t, Swap(ok))
    ensures Inv(hash, ApplyMove(hash, s, t, Swap(ok)))
  {
    hide Represents, Routed, Agreement, AbsoluteLog, InOrder, Sum, Partial, Logged, Fold, LogAndStore, Exclusion, Counter, Stored, Results, Shape;
    ShapeOf(s, t);
    assert HoldsNoMore(hash, |s.shards|, Idle, s.tasks[t]);
    NoMoreExcludes(hash, s, Moved(s, t, Idle), t, Idle);
    QuietInv(hash, s, t, Idle);
    if ok {
      RewrittenLog(hash, s, t);
      SwappedInv(hash, s, t);
    }
  }

  /** While the rewrite worker swaps, no write is pending, and what it exported is the store. */
  lemma RewrittenLog(hash: Hash, s: State, t: nat)
    requires Inv(hash, s) && t < |s.tasks| && s.tasks[t].Swapping?
    ensures NonePending(s) && s.model == s.committed
    ensures var log := SnapshotLog(SnapshotOf(s.tasks[t].got, s.tasks[t].at));
            AbsoluteLog(log) && Agreement(log, s.committed, s.now, 0)
  {
    hide Represents, Routed, Agreement, AbsoluteLog, InOrder, Sum, Partial, Logged, Fold, Counter, Stored, Look, SnapshotLog, SnapshotOf;
    forall u | 0 <= u < |s.tasks| ensures PendingOf(s.tasks[u], |s.shards|).None? {
      if u != t {
        EngineAlone(hash, s, t, u);
      }
    }
    var Swapping(at, got) := s.tasks[t];
    assert TaskResult(hash, s, s.tasks[t]);
    SnapshotAgrees(got, at);
    AgreementOfSame(SnapshotLog(SnapshotOf(got, at)), got, s.model, at, 0);
    AgreementLater(SnapshotLog(SnapshotOf(got, at)), s.model, at, s.now, 0);
  }

  lemma SwappedInv(hash: Hash, s: State, t: nat)
    requires Inv(hash, s) && t < |s.tasks| && s.tasks[t].Swapping? && Inv(hash, Moved(s, t, Idle))
    requires NonePending(s) && s.model == s.committed
    requires var log := SnapshotLog(SnapshotOf(s.tasks[t].got, s.tasks[t].at));
             AbsoluteLog(log) && Agreement(log, s.committed, s.now, 0)
    ensures Inv(hash, SwapState(s, t, true))
  {
    hide Represents, Routed, Agreement, AbsoluteLog, Sum, Partial, Look, SnapshotLog, SnapshotOf, WellFormedPc, Held, Compatible, Uncounted, SameAt, Collecting;
    var m, n := Moved(s, t, Idle), SwapState(s, t, true);
    assert n.log + [] == n.log;
    forall u | 0 <= u < |n.tasks| ensures TaskResult(hash, n, n.tasks[u]) && TaskLog(hash, n, n.tasks[u]) {
      assert TaskResult(hash, m, m.tasks[u]);
      assert PendingOf(s.tasks[u], |s.shards|).None?;
      ResultsSame(hash, m, n);
    }
    forall u | 0 <= u < |n.tasks| ensures RemembersCount(hash, n, n.tasks[u]) {
      assert RemembersCount(hash, m, m.tasks[u]);
    }
    forall x | 0 <= x < |n.shards| && AllCounted(hash, n, x) ensures n.counted[x] == |n.shards[x]| {
      assert AllCounted(hash, m, x);
    }
  }

  /** What is said of a task's results depends on the stores and the time alone. */
  lemma ResultsSame(hash: Hash, m: State, n: State)
    requires |m.shards| > 0 && n.shards == m.shards && n.model == m.model && n.committed == m.committed
    requires n.now == m.now
    ensures forall pc :: TaskResult(hash, n, pc) == TaskResult(hash, m, pc)
  {
    forall pc ensures TaskResult(hash, n, pc) == TaskResult(hash, m, pc) {
      hide Look, Represents, RemovedBy, Visited;
    }
  }

  // ---------------------------------------------------------------- restart

  lemma {:induction false} LoggedAbsolute(history: seq<Applied>, from: Time, until: Time)
    requires InOrder(history, from, until)
    ensures AbsoluteLog(Logged(history))
  {
    if |history| == 0 {
    } else {
      var last := history[|history| - 1];
      LoggedAbsolute(history[..|history| - 1], from, last.logged);
    }
  }

  /** Every log the server leaves behind holds absolute records only. */
  lemma LogIsAbsolute(hash: Hash, s: State)
    requires Inv(hash, s)
    ensures AbsoluteLog(s.log)
  {
    hide Represents, Routed, Agreement, InOrder, Sum, Partial, Logged, Fold, Counter, Stored, Exclusion, Results, Look;
    LoggedAbsolute(s.history, s.baseAt, s.now);
    if !NonePending(s) {
      var t :| 0 <= t < |s.tasks| && PendingOf(s.tasks[t], |s.shards|).Some?;
      assert TaskLog(hash, s, s.tasks[t]);
    }
  }

  lemma RestartInv(hash: Hash, s: State, count: nat, clocks: seq<Time>, tasks: nat)
    requires Inv(hash, s) && Enabled(hash, s, Restart(count, clocks, tasks))
    ensures Inv(hash, RestartState(hash, s, count, clocks, tasks))
  {
    LogIsAbsolute(hash, s);
    hide Inv, Represents, Routed, Agreement, AbsoluteLog, Sum, Look, ReplayStore, Aof.ReplayShards;
    var n := RestartState(hash, s, count, clocks, tasks);
    var until := Latest(s.now, clocks);
    var clock := (i: nat) => if i < |clocks| then clocks[i] else 0;
    Aof.ReplayShardsRefine(hash, count, s.log, clock, clocks, s.now, until);
    ReplayAgrees(s.log, clocks, s.now, until);
    assert n.log == n.baseLog + Logged(n.history);
    FreshInv(hash, n);
  }

  lemma FreshInv(hash: Hash, n: State)
    requires |n.shards| > 0 && Routed(hash, n.shards) && Represents(hash, n.shards, n.model, n.now)
    requires n.keyCount == Total(n.shards) && n.counted == Lens(n.shards)
    requires n.committed == n.model == n.base == n.start && n.history == n.executed == [] && n.startAt == n.now && n.log == n.baseLog && n.baseAt == n.now
    requires Agreement(n.baseLog, n.base, n.baseAt, 0) && AbsoluteLog(n.baseLog)
    requires forall t :: 0 <= t < |n.tasks| ==> n.tasks[t].Idle?
    ensures Inv(hash, n)
  {
    hide Represents, Routed, Agreement, AbsoluteLog, Sum, Look;
    assert n.log == n.baseLog + Logged(n.history);
  }
}
