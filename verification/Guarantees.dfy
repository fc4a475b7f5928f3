/** What the protocol guarantees in every reachable state. */
module Guarantees {
  import opened Bytes
  import opened Clock
  import opened Commands
  import opened Reference
  import opened Shards
  import opened Snapshots
  import opened LogCodec
  import opened Replay
  import opened Recovery
  import Aof
  import opened Protocol
  import opened Invariants
  import opened LogMoves
  import opened ShardMoves
  import opened Reachability
  import opened Counting

  // ------------------------------------------------- log and store agree

  ghost predicate EngineFree(hash: Hash, s: State)
    requires Shape(s)
  {
    forall t :: 0 <= t < |s.tasks| ==> Held(hash, |s.shards|, s.tasks[t], Engine).None?
  }

  /** What has been executed since the last startup makes of its store what the commands since the last
      rewrite or restart make of theirs, each at the time it was applied. */
  ghost predicate OneHistory(s: State, now: Time) {
    && Fold(s.start, s.executed) == Fold(s.base, s.history)
    && InOrder(s.executed, s.startAt, now) && InOrder(s.history, s.baseAt, now)
    && Agreement(s.baseLog, s.base, s.baseAt, 0)
  }

  /** The shards are what has been executed since startup, and the log is what was logged since the
      last rewrite or restart after the log it left. */
  ghost predicate InStep(hash: Hash, s: State) {
    && OneHistory(s, s.now)
    && Routed(hash, s.shards) && Represents(hash, s.shards, Fold(s.start, s.executed), s.now)
    && s.log == s.baseLog + Logged(s.history)
  }

  /** The log ends in one more command, of which the shards show the first `done` visits. */
  ghost predicate OneCommandAhead(hash: Hash, s: State, logged: Time, job: Job, done: nat) {
    && OneHistory(s, logged) && logged <= s.now
    && Routed(hash, s.shards)
    && Represents(hash, s.shards, Partial(hash, |s.shards|, Fold(s.start, s.executed), job, done), s.now)
    && s.log == s.baseLog + Logged(s.history) + [Absolute(CommandOf(job), logged)]
  }

  lemma PendingHoldsEngine(hash: Hash, count: nat, pc: Pc)
    requires count > 0 && WellFormedPc(pc, count) && PendingOf(pc, count).Some?
    ensures Held(hash, count, pc, Engine) == Some(Exclusive)
    ensures pc.Exec? && CanLog(CommandOf(pc.job)) && pc.job == JobOf(CommandOf(pc.job))
  {
  }

  /** With the engine free, log and store agree. */
  lemma LogMatchesStore(hash: Hash, s: State)
    requires Reachable(hash, s)
    ensures Shape(s)
    ensures EngineFree(hash, s) ==> InStep(hash, s)
    ensures EngineFree(hash, s) ==> Agreement(s.log, Fold(s.base, s.history), s.now, Lag(s.history))
  {
    ReachableInv(hash, s);
    hide Reachable, Exclusion, Counter, Results, Represents, Routed, Held, WellFormedPc, PendingOf, Agreement, InOrder, Fold, Logged;
    if EngineFree(hash, s) {
      forall t | 0 <= t < |s.tasks| ensures PendingOf(s.tasks[t], |s.shards|).None? {
        if PendingOf(s.tasks[t], |s.shards|).Some? {
          PendingHoldsEngine(hash, |s.shards|, s.tasks[t]);
        }
      }
      AgreementWider(s.baseLog, s.base, s.baseAt, 0, Lag(s.history));
      HistoryAgrees(s.baseLog, s.base, s.history, s.baseAt, s.now, Lag(s.history));
    }
  }

  /** While a client holds the engine the log is at most its one command ahead, and no other task's. */
  lemma LogOneAhead(hash: Hash, s: State, t: nat)
    requires Reachable(hash, s) && t < |s.tasks|
    requires Shape(s) && Held(hash, |s.shards|, s.tasks[t], Engine).Some?
    ensures match PendingOf(s.tasks[t], |s.shards|)
            case None => InStep(hash, s)
            case Some(p) => OneCommandAhead(hash, s, p.logged, p.job, p.done)
    ensures forall u :: 0 <= u < |s.tasks| && u != t ==> PendingOf(s.tasks[u], |s.shards|).None?
  {
    ReachableInv(hash, s);
    HeldEngine(hash, |s.shards|, s.tasks[t]);
    hide Reachable, Exclusion, Counter, Results, Represents, Routed, Held, WellFormedPc, PendingOf, Agreement, InOrder, Fold, Logged, Partial, Absolute;
    forall u | 0 <= u < |s.tasks| && u != t ensures PendingOf(s.tasks[u], |s.shards|).None? {
      EngineAlone(hash, s, t, u);
    }
    assert TaskLog(hash, s, s.tasks[t]);
  }

  lemma HeldEngine(hash: Hash, count: nat, pc: Pc)
    requires count > 0 && WellFormedPc(pc, count) && Held(hash, count, pc, Engine).Some?
    ensures Held(hash, count, pc, Engine) == Some(Exclusive)
  {
  }

  /** Until the first restart, and across rewrites, the shards with the engine free are all logged commands
      run in order on the empty store. */
  lemma WholeHistory(hash: Hash, states: seq<State>, actions: seq<Action>)
    requires Run(hash, states, actions)
    requires forall i :: 0 <= i < |actions| ==> !actions[i].Restart?
    ensures var s := states[|actions|];
            Shape(s) && (EngineFree(hash, s) ==>
              Represents(hash, s.shards, Fold(map[], s.executed), s.now) && InOrder(s.executed, s.startAt, s.now))
  {
    hide InOrder, Fold, Represents, Agreement, Logged;
    var s := states[|actions|];
    StartIsEmpty(hash, states, actions);
    assert Reachable(hash, s);
    LogMatchesStore(hash, s);
  }

  /** Until the first rewrite or restart the log is exactly what they logged. */
  lemma WholeLog(hash: Hash, states: seq<State>, actions: seq<Action>)
    requires Run(hash, states, actions)
    requires forall i :: 0 <= i < |actions| ==> KeepsBase(actions[i])
    ensures var s := states[|actions|];
            Shape(s) && (EngineFree(hash, s) ==> s.log == Logged(s.executed))
  {
    hide InOrder, Fold, Represents, Agreement, Logged;
    var s := states[|actions|];
    BaseIsEmpty(hash, states, actions);
    assert Reachable(hash, s);
    LogMatchesStore(hash, s);
    assert [] + Logged(s.history) == Logged(s.history);
  }

  /** The task is in the middle of a DEL, and the store shows just that. */
  ghost predicate PartWay(s: State, pc: Pc) {
    match PendingOf(pc, |s.shards|)
    case None => false
    case Some(p) =>
      && p.job.Keyed? && p.job.command.Del? && p.done < |p.job.command.keys|
      && s.model == Fold(s.start, s.executed) - Elements(p.job.command.keys[..p.done])
  }

  /** A visit to a key's shard sees the key as the reference store has it, and that store is whole
      commands only, but for the keys a multi-key DEL has already removed. */
  lemma VisitSees(hash: Hash, s: State, t: nat)
    requires Reachable(hash, s) && InVisit(s, t) && s.tasks[t].job.Keyed?
    ensures var key := s.tasks[t].job.keys[s.tasks[t].phase.i];
            Look(s.shards[At(hash, s, t)], key, s.now) == Look(s.model, key, s.now)
    ensures s.model == Fold(s.start, s.executed) || exists u :: 0 <= u < |s.tasks| && PartWay(s, s.tasks[u])
  {
    ReachableInv(hash, s);
    hide Reachable, Exclusion, Counter, Results, Stored, LogAndStore, Look, Fold;
    var key := s.tasks[t].job.keys[s.tasks[t].phase.i];
    assert LookIn(hash, s.shards, key, s.now) == Look(s.model, key, s.now) by { InvStored(hash, s); }
    if s.model != Fold(s.start, s.executed) {
      var u := PendingFound(hash, s);
      if u != t {
        VisitorAlone(hash, s, t, u);
      }
      PendingShows(hash, |s.shards|, s.committed, s.tasks[u]);
    }
  }

  /** A store that is not the executed history shows a pending write. */
  lemma PendingFound(hash: Hash, s: State) returns (u: nat)
    requires Shape(s) && LogAndStore(hash, s) && s.model != Fold(s.start, s.executed)
    ensures u < |s.tasks| && PendingOf(s.tasks[u], |s.shards|).Some?
    ensures var p := PendingOf(s.tasks[u], |s.shards|).value;
            s.model == Partial(hash, |s.shards|, s.committed, p.job, p.done)
    ensures s.committed == Fold(s.start, s.executed)
  {
    hide Agreement, AbsoluteLog, InOrder, Fold, Logged, Absolute, Partial, PendingOf, WellFormedPc;
    u :| 0 <= u < |s.tasks| && PendingOf(s.tasks[u], |s.shards|).Some?;
    assert TaskLog(hash, s, s.tasks[u]);
  }

  /** A write that is not a FLUSHDB under way shows as nothing, or as a DEL of some of its keys. */
  lemma PendingShows(hash: Hash, count: nat, m: Store, pc: Pc)
    requires count > 0 && WellFormedPc(pc, count) && PendingOf(pc, count).Some?
    requires pc.job.Scan? ==> pc.phase.WantGlobal?
    ensures var p := PendingOf(pc, count).value;
            || Partial(hash, count, m, p.job, p.done) == m
            || (p.job.Keyed? && p.job.command.Del? && p.done < |p.job.command.keys|
                && Partial(hash, count, m, p.job, p.done) == m - Elements(p.job.command.keys[..p.done]))
  {
    hide Route;
  }

  // ------------------------------------------------------- crash recovery

  /** The store of a log: every logged command applied, a pending one too. */
  ghost predicate Durable(s: State, r: Store) {
    || (NonePending(s) && r == s.committed)
    || exists t :: 0 <= t < |s.tasks| && PendingOf(s.tasks[t], |s.shards|).Some?
                   && r == Next(s.committed, CommandOf(PendingOf(s.tasks[t], |s.shards|).value.job), s.now)
  }

  /** No command in the log since the last rewrite or restart has waited longer than `lag` to take effect. */
  ghost predicate LagWithin(s: State, lag: nat) {
    && Lag(s.history) <= lag
    && forall t :: 0 <= t < |s.tasks| && PendingOf(s.tasks[t], |s.shards|).Some?
         ==> s.now <= PendingOf(s.tasks[t], |s.shards|).value.logged + lag
  }

  /** Every state has such a lag. */
  lemma SomeLag(s: State)
    ensures LagWithin(s, Lag(s.history) + s.now)
  {
  }

  lemma DurableAgrees(hash: Hash, s: State, r: Store, lag: nat)
    requires Inv(hash, s) && Durable(s, r) && LagWithin(s, lag)
    ensures Agreement(s.log, r, s.now, lag)
  {
    hide Exclusion, Counter, Results, Stored, Agreement, InOrder, Fold, Logged, Partial, Absolute, PendingOf, Next;
    AgreementWider(s.baseLog, s.base, s.baseAt, 0, lag);
    if NonePending(s) && r == s.committed {
      HistoryAgrees(s.baseLog, s.base, s.history, s.baseAt, s.now, lag);
    } else {
      var t :| 0 <= t < |s.tasks| && PendingOf(s.tasks[t], |s.shards|).Some?
               && r == Next(s.committed, CommandOf(PendingOf(s.tasks[t], |s.shards|).value.job), s.now);
      assert TaskLog(hash, s, s.tasks[t]);
      PendingHoldsEngine(hash, |s.shards|, s.tasks[t]);
      PendingJob(s.tasks[t], |s.shards|);
      var p := PendingOf(s.tasks[t], |s.shards|).value;
      HistoryAgrees(s.baseLog, s.base, s.history, s.baseAt, p.logged, lag);
      AgreementLater(s.baseLog + Logged(s.history), s.committed, p.logged, s.now, lag);
      AgreementStep(s.baseLog + Logged(s.history), s.committed, CommandOf(p.job), p.logged, s.now, lag);
    }
  }

  lemma PendingJob(pc: Pc, count: nat)
    requires PendingOf(pc, count).Some?
    ensures pc.Exec? && PendingOf(pc, count).value.job == pc.job
  {
  }

  /** A live key comes back, with its value and nearly its deadline, if all its stamps are ahead, and also if
      its deadline was never raised and lies well ahead of the end of the replay. */
  ghost predicate Kept(log: Log, r: Store, replayed: Store, key: Key, until: Time, lag: nat)
    requires key in r
  {
    && key in Summarize(log)
    && (Ahead(Summarize(log)[key], until) || (NeverRaised(log, key) && WellAhead(r[key], until, lag))
        ==> Back(r, replayed, key, until, lag))
  }

  /** A crash in any reachable state and a restart over any number of shards: no key comes back that was not
      live, none with another value or another deadline than by the drift, and live keys are kept. */
  lemma CrashRecovery(hash: Hash, s: State, r: Store, lag: nat, count: nat, clocks: seq<Time>, tasks: nat)
    requires Reachable(hash, s) && Durable(s, r) && LagWithin(s, lag)
    requires CanAct(hash, s, Restart(count, clocks, tasks))
    ensures var n := Apply(hash, s, Restart(count, clocks, tasks));
            && Represents(hash, n.shards, n.model, n.now)
            && (forall k :: Recovered(r, n.model, k, s.now, s.now, n.now, lag))
            && (forall k :: Look(r, k, s.now).Some? ==> k in r && Kept(s.log, r, n.model, k, n.now, lag))
  {
    ReachableInv(hash, s);
    StepInv(hash, s, Restart(count, clocks, tasks));
    DurableAgrees(hash, s, r, lag);
    LogIsAbsolute(hash, s);
    hide Inv, Reachable, Durable, LagWithin, Agreement, Represents, Recovered, ReplayStore, Summarize, NeverRaised,
      Aof.ReplayShards, Look, Ahead, Back, WellAhead, AbsoluteLog;
    var n := Apply(hash, s, Restart(count, clocks, tasks));
    assert Represents(hash, n.shards, n.model, n.now) by { InvStored(hash, n); }
    LateReplaySound(s.log, r, s.now, clocks, s.now, n.now, lag);
    forall k | Look(r, k, s.now).Some? ensures k in r && Kept(s.log, r, n.model, k, n.now, lag) {
      LookIs(r, k, s.now);
      LateReplayComplete(s.log, r, s.now, clocks, s.now, n.now, k, lag);
    }
  }

  lemma InvStored(hash: Hash, s: State)
    requires Inv(hash, s)
    ensures |s.shards| > 0 && Routed(hash, s.shards) && Represents(hash, s.shards, s.model, s.now)
  {
  }

  // ------------------------------------------------------ whole commands only

  /** KEYS, INFO's purge, exports and a FLUSHDB as it begins see whole commands: no multi-key DEL, nor
      any other write, is half applied. */
  lemma SeesWholeCommands(hash: Hash, s: State, t: nat)
    requires Reachable(hash, s) && t < |s.tasks|
    requires s.tasks[t].Exec? && s.tasks[t].job.Scan? && !s.tasks[t].phase.WantGlobal?
    requires !Clearing(s.tasks[t], |s.shards|)
    ensures s.model == Fold(s.start, s.executed)
    ensures Routed(hash, s.shards) && Represents(hash, s.shards, Fold(s.start, s.executed), s.now)
  {
    ReachableInv(hash, s);
    hide Reachable, Exclusion, Counter, Results, Stored, LogAndStore, Represents, Routed, Fold;
    assert Routed(hash, s.shards) && Represents(hash, s.shards, s.model, s.now) by { InvStored(hash, s); }
    if s.model != Fold(s.start, s.executed) {
      var u := PendingFound(hash, s);
      if u != t {
        GlobalAlone(hash, s, t, u);
      }
      PendingHoldsEngine(hash, |s.shards|, s.tasks[u]);
      NotBegun(s.tasks[u], |s.shards|);
      PartialNone(hash, |s.shards|, s.committed, CommandOf(s.tasks[u].job));
    }
  }

  lemma NotBegun(pc: Pc, count: nat)
    requires PendingOf(pc, count).Some? && WellFormedPc(pc, count)
    requires pc.phase.WantGlobal? || (pc.job.Scan? && !Clearing(pc, count))
    ensures PendingOf(pc, count).value.job == pc.job && PendingOf(pc, count).value.done == 0
  {
  }

  // ---------------------------------------------------------------- rewrite

  /** While the rewrite worker swaps files, the old log and the snapshot's log both stand for the live store. */
  lemma BothLogsStand(hash: Hash, s: State, t: nat)
    requires Reachable(hash, s) && t < |s.tasks| && s.tasks[t].Swapping?
    ensures InStep(hash, s)
    ensures var store := Fold(s.base, s.history);
            var next := SnapshotLog(SnapshotOf(s.tasks[t].got, s.tasks[t].at));
            && AbsoluteLog(s.log) && Agreement(s.log, store, s.now, Lag(s.history))
            && AbsoluteLog(next) && Agreement(next, store, s.now, 0)
  {
    ReachableInv(hash, s);
    RewrittenLog(hash, s, t);
    LogIsAbsolute(hash, s);
    hide Inv, Reachable, NonePending, Agreement, Represents, Routed, AbsoluteLog, SnapshotLog, SnapshotOf;
    InvLog(hash, s);
  }

  lemma InvLog(hash: Hash, s: State)
    requires Inv(hash, s) && NonePending(s)
    ensures InStep(hash, s) && Agreement(s.log, Fold(s.base, s.history), s.now, Lag(s.history))
  {
    hide Exclusion, Counter, Results, Represents, Routed, Agreement, InOrder, Fold, Logged;
    AgreementWider(s.baseLog, s.base, s.baseAt, 0, Lag(s.history));
    HistoryAgrees(s.baseLog, s.base, s.history, s.baseAt, s.now, Lag(s.history));
  }

  /** What is about to be swapped in was exported of the store as it still is, and no write is pending. */
  lemma ExportIsStore(hash: Hash, s: State, t: nat)
    requires Inv(hash, s) && t < |s.tasks| && s.tasks[t].Swapping?
    ensures s.tasks[t].at <= s.now && SameAt(s.tasks[t].got, Fold(s.start, s.executed), s.tasks[t].at)
    ensures s.committed == Fold(s.start, s.executed)
  {
    RewrittenLog(hash, s, t);
    hide Exclusion, Counter, Stored, Agreement, AbsoluteLog, InOrder, Fold, Logged, SnapshotLog, SnapshotOf, SameAt, NonePending;
    assert TaskResult(hash, s, s.tasks[t]);
  }

  lemma SwapStep(hash: Hash, s: State, t: nat, ok: bool)
    requires Shape(s) && |s.counted| == |s.shards| && t < |s.tasks| && s.tasks[t].Swapping?
    ensures CanAct(hash, s, Step(t, Swap(ok))) && Apply(hash, s, Step(t, Swap(ok))) == SwapState(s, t, ok)
  {
    hide SwapState, Shape;
  }

  lemma SwapEffect(s: State, t: nat)
    requires t < |s.tasks| && s.tasks[t].Swapping?
    ensures SwapState(s, t, false) == s.(tasks := s.tasks[t := Idle])
    ensures var log := SnapshotLog(SnapshotOf(s.tasks[t].got, s.tasks[t].at));
            SwapState(s, t, true) == s.(tasks := s.tasks[t := Idle], log := log, baseLog := log, base := s.committed,
                                        baseAt := s.now, history := [])
  {
    hide SnapshotLog, SnapshotOf;
  }

  /** The swap puts one restoring command for each key live at the export in place of the whole log, and starts
      its history anew; a failed swap leaves everything but the task as it was. */
  lemma SwapRewrites(hash: Hash, s: State, t: nat)
    requires Reachable(hash, s) && t < |s.tasks| && s.tasks[t].Swapping?
    ensures CanAct(hash, s, Step(t, Swap(true))) && CanAct(hash, s, Step(t, Swap(false)))
    ensures var n := Apply(hash, s, Step(t, Swap(true)));
            && OneEach(n.log, Fold(s.start, s.executed), s.tasks[t].at)
            && n.history == [] && s.tasks[t].at <= n.baseAt == s.now
            && n == s.(tasks := s.tasks[t := Idle], log := n.log, baseLog := n.log, base := Fold(s.start, s.executed),
                       baseAt := n.baseAt, history := [])
    ensures Apply(hash, s, Step(t, Swap(false))) == s.(tasks := s.tasks[t := Idle])
  {
    ReachableInv(hash, s);
    ExportIsStore(hash, s, t);
    assert Shape(s) && |s.counted| == |s.shards|;
    SwapStep(hash, s, t, true);
    SwapStep(hash, s, t, false);
    SwapEffect(s, t);
    hide Inv, Shape, Reachable, Fold, SnapshotLog, SnapshotOf, OneEach, SameAt, Apply, CanAct, SwapState;
    var Swapping(at, got) := s.tasks[t];
    SnapshotLogExactly(got, at);
    OneEachSame(SnapshotLog(SnapshotOf(got, at)), got, Fold(s.start, s.executed), at);
  }
}
