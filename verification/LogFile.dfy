/** The log of every reachable state as a file: it reads back whole, also in the middle of a rewrite. */
module LogFile {
  import opened Bytes
  import opened Clock
  import opened Commands
  import opened Reference
  import opened Shards
  import opened Snapshots
  import opened LogCodec
  import opened LogText
  import opened Replay
  import opened Aof
  import opened Protocol
  import opened Invariants
  import opened ShardMoves
  import opened Reachability
  import opened Guarantees

  ghost predicate ValidKeys(m: Store) {
    forall k :: k in m ==> ValidUtf8(k)
  }

  /** Every record of the log and every key of the store can be written and read back. */
  ghost predicate Recordable(s: State) {
    AbsoluteRecords(s.log) && ValidKeys(s.model)
  }

  /** A write command keeps the keys valid. */
  lemma NextValid(m: Store, c: Command, now: Time)
    requires ValidKeys(m) && Decodable(c)
    ensures ValidKeys(Next(m, c, now))
  {
    hide ValidUtf8, DurationUntil;
  }

  lemma {:induction false} ReplayValid(log: Log, clocks: seq<Time>)
    requires AbsoluteRecords(log) && |clocks| == |log|
    ensures ValidKeys(ReplayStore(log, clocks))
  {
    hide ValidUtf8, Next, IsAbsolute, Decodable, ValidKeys;
    if |log| == 0 {
      NoKeys();
    } else {
      var n := |log| - 1;
      ReplayValid(log[..n], clocks[..n]);
      NextValid(ReplayStore(log[..n], clocks[..n]), log[n], clocks[n]);
    }
  }

  lemma NoKeys()
    ensures ValidKeys(map[])
  {
  }

  lemma SnapshotRecords(got: Store, model: Store, at: Time)
    requires SameAt(got, model, at) && ValidKeys(model)
    ensures AbsoluteRecords(SnapshotLog(SnapshotOf(got, at)))
  {
    SnapshotAgrees(got, at);
    hide ValidUtf8, Agreement;
    var keys := SortedList(LiveKeys(got, at));
    var log := SnapshotLog(SnapshotOf(got, at));
    assert forall k :: k in keys <==> k in Elements(keys);
    forall i | 0 <= i < |log| ensures IsAbsolute(log[i]) && Decodable(log[i]) {
      assert keys[i] in keys && Look(got, keys[i], at) == Look(model, keys[i], at);
    }
  }

  lemma PartValid(c: Command, key: Key)
    requires IsKeyed(c) && IsWrite(c) && Decodable(c) && key in KeysOf(c)
    ensures Decodable(Part(c, key))
  {
    hide ValidUtf8;
  }

  lemma MutateRecordable(hash: Hash, s: State, t: nat)
    requires InVisit(s, t) && ValidKeys(s.model)
    ensures ValidKeys(MutateState(hash, s, t).model)
  {
    hide ValidUtf8, Next, Decodable, Part, KeysOf, VisitShard, Route;
    var pc := s.tasks[t];
    if !pc.owner.Writer? {
      UnloggedModel(hash, s, t);
    } else if pc.job.Keyed? {
      KeyedJob(pc, |s.shards|);
      PartValid(pc.job.command, pc.job.keys[pc.phase.i]);
      NextValid(s.model, Part(pc.job.command, pc.job.keys[pc.phase.i]), s.now);
    }
  }

  lemma AppendRecordable(s: State, t: nat, ok: bool)
    requires t < |s.tasks| && s.tasks[t].Appending? && CanLog(s.tasks[t].command) && AbsoluteRecords(s.log)
    ensures AbsoluteRecords(AppendState(s, t, ok).log)
  {
    AppendedRecord(s.tasks[t].command, s.now);
    hide Absolute, Decodable;
  }

  lemma MoveRecordable(hash: Hash, s: State, t: nat, move: Move)
    requires Inv(hash, s) && t < |s.tasks| && MoveEnabled(hash, s, t, move) && Recordable(s)
    ensures Recordable(ApplyMove(hash, s, t, move))
  {
    hide Exclusion, Stored, Counter, LogAndStore, ValidKeys, AbsoluteRecords, MutateState, SnapshotLog, SnapshotOf, Granted, AppendState;
    match move {
      case Append(ok) =>
        AppendRecordable(s, t, ok);
        AppendModel(s, t, ok);
      case Mutate =>
        MutateRecordable(hash, s, t);
        MutateLog(hash, s, t);
      case Swap(ok) =>
        assert TaskResult(hash, s, s.tasks[t]);
        SnapshotRecords(s.tasks[t].got, s.model, s.tasks[t].at);
      case _ =>
    }
  }

  lemma AppendModel(s: State, t: nat, ok: bool)
    requires t < |s.tasks| && s.tasks[t].Appending? && CanLog(s.tasks[t].command)
    ensures AppendState(s, t, ok).model == s.model
  {
  }

  lemma MutateLog(hash: Hash, s: State, t: nat)
    requires InVisit(s, t)
    ensures MutateState(hash, s, t).log == s.log
  {
  }

  /** Every action keeps log and store recordable. */
  lemma StepRecordable(hash: Hash, s: State, a: Action)
    requires Inv(hash, s) && CanAct(hash, s, a) && Recordable(s)
    ensures Recordable(Apply(hash, s, a))
  {
    hide Inv, ApplyMove, MoveEnabled, ValidKeys, AbsoluteRecords, ReplayStore;
    match a {
      case Tick(_) =>
      case Step(t, move) => MoveRecordable(hash, s, t, move);
      case Restart(count, clocks, tasks) => ReplayValid(s.log, clocks);
    }
  }

  lemma {:induction false} RunRecordable(hash: Hash, states: seq<State>, actions: seq<Action>)
    requires Run(hash, states, actions)
    ensures Recordable(states[|actions|])
    decreases |actions|
  {
    hide CanAct, Apply, Inv, Recordable;
    if |actions| == 0 {
      InitialRecordable(states[0]);
    } else {
      var last := |actions| - 1;
      assert states[..last + 1][0] == states[0];
      RunRecordable(hash, states[..last + 1], actions[..last]);
      assert states[..last + 1][last] == states[last];
      RunInv(hash, states, actions);
      StepRecordable(hash, states[last], actions[last]);
    }
  }

  lemma InitialRecordable(s: State)
    requires Initial(s)
    ensures Recordable(s)
  {
  }

  lemma ReachableRecordable(hash: Hash, s: State)
    requires Reachable(hash, s)
    ensures Recordable(s)
  {
    hide Recordable, Initial, CanAct, Apply;
    var states, actions :| Run(hash, states, actions) && s == states[|actions|];
    RunRecordable(hash, states, actions);
  }

  /** The file of the log in any reachable state reads back as the log, to its end. */
  lemma LogReadsBack(hash: Hash, s: State)
    requires Reachable(hash, s)
    ensures AbsoluteRecords(s.log)
    ensures |LogBytes(s.log)| <= ISIZE_MAX ==> DecodeLog(LogBytes(s.log)) == Decoded(s.log, true)
  {
    ReachableRecordable(hash, s);
    hide Reachable, AbsoluteRecords, LogBytes, DecodeLog;
    if |LogBytes(s.log)| <= ISIZE_MAX {
      DecodeWhole(s.log);
    }
  }

  /** A file that reads to its end as a log standing for the live store. */
  ghost predicate StandsForStore(s: State, bytes: Bytes) {
    var read := DecodeLog(bytes);
    read.complete && AbsoluteLog(read.commands) && Agreement(read.commands, Fold(s.base, s.history), s.now, Lag(s.history))
  }

  /** Whatever step of the file swap fails or the process dies at, a file that holds either complete
      log stands for the live store; the snapshot meets what `Rewrite` asks of it. */
  lemma SwapFilesStand(hash: Hash, s: State, t: nat, files: Files, f: File)
    requires Reachable(hash, s) && t < |s.tasks| && s.tasks[t].Swapping?
    ensures AbsoluteRecords(s.log)
    ensures var next := SnapshotLog(SnapshotOf(s.tasks[t].got, s.tasks[t].at));
            && AbsoluteRecords(next)
            && (|LogBytes(s.log)| <= ISIZE_MAX && |LogBytes(next)| <= ISIZE_MAX
                && Holds(files, f, LogBytes(s.log), LogBytes(next))
                ==> StandsForStore(s, files[f]))
  {
    LogReadsBack(hash, s);
    SwapRecordable(hash, s, t);
    BothLogsStand(hash, s, t);
    AgreementWider(SnapshotLog(SnapshotOf(s.tasks[t].got, s.tasks[t].at)), Fold(s.base, s.history), s.now, 0, Lag(s.history));
    hide Reachable, AbsoluteRecords, LogBytes, DecodeLog, Agreement, AbsoluteLog, SnapshotLog, SnapshotOf, Fold;
    var next := SnapshotLog(SnapshotOf(s.tasks[t].got, s.tasks[t].at));
    if |LogBytes(next)| <= ISIZE_MAX {
      DecodeWhole(next);
    }
  }

  lemma SwapRecordable(hash: Hash, s: State, t: nat)
    requires Reachable(hash, s) && t < |s.tasks| && s.tasks[t].Swapping?
    ensures AbsoluteRecords(SnapshotLog(SnapshotOf(s.tasks[t].got, s.tasks[t].at)))
  {
    ReachableRecordable(hash, s);
    ReachableInv(hash, s);
    hide Reachable, Exclusion, Stored, Counter, LogAndStore, SnapshotLog, SnapshotOf, AbsoluteRecords, ValidKeys, SameAt, Collecting;
    assert TaskResult(hash, s, s.tasks[t]);
    SnapshotRecords(s.tasks[t].got, s.model, s.tasks[t].at);
  }
}
