/** Moves inside a shard: a visit changes the shard, then the counter follows. */
module ShardMoves {
  import opened Bytes
  import opened Clock
  import opened Commands
  import opened Reference
  import opened Databases
  import opened Shards
  import opened LogCodec
  import opened Replay
  import opened Protocol
  import opened Invariants
  import opened QuietMoves
  import opened LogMoves

  ghost predicate InVisit(s: State, t: nat) {
    Shape(s) && t < |s.tasks| && s.tasks[t].Exec? && s.tasks[t].phase.InShard?
  }

  ghost predicate AfterChange(s: State, t: nat) {
    Shape(s) && t < |s.tasks| && s.tasks[t].Exec? && s.tasks[t].phase.Mutated?
  }

  /** The shard a task inside a visit is at. */
  ghost function At(hash: Hash, s: State, t: nat): (x: nat)
    requires InVisit(s, t) || AfterChange(s, t)
    ensures x < |s.shards|
  {
    ShardOf(hash, s.tasks[t].job, s.tasks[t].phase.i, |s.shards|)
  }

  lemma KeyedJob(pc: Pc, count: nat)
    requires WellFormedPc(pc, count) && pc.Exec? && pc.job.Keyed?
    ensures IsKeyed(pc.job.command) && pc.job.keys == KeysOf(pc.job.command)
    ensures pc.owner.Plain? ==> !IsWrite(pc.job.command)
    ensures pc.owner.Writer? ==> IsWrite(pc.job.command)
    ensures !pc.owner.Rewriter?
  {
  }

  // ------------------------------------------------------------------ locks

  lemma MutateLocks(hash: Hash, s: State, t: nat)
    requires InVisit(s, t) && Exclusion(hash, s)
    ensures Shape(MutateState(hash, s, t)) && Exclusion(hash, MutateState(hash, s, t))
  {
    hide Exclusion, VisitModel, VisitShard, KeysOf;
    var n := MutateState(hash, s, t);
    NoMoreExcludes(hash, s, n, t, n.tasks[t]);
  }

  lemma CountLocks(hash: Hash, s: State, t: nat)
    requires AfterChange(s, t) && Exclusion(hash, s) && |s.counted| == |s.shards|
    ensures Shape(CountState(hash, s, t)) && Exclusion(hash, CountState(hash, s, t))
  {
    hide Exclusion, KeysOf, Recount;
    var n := CountState(hash, s, t);
    NoMoreExcludes(hash, s, n, t, n.tasks[t]);
  }

  /** Nobody else is at the shard a task has locked, and no FLUSHDB or export is under way beside it. */
  lemma VisitorAlone(hash: Hash, s: State, t: nat, u: nat)
    requires InVisit(s, t) || AfterChange(s, t)
    requires Exclusion(hash, s) && u < |s.tasks| && u != t
    ensures s.tasks[u].Exec? && (s.tasks[u].phase.InShard? || s.tasks[u].phase.Mutated?)
            ==> ShardOf(hash, s.tasks[u].job, s.tasks[u].phase.i, |s.shards|) != At(hash, s, t)
    ensures s.tasks[u].Exec? && s.tasks[u].job.Scan? ==> s.tasks[u].phase.WantGlobal?
  {
    hide ShardOf;
    var x := At(hash, s, t);
    assert Compatible(Held(hash, |s.shards|, s.tasks[t], Shard(x)), Held(hash, |s.shards|, s.tasks[u], Shard(x)));
    assert Compatible(Held(hash, |s.shards|, s.tasks[t], Global), Held(hash, |s.shards|, s.tasks[u], Global));
  }

  // ---------------------------------------------------------------- storage

  /** Deleting expired entries from one shard cannot be seen. */
  lemma PurgeOneRefines(hash: Hash, sh: ShardMaps, r: Store, x: nat, at: Time, now: Time)
    requires Routed(hash, sh) && Represents(hash, sh, r, now) && x < |sh| && at <= now
    ensures Routed(hash, sh[x := Purge(sh[x], at)]) && Represents(hash, sh[x := Purge(sh[x], at)], r, now)
  {
    forall k ensures LookIn(hash, sh[x := Purge(sh[x], at)], k, now) == Look(r, k, now) {
      assert LookIn(hash, sh, k, now) == Look(r, k, now);
    }
  }

  lemma ClearOneRefines(hash: Hash, sh: ShardMaps, r: Store, x: nat, now: Time)
    requires Routed(hash, sh) && Represents(hash, sh, r, now) && x < |sh|
    ensures Routed(hash, sh[x := map[]]) && Represents(hash, sh[x := map[]], WithoutShard(hash, r, x, |sh|), now)
  {
    forall k ensures LookIn(hash, sh[x := map[]], k, now) == Look(WithoutShard(hash, r, x, |sh|), k, now) {
      assert LookIn(hash, sh, k, now) == Look(r, k, now);
    }
  }

  /** A change inside a shard is the visit's change of the reference store. */
  lemma MutateStored(hash: Hash, s: State, t: nat)
    requires InVisit(s, t) && Stored(hash, s) && TaskResult(hash, s, s.tasks[t])
    ensures Stored(hash, MutateState(hash, s, t))
  {
    hide Represents, Routed, ShardNext, Next, Part, Route, Purge;
    var pc, x := s.tasks[t], At(hash, s, t);
    if pc.job.Keyed? {
      KeyedJob(pc, |s.shards|);
      VisitRefines(hash, s.shards, s.model, pc.job.command, pc.job.keys[pc.phase.i], s.now);
    } else {
      match pc.job.kind
      case ListKeys(_, _, _) => assert s.shards[x := s.shards[x]] == s.shards;
      case PurgeShards => PurgeOneRefines(hash, s.shards, s.model, x, s.now, s.now);
      case Flush => ClearOneRefines(hash, s.shards, s.model, x, s.now);
      case Export(at, _) => PurgeOneRefines(hash, s.shards, s.model, x, at, s.now);
    }
  }

  // ---------------------------------------------------------------- counter

  lemma VisitedShardCounted(hash: Hash, s: State, t: nat)
    requires InVisit(s, t) && Exclusion(hash, s)
    ensures AllCounted(hash, s, At(hash, s, t))
  {
    hide Exclusion;
    forall u | 0 <= u < |s.tasks| ensures !Uncounted(hash, |s.shards|, s.tasks[u], At(hash, s, t)) {
      if u != t {
        VisitorAlone(hash, s, t, u);
      }
    }
  }

  lemma MutateCounter(hash: Hash, s: State, t: nat)
    requires InVisit(s, t) && Exclusion(hash, s) && Counter(hash, s)
    requires Shape(MutateState(hash, s, t))
    ensures Counter(hash, MutateState(hash, s, t))
  {
    hide Exclusion, Sum, VisitModel, WellFormedPc, Held;
    var n, x, pc := MutateState(hash, s, t), At(hash, s, t), s.tasks[t];
    VisitedShardCounted(hash, s, t);
    MutatedShard(hash, s, t);
    forall u | 0 <= u < |n.tasks| ensures RemembersCount(hash, n, n.tasks[u]) {
      assert RemembersCount(hash, s, s.tasks[u]);
      if u != t {
        VisitorAlone(hash, s, t, u);
      }
    }
    forall y | 0 <= y < |n.shards| && AllCounted(hash, n, y) ensures n.counted[y] == |n.shards[y]| {
      assert !Uncounted(hash, |n.shards|, n.tasks[t], y);
      forall u | 0 <= u < |s.tasks| ensures !Uncounted(hash, |s.shards|, s.tasks[u], y) {
        assert !Uncounted(hash, |n.shards|, n.tasks[u], y);
      }
      assert AllCounted(hash, s, y);
    }
  }

  /** A change leaves its task remembering the old length of the one shard it has changed. */
  lemma MutatedShard(hash: Hash, s: State, t: nat)
    requires InVisit(s, t)
    ensures var n, x := MutateState(hash, s, t), At(hash, s, t);
            && |n.shards| == |s.shards| && n.counted == s.counted && n.keyCount == s.keyCount
            && (forall y :: 0 <= y < |s.shards| && y != x ==> n.shards[y] == s.shards[y])
    ensures var from, to := s.tasks[t], MutateState(hash, s, t).tasks[t];
            && to.Exec? && to.owner == VisitOwner(from.owner, from.job, from.phase.i, s.shards[At(hash, s, t)], s.now)
            && to.phase == Mutated(from.phase.i, |s.shards[At(hash, s, t)]|)
            && to.job == VisitJob(from.job, s.shards[At(hash, s, t)])
            && ShardOf(hash, to.job, to.phase.i, |s.shards|) == At(hash, s, t)
    ensures s.tasks[t].job == Scan(Flush) ==> MutateState(hash, s, t).shards[At(hash, s, t)] == map[]
    ensures s.tasks[t].job == Scan(Flush) ==> At(hash, s, t) == s.tasks[t].phase.i
  {
  }

  // -------------------------------------------------------------------- log

  /** One more visit of a write that is not over. */
  lemma PartialStep(hash: Hash, count: nat, m: Store, job: Job, i: nat, now: Time)
    requires count > 0 && i + 1 < Visits(job, count)
    requires CanLog(CommandOf(job)) && job == JobOf(CommandOf(job))
    ensures VisitModel(hash, Partial(hash, count, m, job, i), job, i, count, now) == Partial(hash, count, m, job, i + 1)
  {
    hide Route;
    if job.Keyed? {
      var keys := job.keys;
      assert keys[..i + 1] == keys[..i] + [keys[i]];
      assert Elements(keys[..i + 1]) == Elements(keys[..i]) + Elements([keys[i]]);
    }
  }

  /** The last visit completes the command: what the visits did one by one is one step of the reference store. */
  lemma PartialFinish(hash: Hash, count: nat, m: Store, job: Job, i: nat, now: Time)
    requires count > 0 && i + 1 == Visits(job, count)
    requires CanLog(CommandOf(job)) && job == JobOf(CommandOf(job))
    ensures VisitModel(hash, Partial(hash, count, m, job, i), job, i, count, now) == Next(m, CommandOf(job), now)
  {
    if job.Keyed? && job.command.Del? {
      hide Route;
      var keys := job.keys;
      assert keys == keys[..i] + [keys[i]];
      assert Elements(keys) == Elements(keys[..i]) + Elements([keys[i]]);
    } else if job.Keyed? {
      hide Route;
    } else {
      assert forall k :: Route(hash, k, count) < count;
    }
  }

  lemma WriterPending(pc: Pc, count: nat)
    requires WellFormedPc(pc, count) && pc.Exec? && pc.phase.InShard?
    ensures pc.owner.Writer? ==> PendingOf(pc, count) == Some(Pending(pc.owner.logged, pc.job, pc.phase.i))
    ensures pc.owner.Writer? ==> CanLog(CommandOf(pc.job)) && pc.job == JobOf(CommandOf(pc.job))
    ensures !pc.owner.Writer? ==> PendingOf(pc, count).None?
    ensures pc.phase.i < Visits(pc.job, count)
  {
  }

  lemma WriterAlone(hash: Hash, s: State, t: nat)
    requires Shape(s) && Exclusion(hash, s) && t < |s.tasks| && s.tasks[t].Exec? && s.tasks[t].owner.Writer?
    ensures forall u :: 0 <= u < |s.tasks| && u != t ==> PendingOf(s.tasks[u], |s.shards|).None?
  {
    hide Exclusion, PendingOf;
    forall u | 0 <= u < |s.tasks| && u != t ensures PendingOf(s.tasks[u], |s.shards|).None? {
      EngineAlone(hash, s, t, u);
    }
  }

  /** A visit that is no logged write leaves the reference store alone. */
  lemma UnloggedModel(hash: Hash, s: State, t: nat)
    requires InVisit(s, t) && !s.tasks[t].owner.Writer?
    ensures MutateState(hash, s, t).model == s.model
  {
    hide VisitShard, KeysOf, Route;
    if s.tasks[t].job.Keyed? {
      KeyedJob(s.tasks[t], |s.shards|);
    }
  }

  lemma MutateUnlogged(hash: Hash, s: State, t: nat)
    requires InVisit(s, t) && LogAndStore(hash, s) && !s.tasks[t].owner.Writer?
    ensures LogAndStore(hash, MutateState(hash, s, t))
  {
    hide VisitModel, VisitShard, Partial, Agreement, InOrder, Fold, Logged, WellFormedPc, ShardOf;
    var n := MutateState(hash, s, t);
    UnloggedModel(hash, s, t);
    forall u | 0 <= u < |n.tasks| ensures PendingOf(n.tasks[u], |n.shards|) == PendingOf(s.tasks[u], |s.shards|) {
    }
    forall u | 0 <= u < |n.tasks| ensures TaskLog(hash, n, n.tasks[u]) {
      assert TaskLog(hash, s, s.tasks[u]);
    }
    if NonePending(n) {
      forall u | 0 <= u < |s.tasks| ensures PendingOf(s.tasks[u], |s.shards|).None? {
        assert PendingOf(n.tasks[u], |n.shards|).None?;
      }
    }
  }

  lemma HistoryGrows(history: seq<Applied>, next: Applied, base: Store, from: Time)
    requires InOrder(history, from, next.logged) && IsWrite(next.command) && next.logged <= next.at
    ensures InOrder(history + [next], from, next.at)
    ensures Fold(base, history + [next]) == Next(Fold(base, history), next.command, next.at)
    ensures Logged(history + [next]) == Logged(history) + [Absolute(next.command, next.logged)]
  {
    assert (history + [next])[..|history|] == history;
  }

  /** What a visit makes of a logged write. */
  lemma LoggedVisit(hash: Hash, s: State, t: nat)
    requires InVisit(s, t) && s.tasks[t].owner.Writer?
    ensures var n, pc, count := MutateState(hash, s, t), s.tasks[t], |s.shards|;
            var last := pc.phase.i + 1 == Visits(pc.job, count);
            && n.model == VisitModel(hash, s.model, pc.job, pc.phase.i, count, s.now)
            && n.committed == (if last then n.model else s.committed)
            && n.history == (if last then s.history + [Applied(CommandOf(pc.job), pc.owner.logged, s.now)] else s.history)
            && n.executed == (if last then s.executed + [Applied(CommandOf(pc.job), pc.owner.logged, s.now)] else s.executed)
            && PendingOf(n.tasks[t], count)
            == if last then None else Some(Pending(pc.owner.logged, pc.job, pc.phase.i + 1))
  {
    hide VisitModel, VisitShard, ShardOf;
    WriterPending(s.tasks[t], |s.shards|);
  }

  /** A visit of a logged write: the log stays one command ahead until the last visit, which completes the command. */
  lemma MutateLogged(hash: Hash, s: State, t: nat)
    requires InVisit(s, t) && Exclusion(hash, s) && LogAndStore(hash, s) && s.tasks[t].owner.Writer?
    ensures LogAndStore(hash, MutateState(hash, s, t))
  {
    hide Exclusion, VisitModel, VisitShard, Partial, Agreement, AbsoluteLog, WellFormedPc, ShardOf, Next, Absolute,
      JobOf, PendingOf, Visits, InOrder, Fold, Logged;
    var n, pc, count := MutateState(hash, s, t), s.tasks[t], |s.shards|;
    var i := pc.phase.i;
    WriterPending(pc, count);
    WriterAlone(hash, s, t);
    LoggedVisit(hash, s, t);
    assert TaskLog(hash, s, pc);
    if i + 1 < Visits(pc.job, count) {
      PartialStep(hash, count, s.committed, pc.job, i, s.now);
    } else {
      PartialFinish(hash, count, s.committed, pc.job, i, s.now);
      HistoryGrows(s.history, Applied(CommandOf(pc.job), pc.owner.logged, s.now), s.base, s.baseAt);
      HistoryGrows(s.executed, Applied(CommandOf(pc.job), pc.owner.logged, s.now), s.start, s.startAt);
    }
  }

  // ---------------------------------------------------------------- results

  /** An export that visits its next shard has collected that shard too. */
  lemma CollectingStep(hash: Hash, s: State, at: Time, got: Store, i: nat)
    requires |s.shards| > i && Routed(hash, s.shards) && Collecting(hash, s, at, got, i)
    ensures var n := s.(shards := s.shards[i := Purge(s.shards[i], at)]);
            Collecting(hash, n, at, got + Purge(s.shards[i], at), i + 1)
  {
    var more := Purge(s.shards[i], at);
    PurgeOneRefines(hash, s.shards, s.model, i, at, at);
    hide Route;
    forall k ensures Look(got + more, k, at)
                  == if Route(hash, k, |s.shards|) < i + 1 then Look(s.model, k, at) else None {
      assert Look(got, k, at) == if Route(hash, k, |s.shards|) < i then Look(s.model, k, at) else None;
      assert LookIn(hash, s.shards, k, at) == Look(s.model, k, at);
      assert k in more ==> Route(hash, k, |s.shards|) == i;
    }
  }

  /** A KEYS that has looked at every entry of its next shard has looked at every live key there. */
  lemma ListingStep(hash: Hash, s: State, since: Time, read: map<Key, Time>, listed: set<Key>, i: nat)
    requires |s.shards| > i && Stored(hash, s) && Listing(hash, s, since, read, listed, i)
    requires forall k :: k in s.shards[i] ==> k in read
    ensures Listing(hash, s, since, read, listed, i + 1)
  {
    hide Route;
    forall k | Route(hash, k, |s.shards|) < i + 1 && Look(s.model, k, s.now).Some? ensures k in read {
      assert LookIn(hash, s.shards, k, s.now) == Look(s.model, k, s.now);
    }
  }

  /** A KEYS that looks at an entry sees the key as the reference store has it. */
  lemma PeekListing(hash: Hash, s: State, since: Time, read: map<Key, Time>, listed: set<Key>, i: nat, key: Key)
    requires |s.shards| > i && Stored(hash, s) && Listing(hash, s, since, read, listed, i)
    requires key in s.shards[i] && key !in read
    ensures var one := if Look(s.shards[i], key, s.now).Some? then {key} else {};
            Listing(hash, s, since, read[key := s.now], listed + one, i)
  {
    hide Route, Look;
    assert LookIn(hash, s.shards, key, s.now) == Look(s.model, key, s.now);
  }

  lemma PeekInv(hash: Hash, s: State, t: nat, key: Key)
    requires Inv(hash, s) && t < |s.tasks| && MoveEnabled(hash, s, t, Peek(key))
    ensures Inv(hash, ApplyMove(hash, s, t, Peek(key)))
  {
    hide Exclusion, Stored, Counter, LogAndStore, Listing, Look, Shape;
    ShapeOf(s, t);
    var pc, to := s.tasks[t], PeekState(s, t, key).tasks[t];
    assert HoldsNoMore(hash, |s.shards|, to, pc);
    NoMoreExcludes(hash, s, Moved(s, t, to), t, to);
    assert TaskResult(hash, s, pc);
    var ListKeys(since, read, listed) := pc.job.kind;
    PeekListing(hash, s, since, read, listed, pc.phase.i, key);
    QuietInv(hash, s, t, to);
  }

  lemma RemovedStep(m: Store, keys: seq<Key>, times: seq<Time>, now: Time)
    requires |times| < |keys|
    ensures var i := |times|;
            RemovedBy(m, keys[..i + 1], times + [now])
            == RemovedBy(m, keys[..i], times)
               + if keys[i] !in keys[..i] && Look(m, keys[i], now).Some? then 1 else 0
  {
    hide Look;
    var i := |times|;
    assert keys[..i + 1][..i] == keys[..i] && (times + [now])[..i] == times;
  }

  /** A DEL that visits its next key counts it if it was live in the store the DEL found and not counted before. */
  lemma RemovingStep(hash: Hash, s: State, t: nat)
    requires InVisit(s, t) && Stored(hash, s) && TaskLog(hash, s, s.tasks[t]) && TaskRemoving(s, s.tasks[t])
    requires s.tasks[t].owner.Writer? && s.tasks[t].job.Keyed? && s.tasks[t].job.command.Del?
    ensures var pc := s.tasks[t];
            Removing(s, VisitOwner(pc.owner, pc.job, pc.phase.i, s.shards[At(hash, s, t)], s.now), pc.job.keys, pc.phase.i + 1)
  {
    hide Represents, Routed, Absolute, InOrder, Logged, JobOf;
    var pc := s.tasks[t];
    var keys, i := pc.job.keys, pc.phase.i;
    WriterPending(pc, |s.shards|);
    assert s.model == s.committed - Elements(keys[..i]);
    assert LookIn(hash, s.shards, keys[i], s.now) == Look(s.model, keys[i], s.now) by {
      RepresentsAt(hash, s.shards, s.model, keys[i], s.now);
    }
    RemovedStep(s.committed, keys, pc.owner.times, s.now);
  }

  lemma RepresentsAt(hash: Hash, sh: ShardMaps, r: Store, key: Key, now: Time)
    requires |sh| > 0 && Represents(hash, sh, r, now)
    ensures LookIn(hash, sh, key, now) == Look(r, key, now)
  {
  }

  /** What the visiting task has read or counted after its visit. */
  lemma OwnResult(hash: Hash, s: State, t: nat)
    requires InVisit(s, t) && Stored(hash, s) && LogAndStore(hash, s) && TaskResult(hash, s, s.tasks[t])
    requires AllRead(s.tasks[t].job, s.shards[At(hash, s, t)])
    ensures TaskResult(hash, MutateState(hash, s, t), MutateState(hash, s, t).tasks[t])
  {
    hide Represents, Routed, WellFormedPc, Look, Collecting, Listing, Removing, VisitModel, ShardOf, LogAndStore;
    var n, pc := MutateState(hash, s, t), s.tasks[t];
    MutatedShard(hash, s, t);
    ScanAt(hash, s, t);
    if pc.job.Scan? && pc.job.kind.Export? {
      var Export(at, got) := pc.job.kind;
      CollectingStep(hash, s, at, got, pc.phase.i);
      UnloggedExport(hash, s, t);
      CollectingSame(hash, s.(shards := s.shards[pc.phase.i := Purge(s.shards[pc.phase.i], at)]), n);
    } else if pc.job.Scan? && pc.job.kind.ListKeys? {
      var ListKeys(since, read, listed) := pc.job.kind;
      ListingStep(hash, s, since, read, listed, pc.phase.i);
      UnloggedListing(hash, s, t);
      ListingSame(hash, s, n);
    } else if pc.owner.Writer? && pc.job.Keyed? && pc.job.command.Del? && pc.phase.i + 1 < |pc.job.keys| {
      assert TaskLog(hash, s, pc) by { LogOf(hash, s, t); }
      RemovingStep(hash, s, t);
      StillRemoving(hash, s, t);
    }
  }

  lemma ScanAt(hash: Hash, s: State, t: nat)
    requires InVisit(s, t)
    ensures s.tasks[t].job.Scan? ==> At(hash, s, t) == s.tasks[t].phase.i < |s.shards|
  {
  }

  lemma LogOf(hash: Hash, s: State, t: nat)
    requires |s.shards| > 0 && LogAndStore(hash, s) && t < |s.tasks|
    ensures TaskLog(hash, s, s.tasks[t])
  {
  }

  lemma CollectingSame(hash: Hash, m: State, n: State)
    requires |m.shards| > 0 && n.shards == m.shards && n.model == m.model && n.now == m.now
    ensures forall at, got, done :: Collecting(hash, n, at, got, done) == Collecting(hash, m, at, got, done)
  {
  }

  lemma ListingSame(hash: Hash, m: State, n: State)
    requires |m.shards| == |n.shards| > 0 && n.model == m.model && n.now == m.now
    ensures forall since, read, listed, done ::
              Listing(hash, n, since, read, listed, done) == Listing(hash, m, since, read, listed, done)
  {
    hide Look;
  }

  lemma StillRemoving(hash: Hash, s: State, t: nat)
    requires InVisit(s, t) && s.tasks[t].phase.i + 1 < Visits(s.tasks[t].job, |s.shards|)
    ensures forall owner, keys, done :: Removing(MutateState(hash, s, t), owner, keys, done) == Removing(s, owner, keys, done)
  {
    hide RemovedBy;
  }

  lemma UnloggedListing(hash: Hash, s: State, t: nat)
    requires InVisit(s, t) && s.tasks[t].job.Scan? && s.tasks[t].job.kind.ListKeys?
    ensures MutateState(hash, s, t).model == s.model && |MutateState(hash, s, t).shards| == |s.shards|
    ensures MutateState(hash, s, t).now == s.now && At(hash, s, t) == s.tasks[t].phase.i
  {
  }

  lemma UnloggedExport(hash: Hash, s: State, t: nat)
    requires InVisit(s, t) && s.tasks[t].job.Scan? && s.tasks[t].job.kind.Export?
    ensures MutateState(hash, s, t).model == s.model
    ensures MutateState(hash, s, t).shards
         == s.shards[s.tasks[t].phase.i := Purge(s.shards[s.tasks[t].phase.i], s.tasks[t].job.kind.at)]
  {
  }

  /** While the rewrite worker holds the barrier, whoever is inside a shard is not a logged write. */
  lemma RewriterAlone(hash: Hash, s: State, t: nat, u: nat)
    requires InVisit(s, t) && Exclusion(hash, s) && u < |s.tasks| && u != t
    requires s.tasks[u].WantSwap? || s.tasks[u].Swapping?
    ensures !s.tasks[t].owner.Writer?
  {
    assert Compatible(Held(hash, |s.shards|, s.tasks[t], Barrier), Held(hash, |s.shards|, s.tasks[u], Barrier));
  }

  lemma NotRemoving(s: State, pc: Pc, count: nat)
    requires PendingOf(pc, count).None?
    ensures TaskRemoving(s, pc)
  {
  }

  lemma UnloggedCommitted(hash: Hash, s: State, t: nat)
    requires InVisit(s, t) && !s.tasks[t].owner.Writer?
    ensures MutateState(hash, s, t).committed == s.committed
  {
  }

  /** A visit leaves what other tasks have read or counted. */
  lemma OtherResult(hash: Hash, s: State, t: nat, u: nat)
    requires InVisit(s, t) && Exclusion(hash, s) && u < |s.tasks| && u != t && TaskResult(hash, s, s.tasks[u])
    ensures TaskResult(hash, MutateState(hash, s, t), s.tasks[u])
  {
    hide Exclusion, VisitModel, Represents, Routed, WellFormedPc, Look, Collecting, Listing, SameAt, PendingOf, RemovedBy, Visited;
    MutatedShard(hash, s, t);
    VisitorAlone(hash, s, t, u);
    if s.tasks[u].WantSwap? || s.tasks[u].Swapping? {
      RewriterAlone(hash, s, t, u);
      UnloggedModel(hash, s, t);
    }
    if s.tasks[t].owner.Writer? {
      WriterAlone(hash, s, t);
      NotRemoving(MutateState(hash, s, t), s.tasks[u], |s.shards|);
    } else {
      UnloggedCommitted(hash, s, t);
    }
  }

  lemma MutateResults(hash: Hash, s: State, t: nat)
    requires InVisit(s, t) && Exclusion(hash, s) && Stored(hash, s) && LogAndStore(hash, s) && Results(hash, s)
    requires AllRead(s.tasks[t].job, s.shards[At(hash, s, t)])
    ensures Results(hash, MutateState(hash, s, t))
  {
    hide Exclusion, VisitModel, Stored, LogAndStore, TaskResult;
    var n := MutateState(hash, s, t);
    OwnResult(hash, s, t);
    forall u | 0 <= u < |n.tasks| ensures TaskResult(hash, n, n.tasks[u]) {
      if u != t {
        assert TaskResult(hash, s, s.tasks[u]);
        OtherResult(hash, s, t, u);
      }
    }
  }

  /** A change inside a shard keeps the invariant. */
  lemma MutateInv(hash: Hash, s: State, t: nat)
    requires Inv(hash, s) && t < |s.tasks| && MoveEnabled(hash, s, t, Mutate)
    ensures Inv(hash, ApplyMove(hash, s, t, Mutate))
  {
    hide Exclusion, Stored, Counter, LogAndStore, TaskResult, MutateState;
    MutateLocks(hash, s, t);
    MutateStored(hash, s, t);
    MutateCounter(hash, s, t);
    MutateResults(hash, s, t);
    if s.tasks[t].owner.Writer? {
      MutateLogged(hash, s, t);
    } else {
      MutateUnlogged(hash, s, t);
    }
  }

  // ------------------------------------------------------- counter catches up

  /** What is left after a visit, but for the counter. */
  lemma CountedTask(hash: Hash, s: State, t: nat)
    requires AfterChange(s, t) && |s.counted| == |s.shards| && Shape(CountState(hash, s, t))
    ensures var from, to, count := s.tasks[t], CountState(hash, s, t).tasks[t], |s.shards|;
            && to.Exec? && to.owner == from.owner && to.job == from.job
            && Visited(to.phase, Visits(to.job, count)) == Visited(from.phase, Visits(from.job, count))
            && !to.phase.Mutated? && !to.phase.WantGlobal?
            && PendingOf(to, count) == PendingOf(from, count)
    ensures var to, count := CountState(hash, s, t).tasks[t], |s.shards|;
            s.tasks[t].job == Scan(Flush) ==> Quiet(hash, count, s.tasks[t], to)
  {
    hide Route, Recount;
  }

  lemma CountCounter(hash: Hash, s: State, t: nat)
    requires AfterChange(s, t) && Exclusion(hash, s) && Counter(hash, s) && s.tasks[t].job != Scan(Flush)
    requires Shape(CountState(hash, s, t))
    ensures Counter(hash, CountState(hash, s, t))
  {
    hide Exclusion, Sum, WellFormedPc, Held, Visits, PendingOf, Quiet;
    var n, x := CountState(hash, s, t), At(hash, s, t);
    CountedTask(hash, s, t);
    assert RemembersCount(hash, s, s.tasks[t]);
    SumUpdate(s.counted, x, |s.shards[x]|);
    forall u | 0 <= u < |n.tasks| ensures RemembersCount(hash, n, n.tasks[u]) {
      assert RemembersCount(hash, s, s.tasks[u]);
      if u != t {
        VisitorAlone(hash, s, t, u);
      }
    }
    forall y | 0 <= y < |n.shards| && AllCounted(hash, n, y) ensures n.counted[y] == |n.shards[y]| {
      if y != x {
        forall u | 0 <= u < |s.tasks| ensures !Uncounted(hash, |s.shards|, s.tasks[u], y) {
          assert !Uncounted(hash, |n.shards|, n.tasks[u], y);
        }
        assert AllCounted(hash, s, y);
      }
    }
  }

  /** Neither log nor exports look at the counter. */
  lemma CountElsewhere(hash: Hash, s: State, t: nat)
    requires AfterChange(s, t) && |s.counted| == |s.shards| && LogAndStore(hash, s) && Results(hash, s)
    requires Shape(CountState(hash, s, t))
    ensures LogAndStore(hash, CountState(hash, s, t)) && Results(hash, CountState(hash, s, t))
  {
    hide Partial, Agreement, AbsoluteLog, InOrder, Fold, Logged, WellFormedPc, ShardOf, Collecting, PendingOf, Visited, SameAt, Quiet, Recount;
    var n := CountState(hash, s, t);
    CountedTask(hash, s, t);
    ResultsSame(hash, s, n);
    forall u | 0 <= u < |n.tasks| ensures TaskLog(hash, n, n.tasks[u]) && TaskResult(hash, n, n.tasks[u]) {
      assert TaskLog(hash, s, s.tasks[u]) && TaskResult(hash, s, s.tasks[u]);
    }
    if NonePending(n) {
      forall u | 0 <= u < |s.tasks| ensures PendingOf(s.tasks[u], |s.shards|).None? {
        assert PendingOf(n.tasks[u], |n.shards|).None?;
      }
    }
  }

  /** The counter update of a visit keeps the invariant. */
  lemma CountInv(hash: Hash, s: State, t: nat)
    requires Inv(hash, s) && t < |s.tasks| && MoveEnabled(hash, s, t, Count)
    ensures Inv(hash, ApplyMove(hash, s, t, Count))
  {
    hide Exclusion, Represents, Routed, LogAndStore, Collecting, Uncounted, RemembersCount, Sum, Quiet, Recount;
    var n := CountState(hash, s, t);
    CountLocks(hash, s, t);
    if s.tasks[t].job == Scan(Flush) {
      CountedTask(hash, s, t);
      assert n == Moved(s, t, n.tasks[t]);
      QuietInv(hash, s, t, n.tasks[t]);
    } else {
      CountCounter(hash, s, t);
      CountElsewhere(hash, s, t);
    }
  }

  /** The counter's subtraction never saturates. */
  lemma NeverSaturates(hash: Hash, s: State, t: nat)
    requires Inv(hash, s) && AfterChange(s, t) && s.tasks[t].job != Scan(Flush)
    ensures Recount(s.keyCount, s.tasks[t].phase.before, |s.shards[At(hash, s, t)]|)
         == s.keyCount - s.tasks[t].phase.before + |s.shards[At(hash, s, t)]|
    ensures s.tasks[t].phase.before <= s.keyCount
  {
    hide Exclusion, Stored, LogAndStore, Results, Sum;
    assert RemembersCount(hash, s, s.tasks[t]);
    SumUpdate(s.counted, At(hash, s, t), 0);
  }
}
