/** Reads, purges, KEYS, time and restarts run to their ends: what a client can count on getting done. */
module Serving {
  import opened Clock
  import opened Commands
  import opened Reference
  import opened Shards
  import opened Replay
  import Aof
  import opened Protocol
  import opened Invariants
  import opened Reachability
  import opened Replies
  import opened Alone

  // -------------------------------------------------------- reads and purges

  lemma BeginPlainCan(hash: Hash, s: State, t: nat, job: Job)
    requires Only(hash, s, t) && s.tasks[t].Idle? && PlainJob(job)
    ensures Makes(hash, s, t, BeginPlain(job), Moved(s, t, Exec(Plain, job, WantGlobal)))
    ensures Only(hash, Moved(s, t, Exec(Plain, job, WantGlobal)), t)
  {
    hide PlainJob, Inv, Shape;
    OnlyShape(hash, s, t);
    OnlyOn(hash, s, t, BeginPlain(job));
  }

  lemma TwoMoves(hash: Hash, s: State, t: nat, a: Move, m: State, b: Move, n: State)
    requires Makes(hash, s, t, a, m) && Makes(hash, m, t, b, n)
    ensures Plays(hash, s, t, [a, b], n)
  {
    hide Apply, Enabled, Shape;
    assert [a, b][1..] == [b] && [b][1..] == [];
    assert Plays(hash, n, t, [], n) && Plays(hash, m, t, [b], n);
  }

  /** Into the store: KEYS starts its list there. */
  lemma StartPlain(hash: Hash, s: State, t: nat, job: Job) returns (n: State)
    requires Only(hash, s, t) && s.tasks[t].Idle? && PlainJob(job)
    ensures Plays(hash, s, t, [BeginPlain(job), Acquire], n) && Only(hash, n, t)
    ensures n == Moved(s, t, Granted(Exec(Plain, job, WantGlobal), |s.shards|, s.now))
  {
    hide Only, Apply, Enabled, Shape, PlainJob, Granted, WellFormedPc;
    OnlyShape(hash, s, t);
    BeginPlainCan(hash, s, t, job);
    var a := Moved(s, t, Exec(Plain, job, WantGlobal));
    OnlyShape(hash, a, t);
    AcquireAlone(hash, a, t);
    n := Moved(a, t, Granted(a.tasks[t], |a.shards|, a.now));
    assert n.tasks == s.tasks[t := n.tasks[t]];
    TwoMoves(hash, s, t, BeginPlain(job), a, Acquire, n);
  }

  /** GET, EXISTS and TTL, and the purge. */
  predicate ReadsOrPurges(job: Job) {
    match job
    case Keyed(c, keys) => (c.Get? || c.Exists? || c.Ttl?) && keys == [c.key]
    case Scan(kind) => kind.PurgeShards?
  }

  lemma PlainGranted(job: Job, count: nat, now: Time)
    requires ReadsOrPurges(job) && count > 0
    ensures Visits(job, count) > 0
    ensures Granted(Exec(Plain, job, WantGlobal), count, now) == Exec(Plain, job, AtShard(0))
  {
  }

  lemma PlainReleased(hash: Hash, s: State, t: nat) returns (n: State)
    requires Only(hash, s, t) && s.tasks[t].Exec? && s.tasks[t].phase.Finished? && s.tasks[t].owner.Plain?
    ensures Plays(hash, s, t, [Release], n) && Beside(s, n, t) && n.tasks[t] == Idle && n.executed == s.executed
  {
    ReleaseDoes(hash, s, t);
    n := Apply(hash, s, Step(t, Release));
    hide Apply, Enabled, Shape, Only;
    assert [Release][1..] == [];
    assert Plays(hash, n, t, [], n);
  }

  /** What a read or a purge leaves: every task and the log as they were, and a store nobody can tell from the one before. */
  ghost predicate Served(hash: Hash, s: State, n: State) {
    && n.tasks == s.tasks && n.log == s.log && n.executed == s.executed && n.now == s.now
    && |n.shards| > 0 && n.keyCount == Total(n.shards)
    && Represents(hash, n.shards, Fold(s.start, s.executed), s.now)
  }

  /** From any reachable state with everybody idle a read or a purge runs to its end. */
  lemma LoneRead(hash: Hash, s: State, t: nat, job: Job)
    requires Reachable(hash, s) && AllIdle(s) && t < |s.tasks| && ReadsOrPurges(job)
    ensures exists n :: Plays(hash, s, t, [BeginPlain(job), Acquire] + Rounds(Visits(job, |s.shards|)) + [Release], n)
                        && Served(hash, s, n)
  {
    hide Reachable, Only, Plays, Apply, Enabled, Shape, Fold, Represents, ReadsOrPurges, PlainJob;
    IdleOnly(hash, s, t);
    OnlyShape(hash, s, t);
    SomeShard(s);
    JobIsPlain(job);
    PlainGranted(job, |s.shards|, s.now);
    var a := StartPlain(hash, s, t, job);
    var visits := Visits(job, |s.shards|);
    var b := RoundsAlone(hash, a, t, 0, visits - 1);
    LastVisit(job, |s.shards|);
    var n := PlainReleased(hash, b, t);
    PlaysOn(hash, s, t, [BeginPlain(job), Acquire], a, Rounds(visits), b);
    PlaysOn(hash, s, t, [BeginPlain(job), Acquire] + Rounds(visits), b, [Release], n);
    PlaysReach(hash, s, t, [BeginPlain(job), Acquire] + Rounds(visits) + [Release], n);
    assert n.tasks == s.tasks && n.executed == s.executed;
    IdleStands(hash, n);
  }

  lemma JobIsPlain(job: Job)
    requires ReadsOrPurges(job)
    ensures PlainJob(job) && !(job.Scan? && job.kind.ListKeys?)
  {
  }

  // -------------------------------------------------------------------- KEYS

  /** A KEYS begun at `since` is in this phase. */
  predicate KeysIn(pc: Pc, since: Time, phase: Phase) {
    pc.Exec? && pc.owner.Plain? && pc.job.Scan? && pc.job.kind.ListKeys? && pc.job.kind.since == since && pc.phase == phase
  }

  /** The moves lead from `s` to `n`, where the KEYS is in this phase and nothing else has changed. */
  ghost predicate Listed(hash: Hash, s: State, t: nat, moves: seq<Move>, n: State, since: Time, phase: Phase) {
    && Plays(hash, s, t, moves, n) && Only(hash, n, t) && Beside(s, n, t) && n.executed == s.executed
    && KeysIn(n.tasks[t], since, phase)
  }

  lemma ListedOn(hash: Hash, s: State, t: nat, a: seq<Move>, m: State, b: seq<Move>, n: State, since: Time, p: Phase, q: Phase)
    requires Listed(hash, s, t, a, m, since, p) && Listed(hash, m, t, b, n, since, q)
    ensures Listed(hash, s, t, a + b, n, since, q)
  {
    hide Plays, Only, KeysIn, Shape, Enabled, Apply;
    PlaysOn(hash, s, t, a, m, b, n);
  }

  /** One move on. */
  lemma ListedStep(hash: Hash, s: State, t: nat, move: Move, since: Time, phase: Phase)
    requires Only(hash, s, t) && CanAct(hash, s, Step(t, move))
    requires var n := Apply(hash, s, Step(t, move));
             Beside(s, n, t) && n.executed == s.executed && KeysIn(n.tasks[t], since, phase)
    ensures Listed(hash, s, t, [move], Apply(hash, s, Step(t, move)), since, phase)
  {
    hide Only, Shape, Enabled, Apply, KeysIn, Inv;
    OnlyOn(hash, s, t, move);
    var n := Apply(hash, s, Step(t, move));
    assert [move][1..] == [] && Plays(hash, n, t, [], n);
  }

  ghost function ToRead(s: State, t: nat, i: nat): set<Key>
    requires t < |s.tasks| && s.tasks[t].Exec? && s.tasks[t].job.Scan? && s.tasks[t].job.kind.ListKeys? && i < |s.shards|
  {
    s.shards[i].Keys - s.tasks[t].job.kind.read.Keys
  }

  lemma PeekDoes(hash: Hash, s: State, t: nat, i: nat, since: Time, key: Key)
    requires Only(hash, s, t) && KeysIn(s.tasks[t], since, InShard(i)) && i < |s.shards| && key in ToRead(s, t, i)
    ensures CanAct(hash, s, Step(t, Peek(key)))
    ensures var n := Apply(hash, s, Step(t, Peek(key)));
            && Beside(s, n, t) && n.executed == s.executed && n.shards == s.shards && KeysIn(n.tasks[t], since, InShard(i))
            && ToRead(n, t, i) == ToRead(s, t, i) - {key}
  {
    OnlyShape(hash, s, t);
    PeekCan(hash, s, t, i, key);
    hide Only, Inv, Shape, Look, Enabled, Apply;
  }

  lemma PeekCan(hash: Hash, s: State, t: nat, i: nat, key: Key)
    requires Shape(s) && |s.counted| == |s.shards| && t < |s.tasks| && s.tasks[t].Exec? && s.tasks[t].phase == InShard(i)
    requires i < |s.shards| && Unread(s.tasks[t].job, s.shards[i], key)
    ensures CanAct(hash, s, Step(t, Peek(key))) && Apply(hash, s, Step(t, Peek(key))) == PeekState(s, t, key)
  {
    hide Shape, PeekState;
  }

  /** The entries of the shard it is in, one after the other. */
  lemma {:induction false} PeekAll(hash: Hash, s: State, t: nat, i: nat, since: Time) returns (moves: seq<Move>, n: State)
    requires Only(hash, s, t) && KeysIn(s.tasks[t], since, InShard(i)) && i < |s.shards|
    ensures Listed(hash, s, t, moves, n, since, InShard(i)) && n.shards == s.shards && ToRead(n, t, i) == {}
    decreases |ToRead(s, t, i)|
  {
    if ToRead(s, t, i) == {} {
      moves, n := [], s;
    } else {
      var key :| key in ToRead(s, t, i);
      PeekDoes(hash, s, t, i, since, key);
      ListedStep(hash, s, t, Peek(key), since, InShard(i));
      var m := Apply(hash, s, Step(t, Peek(key)));
      hide Only, Shape, Enabled, Apply, CanAct, Plays;
      var rest: seq<Move>;
      rest, n := PeekAll(hash, m, t, i, since);
      ListedOn(hash, s, t, [Peek(key)], m, rest, n, since, InShard(i), InShard(i));
      moves := [Peek(key)] + rest;
    }
  }

  lemma KeysMutates(hash: Hash, s: State, t: nat, i: nat, since: Time)
    requires Only(hash, s, t) && KeysIn(s.tasks[t], since, InShard(i)) && i < |s.shards| && ToRead(s, t, i) == {}
    ensures CanAct(hash, s, Step(t, Mutate))
    ensures var n := Apply(hash, s, Step(t, Mutate));
            && Beside(s, n, t) && n.executed == s.executed
            && n.tasks[t].Exec? && n.tasks[t].phase.Mutated? && KeysIn(n.tasks[t], since, Mutated(i, n.tasks[t].phase.before))
  {
    OnlyShape(hash, s, t);
    forall key | key in s.shards[i] ensures !Unread(s.tasks[t].job, s.shards[i], key) {
      assert key !in ToRead(s, t, i);
    }
    hide Only, Inv, Shape, VisitModel, VisitOwner;
  }

  lemma KeysCounts(hash: Hash, s: State, t: nat, i: nat, since: Time, before: nat)
    requires Only(hash, s, t) && KeysIn(s.tasks[t], since, Mutated(i, before)) && i < |s.shards|
    ensures CanAct(hash, s, Step(t, Count))
    ensures var n := Apply(hash, s, Step(t, Count));
            && Beside(s, n, t) && n.executed == s.executed
            && KeysIn(n.tasks[t], since, if i + 1 < |s.shards| then AtShard(i + 1) else Finished)
  {
    OnlyShape(hash, s, t);
    hide Only, Inv;
    CountCan(hash, s, t);
    CountDoes(hash, s, t, i);
    hide CanAct, Apply, Shape, CountState;
  }

  lemma KeysAcquires(hash: Hash, s: State, t: nat, i: nat, since: Time)
    requires Only(hash, s, t) && KeysIn(s.tasks[t], since, AtShard(i)) && i < |s.shards|
    ensures CanAct(hash, s, Step(t, Acquire))
    ensures var n := Apply(hash, s, Step(t, Acquire));
            && Beside(s, n, t) && n.executed == s.executed && KeysIn(n.tasks[t], since, InShard(i))
  {
    OnlyShape(hash, s, t);
    AcquireAlone(hash, s, t);
    hide Only, Inv, Shape, Enabled, Apply;
  }

  /** A whole visit: the lock, every entry, and the lock dropped. */
  lemma KeysVisit(hash: Hash, s: State, t: nat, i: nat, since: Time) returns (moves: seq<Move>, n: State)
    requires Only(hash, s, t) && KeysIn(s.tasks[t], since, AtShard(i)) && i < |s.shards|
    ensures Listed(hash, s, t, moves, n, since, if i + 1 < |s.shards| then AtShard(i + 1) else Finished)
  {
    hide Only, Shape, Enabled, Apply, Plays, ToRead, KeysIn, Inv;
    KeysAcquires(hash, s, t, i, since);
    ListedStep(hash, s, t, Acquire, since, InShard(i));
    var a := Apply(hash, s, Step(t, Acquire));
    var peeks, b := PeekAll(hash, a, t, i, since);
    ListedOn(hash, s, t, [Acquire], a, peeks, b, since, InShard(i), InShard(i));
    KeysMutates(hash, b, t, i, since);
    var c := Apply(hash, b, Step(t, Mutate));
    var mutated := Mutated(i, c.tasks[t].phase.before);
    ListedStep(hash, b, t, Mutate, since, mutated);
    ListedOn(hash, s, t, [Acquire] + peeks, b, [Mutate], c, since, InShard(i), mutated);
    KeysCounts(hash, c, t, i, since, c.tasks[t].phase.before);
    var next := if i + 1 < |s.shards| then AtShard(i + 1) else Finished;
    ListedStep(hash, c, t, Count, since, next);
    n := Apply(hash, c, Step(t, Count));
    ListedOn(hash, s, t, [Acquire] + peeks + [Mutate], c, [Count], n, since, mutated, next);
    moves := [Acquire] + peeks + [Mutate] + [Count];
  }

  /** The visits still to make. */
  lemma {:induction false} KeysVisits(hash: Hash, s: State, t: nat, i: nat, since: Time) returns (moves: seq<Move>, n: State)
    requires Only(hash, s, t) && KeysIn(s.tasks[t], since, AtShard(i)) && i < |s.shards|
    ensures Listed(hash, s, t, moves, n, since, Finished)
    decreases |s.shards| - i
  {
    hide Only, KeysIn, Plays;
    moves, n := KeysVisit(hash, s, t, i, since);
    if i + 1 < |s.shards| {
      var first, m := moves, n;
      var rest: seq<Move>;
      rest, n := KeysVisits(hash, m, t, i + 1, since);
      ListedOn(hash, s, t, first, m, rest, n, since, AtShard(i + 1), Finished);
      moves := first + rest;
    }
  }

  /** The list at the end of a KEYS is the live keys of the store of all executed commands. */
  ghost predicate ListsAll(s: State, n: State, t: nat) {
    && KeysDone(n, t) && n.log == s.log && n.executed == s.executed && n.now == s.now
    && n.tasks[t].job.kind.listed == LiveKeys(Fold(s.start, s.executed), s.now)
  }

  /** From any reachable state with everybody idle a KEYS runs to its end and lists exactly the live keys. */
  lemma LoneKeys(hash: Hash, s: State, t: nat)
    requires Reachable(hash, s) && AllIdle(s) && t < |s.tasks|
    ensures exists moves, n :: Plays(hash, s, t, moves, n) && ListsAll(s, n, t)
  {
    hide Reachable, Only, Plays, Fold, Shape, LiveKeys;
    var job := Scan(ListKeys(0, map[], {}));
    IdleOnly(hash, s, t);
    OnlyShape(hash, s, t);
    SomeShard(s);
    var a := StartPlain(hash, s, t, job);
    var rest, n := KeysVisits(hash, a, t, 0, s.now);
    PlaysOn(hash, s, t, [BeginPlain(job), Acquire], a, rest, n);
    PlaysReach(hash, s, t, [BeginPlain(job), Acquire] + rest, n);
    KeysBounds(hash, n, t);
    assert n.tasks[t].job.kind.listed == LiveKeys(Fold(s.start, s.executed), s.now);
  }

  // -------------------------------------------------------- time and restarts

  /** Time passes for everybody: with all tasks idle, what was executed is what is there at the later time. */
  lemma TimePasses(hash: Hash, s: State, later: Time)
    requires Reachable(hash, s) && AllIdle(s) && s.now <= later
    ensures CanAct(hash, s, Tick(later))
    ensures var n := Apply(hash, s, Tick(later));
            && n.now == later && n.tasks == s.tasks && n.log == s.log && |n.shards| > 0 && n.keyCount == Total(n.shards)
            && Represents(hash, n.shards, Fold(s.start, s.executed), later)
  {
    ReachableInv(hash, s);
    hide Reachable, Represents, Fold, Exclusion, Counter, Stored, LogAndStore, Results, Total;
    assert CanAct(hash, s, Tick(later));
    ReachOn(hash, s, Tick(later));
    var n := Apply(hash, s, Tick(later));
    IdleStands(hash, n);
  }

  /** After a restart the server is ready: as many tasks and shards as it was given, all idle, the log as it was, nothing
      executed yet, the clock where the replay ended, an exact counter. */
  lemma RestartServes(hash: Hash, s: State, count: nat, clocks: seq<Time>, tasks: nat)
    requires Reachable(hash, s) && CanAct(hash, s, Restart(count, clocks, tasks))
    ensures var n := Apply(hash, s, Restart(count, clocks, tasks));
            && Reachable(hash, n) && AllIdle(n) && |n.tasks| == tasks && |n.shards| == count > 0
            && n.log == s.log && n.executed == [] && n.now == (if |clocks| == 0 then s.now else clocks[|clocks| - 1])
            && n.keyCount == Total(n.shards) && Represents(hash, n.shards, ReplayStore(s.log, clocks), n.now)
  {
    hide Reachable, Represents, Total, ReplayStore, Shape, Aof.ReplayShards, Clocks;
    ReachOn(hash, s, Restart(count, clocks, tasks));
    var n := Apply(hash, s, Restart(count, clocks, tasks));
    IdleStands(hash, n);
  }
}
