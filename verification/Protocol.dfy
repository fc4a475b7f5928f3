/**
 * The server's concurrent protocol as a state machine: any number of clients,
 * the TTL worker and the rewrite worker, step by step between lock requests,
 * with crashes and restarts at any point. Which locks a task holds follows
 * from where it is.
 */
module Protocol {
  import opened Bytes
  import opened Clock
  import opened Commands
  import opened Reference
  import opened Databases
  import opened Shards
  import opened Snapshots
  import opened LogCodec
  import opened Replay
  import Aof

  // ------------------------------------------------------------------ tasks

  /** KEYS, begun at `since`, reads the clock at every entry; an export fixes its instant once. */
  datatype Kind =
    | ListKeys(since: Time, read: map<Key, Time>, listed: set<Key>)
    | PurgeShards
    | Flush
    | Export(at: Time, got: Store)

  /** Work under the global lock: visits to the shards of some keys, or to every shard in order. */
  datatype Job =
    | Keyed(command: Command, keys: seq<Key>)
    | Scan(kind: Kind)

  /** `Writer` is a client that has logged its command at `logged` and holds barrier and engine; `times`
      are its visits so far and `removed` what a DEL has counted in them. */
  datatype Owner = Plain | Writer(logged: Time, times: seq<Time>, removed: nat) | Rewriter

  datatype Phase =
    | WantGlobal
    | AtShard(i: nat)
    | InShard(i: nat)
    | Mutated(i: nat, before: nat)
    | Finished

  datatype Pc =
    | Idle
    | WantBarrier(command: Command)
    | WantEngine(command: Command)
    | Appending(command: Command)
    | Exec(owner: Owner, job: Job, phase: Phase)
    | Replying
    | WantSize
    | ReadingSize
    | WantRewrite
    | WantSwap(at: Time, got: Store)
    | Swapping(at: Time, got: Store)

  /** `model` is the reference store, `committed` what the completed logged commands make of it;
      `base`, `baseLog` and `baseAt` are the store, log and time of the last startup or rewrite, `history`
      the commands logged and applied since; `start`, `startAt` and `executed` are the same for the last
      startup alone, across rewrites; `counted` is what the counter holds for each shard. */
  datatype State = State(
    now: Time,
    shards: ShardMaps,
    keyCount: nat,
    log: Log,
    tasks: seq<Pc>,
    model: Store,
    committed: Store,
    base: Store,
    baseLog: Log,
    baseAt: Time,
    history: seq<Applied>,
    start: Store,
    startAt: Time,
    executed: seq<Applied>,
    counted: seq<nat>)

  function Visits(job: Job, count: nat): nat {
    if job.Keyed? then |job.keys| else count
  }

  function ShardOf(hash: Hash, job: Job, i: nat, count: nat): (x: nat)
    requires count > 0 && i < Visits(job, count)
    ensures x < count
  {
    if job.Keyed? then Route(hash, job.keys[i], count) else i
  }

  /** How many visits of a job have changed their shard. */
  function Visited(phase: Phase, visits: nat): nat {
    match phase
    case WantGlobal => 0
    case AtShard(i) => i
    case InShard(i) => i
    case Mutated(i, _) => i + 1
    case Finished => visits
  }

  predicate PhaseInRange(phase: Phase, visits: nat) {
    (phase.AtShard? || phase.InShard? || phase.Mutated?) ==> phase.i < visits
  }

  /** The write commands a client can send. */
  predicate CanLog(c: Command) {
    IsWrite(c) && Decodable(c)
  }

  function JobOf(c: Command): Job
    requires IsKeyed(c) || c.FlushDb?
  {
    if IsKeyed(c) then Keyed(c, KeysOf(c)) else Scan(Flush)
  }

  function CommandOf(job: Job): Command {
    if job.Keyed? then job.command else FlushDb
  }

  /** Reads and purges, run without the log. */
  predicate PlainJob(job: Job) {
    match job
    case Keyed(c, keys) => IsKeyed(c) && !IsWrite(c) && keys == KeysOf(c)
    case Scan(kind) => kind.ListKeys? || kind.PurgeShards?
  }

  predicate WellFormedPc(pc: Pc, count: nat) {
    match pc
    case WantBarrier(c) => CanLog(c)
    case WantEngine(c) => CanLog(c)
    case Appending(c) => CanLog(c)
    case Exec(owner, job, phase) =>
      && PhaseInRange(phase, Visits(job, count))
      && (match owner
          case Plain => PlainJob(job)
          case Writer(_, _, _) => CanLog(CommandOf(job)) && job == JobOf(CommandOf(job))
          case Rewriter => job.Scan? && job.kind.Export?)
    case _ => true
  }

  // ------------------------------------------------------------------ locks

  datatype Lock = Barrier | Engine | Global | Shard(index: nat)

  datatype Mode = Shared | Exclusive

  /** The order in which locks are taken. */
  function Rank(lock: Lock): nat {
    match lock
    case Barrier => 0
    case Engine => 1
    case Global => 2
    case Shard(_) => 3
  }

  function GlobalMode(job: Job): Mode {
    if job.Keyed? then Shared else Exclusive
  }

  /** How a task at `pc` holds a lock, if it does. A scan's shard locks are taken as exclusive. */
  function Held(hash: Hash, count: nat, pc: Pc, lock: Lock): Option<Mode>
    requires count > 0 && WellFormedPc(pc, count)
  {
    match lock
    case Barrier =>
      if pc.WantEngine? || pc.Appending? || pc.Replying? || (pc.Exec? && pc.owner.Writer?) then Some(Shared)
      else if pc.WantSwap? || pc.Swapping? || (pc.Exec? && pc.owner.Rewriter?) then Some(Exclusive)
      else None
    case Engine =>
      if pc.Appending? || pc.Replying? || (pc.Exec? && pc.owner.Writer?) || pc.ReadingSize? || pc.Swapping?
      then Some(Exclusive) else None
    case Global =>
      if pc.Exec? && !pc.phase.WantGlobal? then Some(GlobalMode(pc.job)) else None
    case Shard(x) =>
      if pc.Exec? && (pc.phase.InShard? || pc.phase.Mutated?) && ShardOf(hash, pc.job, pc.phase.i, count) == x
      then Some(Exclusive) else None
  }

  /** The lock a task is waiting for. */
  function Wanted(hash: Hash, count: nat, pc: Pc): Option<(Lock, Mode)>
    requires count > 0 && WellFormedPc(pc, count)
  {
    match pc
    case WantBarrier(_) => Some((Barrier, Shared))
    case WantEngine(_) => Some((Engine, Exclusive))
    case WantSize => Some((Engine, Exclusive))
    case WantRewrite => Some((Barrier, Exclusive))
    case WantSwap(_, _) => Some((Engine, Exclusive))
    case Exec(_, job, WantGlobal) => Some((Global, GlobalMode(job)))
    case Exec(_, job, AtShard(i)) => Some((Shard(ShardOf(hash, job, i, count)), Exclusive))
    case _ => None
  }

  predicate Compatible(a: Option<Mode>, b: Option<Mode>) {
    a.None? || b.None? || (a.value.Shared? && b.value.Shared?)
  }

  ghost predicate Shape(s: State) {
    && |s.shards| > 0
    && (forall t :: 0 <= t < |s.tasks| ==> WellFormedPc(s.tasks[t], |s.shards|))
  }

  /** No other task holds the lock in a conflicting mode. */
  ghost predicate Grantable(hash: Hash, s: State, t: nat, lock: Lock, mode: Mode)
    requires Shape(s)
  {
    forall u :: 0 <= u < |s.tasks| && u != t ==> Compatible(Held(hash, |s.shards|, s.tasks[u], lock), Some(mode))
  }

  // ------------------------------------------------------------------ steps

  datatype Move =
    | BeginWrite(command: Command)
    | BeginPlain(job: Job)
    | BeginRewrite
    | Acquire
    | Append(ok: bool)
    | Peek(key: Key)
    | Mutate
    | Count
    | Release
    | Reply
    | SizeRead(large: bool)
    | Swap(ok: bool)

  /** Time passes, a task moves, or the process dies and a new one replays the log. */
  datatype Action =
    | Tick(later: Time)
    | Step(t: nat, move: Move)
    | Restart(count: nat, clocks: seq<Time>, tasks: nat)

  /** Where a task goes once a visit is over. */
  function AfterVisit(job: Job, i: nat, count: nat): Phase {
    if i < Visits(job, count) then AtShard(i) else Finished
  }

  /** Where a task goes once its lock is granted; an export fixes its instant under the global lock, KEYS starts its list. */
  function Granted(pc: Pc, count: nat, now: Time): Pc {
    match pc
    case WantBarrier(c) => WantEngine(c)
    case WantEngine(c) => Appending(c)
    case WantSize => ReadingSize
    case WantRewrite => Exec(Rewriter, Scan(Export(now, map[])), WantGlobal)
    case WantSwap(at, got) => Swapping(at, got)
    case Exec(owner, Scan(Export(_, _)), WantGlobal) =>
      Exec(owner, Scan(Export(now, map[])), AfterVisit(Scan(Export(now, map[])), 0, count))
    case Exec(owner, Scan(ListKeys(_, _, _)), WantGlobal) =>
      Exec(owner, Scan(ListKeys(now, map[], {})), AfterVisit(Scan(ListKeys(now, map[], {})), 0, count))
    case Exec(owner, job, WantGlobal) => Exec(owner, job, AfterVisit(job, 0, count))
    case Exec(owner, job, AtShard(i)) => Exec(owner, job, InShard(i))
    case _ => pc
  }

  ghost predicate MoveEnabled(hash: Hash, s: State, t: nat, move: Move)
    requires Shape(s) && t < |s.tasks|
  {
    var pc := s.tasks[t];
    match move
    case BeginWrite(c) => pc.Idle? && CanLog(c)
    case BeginPlain(job) => pc.Idle? && PlainJob(job)
    case BeginRewrite => pc.Idle?
    case Acquire => CanAcquire(hash, s, t)
    case Append(_) => pc.Appending?
    case Peek(key) =>
      && pc.Exec? && pc.phase.InShard?
      && Unread(pc.job, s.shards[ShardOf(hash, pc.job, pc.phase.i, |s.shards|)], key)
    case Mutate =>
      && pc.Exec? && pc.phase.InShard?
      && AllRead(pc.job, s.shards[ShardOf(hash, pc.job, pc.phase.i, |s.shards|)])
    case Count => pc.Exec? && pc.phase.Mutated?
    case Release => pc.Exec? && pc.phase.Finished?
    case Reply => pc.Replying?
    case SizeRead(_) => pc.ReadingSize?
    case Swap(_) => pc.Swapping?
  }

  /** The task waits for a lock and nobody holds it against it. */
  ghost predicate CanAcquire(hash: Hash, s: State, t: nat)
    requires Shape(s) && t < |s.tasks|
  {
    match Wanted(hash, |s.shards|, s.tasks[t])
    case None => false
    case Some((lock, mode)) => Grantable(hash, s, t, lock, mode)
  }

  ghost predicate Enabled(hash: Hash, s: State, a: Action)
    requires Shape(s)
  {
    match a
    case Tick(later) => s.now <= later
    case Restart(count, clocks, _) => count > 0 && |clocks| == |s.log| && Clocks(clocks, s.now, Latest(s.now, clocks))
    case Step(t, move) => t < |s.tasks| && MoveEnabled(hash, s, t, move)
  }

  function Latest(now: Time, clocks: seq<Time>): Time {
    if |clocks| == 0 then now else clocks[|clocks| - 1]
  }

  function WithoutShard(hash: Hash, m: Store, x: nat, count: nat): Store
    requires count > 0
  {
    map k | k in m && Route(hash, k, count) != x :: m[k]
  }

  /** The shard after a visit. */
  function VisitShard(m: Store, job: Job, i: nat, now: Time): Store
    requires job.Keyed? ==> i < |job.keys|
  {
    match job
    case Keyed(c, keys) => ShardNext(m, c, keys[i], now)
    case Scan(ListKeys(_, _, _)) => m
    case Scan(PurgeShards) => Purge(m, now)
    case Scan(Flush) => map[]
    case Scan(Export(at, _)) => Purge(m, at)
  }

  /** The reference store after a visit. */
  function VisitModel(hash: Hash, m: Store, job: Job, i: nat, count: nat, now: Time): Store
    requires count > 0
    requires job.Keyed? ==> i < |job.keys|
  {
    match job
    case Keyed(c, keys) => Next(m, Part(c, keys[i]), now)
    case Scan(Flush) => WithoutShard(hash, m, i, count)
    case _ => m
  }

  /** What an export has collected after a visit. */
  function VisitJob(job: Job, shard: Store): Job {
    match job
    case Scan(Export(at, got)) => Scan(Export(at, got + Purge(shard, at)))
    case _ => job
  }

  /** A KEYS has yet to look at this entry of the shard it is in. */
  predicate Unread(job: Job, shard: Store, key: Key) {
    job.Scan? && job.kind.ListKeys? && key in shard && key !in job.kind.read
  }

  predicate AllRead(job: Job, shard: Store) {
    forall key :: key in shard ==> !Unread(job, shard, key)
  }

  /** A KEYS looks at one entry of the shard it is in. */
  function PeekState(s: State, t: nat, key: Key): State
    requires t < |s.tasks| && s.tasks[t].Exec? && s.tasks[t].phase.InShard? && s.tasks[t].phase.i < |s.shards|
    requires Unread(s.tasks[t].job, s.shards[s.tasks[t].phase.i], key)
  {
    var Exec(owner, Scan(ListKeys(since, read, listed)), phase) := s.tasks[t];
    var one := if Look(s.shards[phase.i], key, s.now).Some? then {key} else {};
    Moved(s, t, Exec(owner, Scan(ListKeys(since, read[key := s.now], listed + one)), phase))
  }

  /** What a writer has counted after a visit. */
  function VisitOwner(owner: Owner, job: Job, i: nat, shard: Store, now: Time): Owner
    requires job.Keyed? ==> i < |job.keys|
  {
    match owner
    case Writer(logged, times, removed) =>
      var one := if job.Keyed? && job.command.Del? && Look(shard, job.keys[i], now).Some? then 1 else 0;
      Writer(logged, times + [now], removed + one)
    case _ => owner
  }

  function MutateState(hash: Hash, s: State, t: nat): State
    requires |s.shards| > 0 && t < |s.tasks| && WellFormedPc(s.tasks[t], |s.shards|)
    requires s.tasks[t].Exec? && s.tasks[t].phase.InShard?
  {
    var Exec(owner, job, phase) := s.tasks[t];
    var i, count := phase.i, |s.shards|;
    var x := ShardOf(hash, job, i, count);
    var model := VisitModel(hash, s.model, job, i, count, s.now);
    var last := owner.Writer? && i + 1 == Visits(job, count);
    s.(shards := s.shards[x := VisitShard(s.shards[x], job, i, s.now)],
       model := model,
       tasks := s.tasks[t := Exec(VisitOwner(owner, job, i, s.shards[x], s.now), VisitJob(job, s.shards[x]),
                                  Mutated(i, |s.shards[x]|))],
       history := if last then s.history + [Applied(CommandOf(job), owner.logged, s.now)] else s.history,
       executed := if last then s.executed + [Applied(CommandOf(job), owner.logged, s.now)] else s.executed,
       committed := if last then model else s.committed)
  }

  /** The counter update of a visit; FLUSHDB makes none until it ends. The shard lock is dropped with it. */
  function CountState(hash: Hash, s: State, t: nat): State
    requires |s.shards| > 0 && |s.counted| == |s.shards| && t < |s.tasks| && WellFormedPc(s.tasks[t], |s.shards|)
    requires s.tasks[t].Exec? && s.tasks[t].phase.Mutated?
  {
    var Exec(owner, job, phase) := s.tasks[t];
    var count := |s.shards|;
    var x := ShardOf(hash, job, phase.i, count);
    var next := s.(tasks := s.tasks[t := Exec(owner, job, AfterVisit(job, phase.i + 1, count))]);
    if job == Scan(Flush) then next
    else next.(keyCount := Recount(s.keyCount, phase.before, |s.shards[x]|),
               counted := s.counted[x := |s.shards[x]|])
  }

  function ReleaseState(s: State, t: nat): State
    requires t < |s.tasks| && s.tasks[t].Exec? && s.tasks[t].phase.Finished?
  {
    var Exec(owner, job, _) := s.tasks[t];
    var to := match owner
      case Plain => Idle
      case Writer(_, _, _) => Replying
      case Rewriter => match job case Scan(Export(at, got)) => WantSwap(at, got) case _ => Idle;
    var next := s.(tasks := s.tasks[t := to]);
    if job == Scan(Flush) then next.(keyCount := 0, counted := seq(|s.counted|, i => 0)) else next
  }

  ghost function SwapState(s: State, t: nat, ok: bool): State
    requires t < |s.tasks| && s.tasks[t].Swapping?
  {
    var Swapping(at, got) := s.tasks[t];
    var next := s.(tasks := s.tasks[t := Idle]);
    if !ok then next
    else
      var log := SnapshotLog(SnapshotOf(got, at));
      next.(log := log, base := s.committed, baseLog := log, baseAt := s.now, history := [])
  }

  ghost function RestartState(hash: Hash, s: State, count: nat, clocks: seq<Time>, tasks: nat): State
    requires count > 0 && |clocks| == |s.log|
  {
    var clock := (i: nat) => if i < |clocks| then clocks[i] else 0;
    var shards := Aof.ReplayShards(hash, EmptyShards(count), s.log, clock);
    var r := ReplayStore(s.log, clocks);
    var now := Latest(s.now, clocks);
    State(now, shards, Total(shards), s.log, seq(tasks, i => Idle), r, r, r, s.log, now, [], r, now, [], Lens(shards))
  }

  /** The same state with one task elsewhere. */
  function Moved(s: State, t: nat, pc: Pc): State
    requires t < |s.tasks|
  {
    s.(tasks := s.tasks[t := pc])
  }

  function AppendState(s: State, t: nat, ok: bool): State
    requires t < |s.tasks| && s.tasks[t].Appending? && CanLog(s.tasks[t].command)
  {
    var c := s.tasks[t].command;
    if ok then Moved(s, t, Exec(Writer(s.now, [], 0), JobOf(c), WantGlobal)).(log := s.log + [Absolute(c, s.now)])
    else Moved(s, t, Replying)
  }

  ghost function ApplyMove(hash: Hash, s: State, t: nat, move: Move): State
    requires Shape(s) && |s.counted| == |s.shards| && t < |s.tasks| && MoveEnabled(hash, s, t, move)
  {
    match move
    case BeginWrite(c) => Moved(s, t, WantBarrier(c))
    case BeginPlain(job) => Moved(s, t, Exec(Plain, job, WantGlobal))
    case BeginRewrite => Moved(s, t, WantSize)
    case Acquire => Moved(s, t, Granted(s.tasks[t], |s.shards|, s.now))
    case Append(ok) => AppendState(s, t, ok)
    case Peek(key) => PeekState(s, t, key)
    case Mutate => MutateState(hash, s, t)
    case Count => CountState(hash, s, t)
    case Release => ReleaseState(s, t)
    case Reply => Moved(s, t, Idle)
    case SizeRead(large) => Moved(s, t, if large then WantRewrite else Idle)
    case Swap(ok) => SwapState(s, t, ok)
  }

  ghost function Apply(hash: Hash, s: State, a: Action): State
    requires Shape(s) && |s.counted| == |s.shards| && Enabled(hash, s, a)
  {
    match a
    case Tick(later) => s.(now := later)
    case Restart(count, clocks, tasks) => RestartState(hash, s, count, clocks, tasks)
    case Step(t, move) => ApplyMove(hash, s, t, move)
  }

  /** A fresh server: empty shards, empty log, every task idle. */
  ghost predicate Initial(s: State) {
    && |s.shards| > 0 && s.shards == EmptyShards(|s.shards|)
    && s.keyCount == 0 && s.counted == seq(|s.shards|, i => 0)
    && s.log == [] && s.baseLog == [] && s.history == [] && s.executed == []
    && s.model == map[] && s.committed == map[] && s.base == map[] && s.start == map[]
    && s.baseAt == s.now && s.startAt == s.now
    && (forall t :: 0 <= t < |s.tasks| ==> s.tasks[t].Idle?)
  }
}
