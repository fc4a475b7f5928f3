/** What every step of the protocol keeps. */
module Invariants {
  import opened Bytes
  import opened Clock
  import opened Commands
  import opened Reference
  import opened Shards
  import opened LogCodec
  import opened Replay
  import opened Protocol

  // -------------------------------------------------------------- exclusion

  /** No two tasks hold a lock in conflicting modes. */
  ghost predicate Exclusion(hash: Hash, s: State)
    requires Shape(s)
  {
    forall t, u, lock :: 0 <= t < |s.tasks| && 0 <= u < |s.tasks| && t != u ==>
      Compatible(Held(hash, |s.shards|, s.tasks[t], lock), Held(hash, |s.shards|, s.tasks[u], lock))
  }

  // ---------------------------------------------------------------- storage

  ghost predicate Stored(hash: Hash, s: State)
    requires |s.shards| > 0
  {
    Routed(hash, s.shards) && Represents(hash, s.shards, s.model, s.now)
  }

  // ---------------------------------------------------------------- counter

  /** A task that has changed shard `x` without the counter having followed. FLUSHDB follows at its end. */
  predicate Uncounted(hash: Hash, count: nat, pc: Pc, x: nat)
    requires count > 0 && WellFormedPc(pc, count)
  {
    && pc.Exec?
    && if pc.job == Scan(Flush) then x < Visited(pc.phase, count)
       else pc.phase.Mutated? && ShardOf(hash, pc.job, pc.phase.i, count) == x
  }

  ghost predicate AllCounted(hash: Hash, s: State, x: nat)
    requires Shape(s)
  {
    forall t :: 0 <= t < |s.tasks| ==> !Uncounted(hash, |s.shards|, s.tasks[t], x)
  }

  /** The task remembers what the counter holds for the shard it has changed; a FLUSHDB leaves empty shards behind. */
  ghost predicate RemembersCount(hash: Hash, s: State, pc: Pc)
    requires |s.shards| > 0 && |s.counted| == |s.shards| && WellFormedPc(pc, |s.shards|)
  {
    pc.Exec? ==>
      if pc.job == Scan(Flush) then
        forall x :: 0 <= x < |s.shards| && x < Visited(pc.phase, |s.shards|) ==> s.shards[x] == map[]
      else
        pc.phase.Mutated? ==> s.counted[ShardOf(hash, pc.job, pc.phase.i, |s.shards|)] == pc.phase.before
  }

  /** The counter is the sum of what it holds per shard, and that is the shard's length except for shards changed and not yet counted. */
  ghost predicate Counter(hash: Hash, s: State)
    requires Shape(s)
  {
    && |s.counted| == |s.shards|
    && s.keyCount == Sum(s.counted)
    && (forall t :: 0 <= t < |s.tasks| ==> RemembersCount(hash, s, s.tasks[t]))
    && (forall x :: 0 <= x < |s.shards| && AllCounted(hash, s, x) ==> s.counted[x] == |s.shards[x]|)
  }

  // -------------------------------------------------------------------- log

  datatype Pending = Pending(logged: Time, job: Job, done: nat)

  /** The write a task has logged and not finished applying. */
  function PendingOf(pc: Pc, count: nat): Option<Pending> {
    if pc.Exec? && pc.owner.Writer? && Visited(pc.phase, Visits(pc.job, count)) < Visits(pc.job, count)
    then Some(Pending(pc.owner.logged, pc.job, Visited(pc.phase, Visits(pc.job, count))))
    else None
  }

  /** The reference store part-way through a write: a DEL or FLUSHDB has removed what it has visited. */
  function Partial(hash: Hash, count: nat, m: Store, job: Job, done: nat): Store
    requires count > 0
  {
    match job
    case Keyed(c, keys) => if c.Del? && done <= |keys| then m - Elements(keys[..done]) else m
    case Scan(_) => map k | k in m && Route(hash, k, count) >= done :: m[k]
  }

  ghost predicate NonePending(s: State) {
    forall t :: 0 <= t < |s.tasks| ==> PendingOf(s.tasks[t], |s.shards|).None?
  }

  /** One command ahead: the log ends in the task's command, of which `done` visits have been applied. */
  ghost predicate OneAhead(hash: Hash, s: State, p: Pending)
    requires |s.shards| > 0
  {
    && s.log == s.baseLog + Logged(s.history) + [Absolute(CommandOf(p.job), p.logged)]
    && s.model == Partial(hash, |s.shards|, s.committed, p.job, p.done)
    && InOrder(s.history, s.baseAt, p.logged) && InOrder(s.executed, s.startAt, p.logged) && p.logged <= s.now
  }

  ghost predicate TaskLog(hash: Hash, s: State, pc: Pc)
    requires |s.shards| > 0
  {
    PendingOf(pc, |s.shards|).Some? ==> OneAhead(hash, s, PendingOf(pc, |s.shards|).value)
  }

  /** The log is the base log and the logged history, and folding the history gives the store; while a
      write is being applied the log is that one command ahead. */
  ghost predicate LogAndStore(hash: Hash, s: State)
    requires |s.shards| > 0
  {
    && s.committed == Fold(s.base, s.history) && s.committed == Fold(s.start, s.executed)
    && InOrder(s.history, s.baseAt, s.now) && InOrder(s.executed, s.startAt, s.now)
    && Agreement(s.baseLog, s.base, s.baseAt, 0) && AbsoluteLog(s.baseLog)
    && (forall t :: 0 <= t < |s.tasks| ==> TaskLog(hash, s, s.tasks[t]))
    && (NonePending(s) ==> s.log == s.baseLog + Logged(s.history) && s.model == s.committed)
  }

  // ---------------------------------------------------------------- results

  /** An export in progress: at its instant, what it has collected is the store on the shards it has visited. */
  ghost predicate Collecting(hash: Hash, s: State, at: Time, got: Store, done: nat)
    requires |s.shards| > 0
  {
    && at <= s.now
    && Represents(hash, s.shards, s.model, at)
    && forall k :: Look(got, k, at) == if Route(hash, k, |s.shards|) < done then Look(s.model, k, at) else None
  }

  ghost predicate TaskExport(hash: Hash, s: State, pc: Pc)
    requires |s.shards| > 0
  {
    match pc
    case Exec(_, Scan(Export(at, got)), phase) =>
      phase.WantGlobal? || Collecting(hash, s, at, got, Visited(phase, |s.shards|))
    case WantSwap(at, got) => at <= s.now && SameAt(got, s.model, at)
    case Swapping(at, got) => at <= s.now && SameAt(got, s.model, at)
    case _ => true
  }

  /** A KEYS in progress: of the keys it has looked at it lists those that were live then, and it has looked at
      every live key of the shards it has visited. */
  ghost predicate Listing(hash: Hash, s: State, since: Time, read: map<Key, Time>, listed: set<Key>, done: nat)
    requires |s.shards| > 0
  {
    && since <= s.now
    && (forall k :: k in read ==> since <= read[k] <= s.now)
    && (forall k :: k in listed <==> k in read && Look(s.model, k, read[k]).Some?)
    && (forall k :: Route(hash, k, |s.shards|) < done && Look(s.model, k, s.now).Some? ==> k in read)
  }

  ghost predicate TaskListing(hash: Hash, s: State, pc: Pc)
    requires |s.shards| > 0
  {
    match pc
    case Exec(_, Scan(ListKeys(since, read, listed)), phase) =>
      phase.WantGlobal? || Listing(hash, s, since, read, listed, Visited(phase, |s.shards|))
    case _ => true
  }

  /** How many of the keys, each visited at its own time, are live then and were not listed before. */
  function RemovedBy(m: Store, keys: seq<Key>, times: seq<Time>): (n: nat)
    requires |keys| == |times|
  {
    if |keys| == 0 then 0
    else
      var last := |keys| - 1;
      RemovedBy(m, keys[..last], times[..last])
        + if keys[last] !in keys[..last] && Look(m, keys[last], times[last]).Some? then 1 else 0
  }

  /** A DEL in progress has counted the keys it has removed from the store it found. */
  predicate Removing(s: State, owner: Owner, keys: seq<Key>, done: nat) {
    && owner.Writer? && done <= |keys|
    && |owner.times| == done && Clocks(owner.times, 0, s.now)
    && owner.removed == RemovedBy(s.committed, keys[..done], owner.times)
  }

  predicate TaskRemoving(s: State, pc: Pc) {
    (pc.Exec? && pc.owner.Writer? && pc.job.Keyed? && pc.job.command.Del?
     && Visited(pc.phase, |pc.job.keys|) < |pc.job.keys|)
    ==> Removing(s, pc.owner, pc.job.keys, Visited(pc.phase, |pc.job.keys|))
  }

  /** What a task has read or counted so far. */
  ghost predicate TaskResult(hash: Hash, s: State, pc: Pc)
    requires |s.shards| > 0
  {
    TaskExport(hash, s, pc) && TaskListing(hash, s, pc) && TaskRemoving(s, pc)
  }

  ghost predicate Results(hash: Hash, s: State)
    requires |s.shards| > 0
  {
    forall t :: 0 <= t < |s.tasks| ==> TaskResult(hash, s, s.tasks[t])
  }

  ghost predicate Inv(hash: Hash, s: State) {
    && Shape(s)
    && Exclusion(hash, s)
    && Stored(hash, s)
    && Counter(hash, s)
    && LogAndStore(hash, s)
    && Results(hash, s)
  }

  // ------------------------------------------------------------ initial state

  lemma InitialInv(hash: Hash, s: State)
    requires Initial(s)
    ensures Inv(hash, s)
  {
    FlushRepresents(hash, |s.shards|, s.now);
    SumZero(s.counted);
    EmptyAgrees(s.now, 0);
    assert [] + Logged(s.history) == [];
  }

  // ------------------------------------------------------------------- time

  lemma TickInv(hash: Hash, s: State, later: Time)
    requires Inv(hash, s) && s.now <= later
    ensures Inv(hash, s.(now := later))
  {
    hide Represents, Agreement, InOrder, TaskResult, TaskLog, Counter;
    var n := s.(now := later);
    RepresentsLater(hash, s.shards, s.model, s.now, later);
    InOrderLater(s.history, s.baseAt, s.now, later);
    InOrderLater(s.executed, s.startAt, s.now, later);
    CounterLater(hash, s, later);
    forall t | 0 <= t < |n.tasks| ensures TaskResult(hash, n, n.tasks[t]) && TaskLog(hash, n, n.tasks[t]) {
      assert TaskResult(hash, s, s.tasks[t]) && TaskLog(hash, s, s.tasks[t]);
      TaskLater(hash, s, s.tasks[t], later);
    }
  }

  lemma CounterLater(hash: Hash, s: State, later: Time)
    requires Shape(s) && Counter(hash, s)
    ensures Counter(hash, s.(now := later))
  {
    hide Uncounted, Sum;
    var n := s.(now := later);
    forall x | 0 <= x < |n.shards| && AllCounted(hash, n, x) ensures n.counted[x] == |n.shards[x]| {
      assert AllCounted(hash, s, x);
    }
    forall t | 0 <= t < |n.tasks| ensures RemembersCount(hash, n, n.tasks[t]) {
      assert RemembersCount(hash, s, s.tasks[t]);
    }
  }

  lemma TaskLater(hash: Hash, s: State, pc: Pc, later: Time)
    requires |s.shards| > 0 && s.now <= later && TaskResult(hash, s, pc) && TaskLog(hash, s, pc)
    ensures TaskResult(hash, s.(now := later), pc) && TaskLog(hash, s.(now := later), pc)
  {
    ListingLater(hash, s, later);
    hide Represents, Look, Partial, InOrder, Listing, RemovedBy, PendingOf, Visited;
  }

  lemma ListingLater(hash: Hash, s: State, later: Time)
    requires |s.shards| > 0 && s.now <= later
    ensures forall since, read, listed, done :: Listing(hash, s, since, read, listed, done)
              ==> Listing(hash, s.(now := later), since, read, listed, done)
  {
    hide Route;
  }

  lemma InOrderLater(history: seq<Applied>, from: Time, until: Time, later: Time)
    requires InOrder(history, from, until) && until <= later
    ensures InOrder(history, from, later)
  {
  }
}
