/** One task at work while every other is idle: a write, a purge and a rewrite run to their ends and do what they are for. */
module Alone {
  import opened Clock
  import opened Commands
  import opened Reference
  import opened Shards
  import opened LogCodec
  import opened Replay
  import opened Protocol
  import opened Invariants
  import opened Reachability
  import opened Guarantees
  import opened Counting

  /** The task's moves, one after the other and each possible when its turn comes, lead from `s` to `n`. */
  ghost predicate Plays(hash: Hash, s: State, t: nat, moves: seq<Move>, n: State)
    decreases |moves|
  {
    if |moves| == 0 then n == s
    else CanAct(hash, s, Step(t, moves[0])) && Plays(hash, Apply(hash, s, Step(t, moves[0])), t, moves[1..], n)
  }

  /** Where such moves lead is reachable too. */
  lemma {:induction false} PlaysReach(hash: Hash, s: State, t: nat, moves: seq<Move>, n: State)
    requires Reachable(hash, s) && Plays(hash, s, t, moves, n)
    ensures Reachable(hash, n)
    decreases |moves|
  {
    hide Shape, Enabled, Apply, Reachable;
    if |moves| == 0 {
    } else {
      ReachOn(hash, s, Step(t, moves[0]));
      PlaysReach(hash, Apply(hash, s, Step(t, moves[0])), t, moves[1..], n);
    }
  }

  lemma ReachOn(hash: Hash, s: State, a: Action)
    requires Reachable(hash, s) && CanAct(hash, s, a)
    ensures Reachable(hash, Apply(hash, s, a))
  {
    hide Shape, Enabled, Apply, Initial;
    var states, actions :| Run(hash, states, actions) && s == states[|actions|];
    var n := Apply(hash, s, a);
    assert Run(hash, states + [n], actions + [a]);
    assert (states + [n])[|actions + [a]|] == n;
  }

  lemma {:induction false} PlaysOn(hash: Hash, s: State, t: nat, a: seq<Move>, m: State, b: seq<Move>, n: State)
    requires Plays(hash, s, t, a, m) && Plays(hash, m, t, b, n)
    ensures Plays(hash, s, t, a + b, n)
    decreases |a|
  {
    hide Shape, Enabled, Apply;
    if |a| == 0 {
      assert a + b == b;
    } else {
      PlaysOn(hash, Apply(hash, s, Step(t, a[0])), t, a[1..], m, b, n);
      assert (a + b)[1..] == a[1..] + b;
    }
  }

  /** A state within the invariant in which every task but `t` is idle. */
  ghost predicate Only(hash: Hash, s: State, t: nat) {
    && Inv(hash, s) && t < |s.tasks|
    && forall u :: 0 <= u < |s.tasks| && u != t ==> s.tasks[u].Idle?
  }

  lemma OnlyShape(hash: Hash, s: State, t: nat)
    requires Only(hash, s, t)
    ensures Shape(s) && |s.counted| == |s.shards| && t < |s.tasks|
  {
  }

  /** A move of that task keeps it so. */
  lemma OnlyOn(hash: Hash, s: State, t: nat, move: Move)
    requires Only(hash, s, t) && CanAct(hash, s, Step(t, move))
    requires var n := Apply(hash, s, Step(t, move));
             |n.tasks| == |s.tasks| && n.tasks == s.tasks[t := n.tasks[t]]
    ensures Only(hash, Apply(hash, s, Step(t, move)), t)
  {
    StepInv(hash, s, Step(t, move));
    hide Inv, Shape, Enabled, Apply;
  }

  // ------------------------------------------------------------ small steps

  /** Nobody else holds anything, so a lock is granted at once. */
  lemma AcquireAlone(hash: Hash, s: State, t: nat)
    requires Only(hash, s, t) && Shape(s) && Wanted(hash, |s.shards|, s.tasks[t]).Some?
    ensures CanAct(hash, s, Step(t, Acquire))
    ensures Apply(hash, s, Step(t, Acquire)) == Moved(s, t, Granted(s.tasks[t], |s.shards|, s.now))
    ensures Only(hash, Moved(s, t, Granted(s.tasks[t], |s.shards|, s.now)), t)
  {
    OnlyShape(hash, s, t);
    GrantAlone(hash, s, t);
    hide Inv, Shape, Wanted, Granted, Grantable;
    assert CanAct(hash, s, Step(t, Acquire));
    OnlyOn(hash, s, t, Acquire);
  }

  lemma GrantAlone(hash: Hash, s: State, t: nat)
    requires Only(hash, s, t) && Shape(s)
    ensures forall lock, mode :: Grantable(hash, s, t, lock, mode)
  {
    hide Inv;
  }

  /** A visit made alone. */
  predicate Visiting(pc: Pc, count: nat, i: nat) {
    && pc.Exec? && i < Visits(pc.job, count) && pc.phase == AtShard(i)
    && !(pc.job.Scan? && pc.job.kind.ListKeys?)
  }

  function Round(): seq<Move> {
    [Acquire, Mutate, Count]
  }

  function Rounds(visits: nat): seq<Move> {
    if visits == 0 then [] else Round() + Rounds(visits - 1)
  }

  /** What any move of a job under way leaves as it is. */
  predicate Beside(s: State, n: State, t: nat) {
    && t < |s.tasks| == |n.tasks| && n.tasks == s.tasks[t := n.tasks[t]]
    && |n.shards| == |s.shards| && n.now == s.now && n.log == s.log && n.start == s.start
  }

  /** The same job for the same owner, with more collected. */
  predicate SameWork(a: Pc, b: Pc) {
    && a.Exec? && b.Exec?
    && (match a.owner
        case Plain => b.owner == Plain
        case Rewriter => b.owner == Rewriter
        case Writer(logged, _, _) => b.owner.Writer? && b.owner.logged == logged)
    && (match a.job
        case Scan(Export(at, _)) => b.job.Scan? && b.job.kind.Export? && b.job.kind.at == at
        case _ => b.job == a.job)
  }

  /** A client's last visit enters its command among those executed. */
  function Finishing(s: State, pc: Pc, i: nat): seq<Applied>
    requires pc.Exec?
  {
    if pc.owner.Writer? && i + 1 == Visits(pc.job, |s.shards|)
    then [Applied(CommandOf(pc.job), pc.owner.logged, s.now)] else []
  }

  /** The state after the visits up to `i`. */
  ghost predicate AfterRound(s: State, n: State, t: nat, i: nat) {
    && Beside(s, n, t) && SameWork(s.tasks[t], n.tasks[t])
    && n.tasks[t].phase == AfterVisit(s.tasks[t].job, i + 1, |s.shards|)
    && n.executed == s.executed + Finishing(s, s.tasks[t], i)
  }

  lemma MutateCan(hash: Hash, s: State, t: nat, i: nat)
    requires Shape(s) && |s.counted| == |s.shards| && t < |s.tasks|
    requires s.tasks[t].Exec? && s.tasks[t].phase == InShard(i)
    requires !(s.tasks[t].job.Scan? && s.tasks[t].job.kind.ListKeys?)
    ensures CanAct(hash, s, Step(t, Mutate)) && Apply(hash, s, Step(t, Mutate)) == MutateState(hash, s, t)
  {
    hide MutateState, ShardOf, CanLog, JobOf, PlainJob;
  }

  lemma MutateDoes(hash: Hash, s: State, t: nat, i: nat)
    requires Shape(s) && t < |s.tasks| && s.tasks[t].Exec? && s.tasks[t].phase == InShard(i)
    ensures var n := MutateState(hash, s, t);
            && Beside(s, n, t) && SameWork(s.tasks[t], n.tasks[t])
            && n.tasks[t].phase.Mutated? && n.tasks[t].phase.i == i
            && n.executed == s.executed + Finishing(s, s.tasks[t], i)
  {
    hide VisitShard, VisitModel, ShardOf, CanLog, JobOf, PlainJob;
  }

  lemma CountCan(hash: Hash, s: State, t: nat)
    requires Shape(s) && |s.counted| == |s.shards| && t < |s.tasks| && s.tasks[t].Exec? && s.tasks[t].phase.Mutated?
    ensures CanAct(hash, s, Step(t, Count)) && Apply(hash, s, Step(t, Count)) == CountState(hash, s, t)
  {
    hide CountState, CanLog, JobOf, PlainJob;
  }

  lemma CountDoes(hash: Hash, s: State, t: nat, i: nat)
    requires Shape(s) && |s.counted| == |s.shards| && t < |s.tasks|
    requires s.tasks[t].Exec? && s.tasks[t].phase.Mutated? && s.tasks[t].phase.i == i
    ensures var n := CountState(hash, s, t);
            && Beside(s, n, t) && n.executed == s.executed
            && n.tasks[t] == s.tasks[t].(phase := AfterVisit(s.tasks[t].job, i + 1, |s.shards|))
  {
    hide ShardOf, CanLog, JobOf, PlainJob, Recount;
  }

  lemma VisitGranted(hash: Hash, s: State, t: nat, i: nat)
    requires Shape(s) && t < |s.tasks| && Visiting(s.tasks[t], |s.shards|, i)
    ensures Wanted(hash, |s.shards|, s.tasks[t]).Some?
    ensures Granted(s.tasks[t], |s.shards|, s.now) == s.tasks[t].(phase := InShard(i))
  {
    hide CanLog, JobOf, PlainJob, ShardOf;
  }

  lemma SameVisits(a: Pc, b: Pc, count: nat)
    requires SameWork(a, b)
    ensures Visits(b.job, count) == Visits(a.job, count)
    ensures forall i: nat :: AfterVisit(b.job, i, count) == AfterVisit(a.job, i, count)
    ensures CommandOf(a.job) == CommandOf(b.job)
  {
  }

  /** One visit leads from `s` to `n`. */
  ghost predicate RoundDone(hash: Hash, s: State, t: nat, i: nat, n: State) {
    Plays(hash, s, t, Round(), n) && Only(hash, n, t) && AfterRound(s, n, t, i)
  }

  lemma RoundAlone(hash: Hash, s: State, t: nat, i: nat) returns (n: State)
    requires Only(hash, s, t) && Visiting(s.tasks[t], |s.shards|, i)
    ensures RoundDone(hash, s, t, i, n)
  {
    hide Inv, Shape, Enabled, Apply, Only, Wanted, Granted, MutateState, CountState, Visits, AfterVisit;
    OnlyShape(hash, s, t);
    VisitGranted(hash, s, t, i);
    AcquireAlone(hash, s, t);
    var a := Moved(s, t, s.tasks[t].(phase := InShard(i)));
    OnlyShape(hash, a, t);
    MutateCan(hash, a, t, i);
    MutateDoes(hash, a, t, i);
    OnlyOn(hash, a, t, Mutate);
    var b := MutateState(hash, a, t);
    SameVisits(a.tasks[t], b.tasks[t], |s.shards|);
    OnlyShape(hash, b, t);
    CountCan(hash, b, t);
    CountDoes(hash, b, t, i);
    OnlyOn(hash, b, t, Count);
    n := CountState(hash, b, t);
    assert Round()[1..] == [Mutate, Count] && [Mutate, Count][1..] == [Count] && [Count][1..] == [];
    assert Plays(hash, n, t, [], n) && Plays(hash, b, t, [Count], n) && Plays(hash, a, t, [Mutate, Count], n);
  }

  lemma AllVisits(s: State, m: State, n: State, t: nat, i: nat)
    requires t < |s.tasks| && Visiting(s.tasks[t], |s.shards|, i) && AfterRound(s, m, t, i)
    ensures Visits(m.tasks[t].job, |m.shards|) == Visits(s.tasks[t].job, |s.shards|)
    ensures i + 1 < Visits(s.tasks[t].job, |s.shards|) ==> Visiting(m.tasks[t], |m.shards|, i + 1)
    ensures i + 1 < Visits(s.tasks[t].job, |s.shards|) && AfterRound(m, n, t, Visits(s.tasks[t].job, |s.shards|) - 1)
        ==> AfterRound(s, n, t, Visits(s.tasks[t].job, |s.shards|) - 1)
  {
  }

  /** The task is about to make visit `i`, and `more` after it. */
  ghost predicate Due(s: State, t: nat, i: nat, more: nat) {
    t < |s.tasks| && Visiting(s.tasks[t], |s.shards|, i) && i + more + 1 == Visits(s.tasks[t].job, |s.shards|)
  }

  /** All these visits lead from `s` to `n`. */
  ghost predicate Toured(hash: Hash, s: State, t: nat, i: nat, more: nat, n: State) {
    Plays(hash, s, t, Rounds(more + 1), n) && Only(hash, n, t) && AfterRound(s, n, t, i + more)
  }

  lemma LastRound(hash: Hash, s: State, t: nat, i: nat, n: State)
    requires RoundDone(hash, s, t, i, n)
    ensures Toured(hash, s, t, i, 0, n)
  {
    hide Plays, Only, AfterRound;
    assert Round() + Rounds(0) == Round();
  }

  lemma MoreRounds(hash: Hash, s: State, t: nat, i: nat, m: State, more: nat, n: State)
    requires Due(s, t, i, more + 1) && RoundDone(hash, s, t, i, m) && Toured(hash, m, t, i + 1, more, n)
    ensures Toured(hash, s, t, i, more + 1, n)
  {
    hide Plays, Only, AfterRound, Visits, Visiting;
    PlaysOn(hash, s, t, Round(), m, Rounds(more + 1), n);
    AllVisits(s, m, n, t, i);
  }

  lemma NextDue(hash: Hash, s: State, t: nat, i: nat, more: nat, m: State)
    requires Due(s, t, i, more + 1) && RoundDone(hash, s, t, i, m)
    ensures Only(hash, m, t) && Due(m, t, i + 1, more)
  {
    AllVisits(s, m, m, t, i);
    hide Plays, Only, Visits, Visiting;
  }

  lemma DueRound(hash: Hash, s: State, t: nat, i: nat, more: nat) returns (n: State)
    requires Only(hash, s, t) && Due(s, t, i, more)
    ensures RoundDone(hash, s, t, i, n)
  {
    hide Only, RoundDone;
    n := RoundAlone(hash, s, t, i);
  }

  /** All the visits still to make. */
  lemma {:induction false} RoundsAlone(hash: Hash, s: State, t: nat, i: nat, more: nat) returns (n: State)
    requires Only(hash, s, t) && Due(s, t, i, more)
    ensures Toured(hash, s, t, i, more, n)
    decreases more
  {
    hide Only, Due, RoundDone, Toured;
    if more == 0 {
      n := DueRound(hash, s, t, i, 0);
      LastRound(hash, s, t, i, n);
    } else {
      var m := DueRound(hash, s, t, i, more);
      NextDue(hash, s, t, i, more - 1, m);
      n := RoundsAlone(hash, m, t, i + 1, more - 1);
      MoreRounds(hash, s, t, i, m, more - 1, n);
    }
  }

  // ------------------------------------------------------------------ a write

  lemma BeginCan(hash: Hash, s: State, t: nat, c: Command)
    requires Only(hash, s, t) && s.tasks[t].Idle? && CanLog(c)
    ensures CanAct(hash, s, Step(t, BeginWrite(c)))
    ensures Apply(hash, s, Step(t, BeginWrite(c))) == Moved(s, t, WantBarrier(c))
    ensures Only(hash, Moved(s, t, WantBarrier(c)), t)
  {
    hide CanLog, Inv, Shape;
    OnlyShape(hash, s, t);
    OnlyOn(hash, s, t, BeginWrite(c));
  }

  lemma AppendCan(hash: Hash, s: State, t: nat)
    requires Only(hash, s, t) && s.tasks[t].Appending? && CanLog(s.tasks[t].command)
    ensures CanAct(hash, s, Step(t, Append(true)))
    ensures var c := s.tasks[t].command;
            var n := Moved(s, t, Exec(Writer(s.now, [], 0), JobOf(c), WantGlobal)).(log := s.log + [Absolute(c, s.now)]);
            Apply(hash, s, Step(t, Append(true))) == n && Only(hash, n, t)
  {
    hide CanLog, Inv, Shape, JobOf, Absolute;
    OnlyShape(hash, s, t);
    OnlyOn(hash, s, t, Append(true));
  }

  lemma ReplyCan(hash: Hash, s: State, t: nat)
    requires Only(hash, s, t) && s.tasks[t].Replying?
    ensures CanAct(hash, s, Step(t, Reply))
    ensures Apply(hash, s, Step(t, Reply)) == Moved(s, t, Idle) && Only(hash, Moved(s, t, Idle), t)
  {
    hide Inv, Shape;
    OnlyShape(hash, s, t);
    OnlyOn(hash, s, t, Reply);
  }

  /** The start of a write: both locks, the record, the way into the store. */
  lemma StartWrite(hash: Hash, s: State, t: nat, c: Command) returns (n: State)
    requires Only(hash, s, t) && s.tasks[t].Idle? && CanLog(c)
    ensures Plays(hash, s, t, [BeginWrite(c), Acquire, Acquire, Append(true), Acquire], n) && Only(hash, n, t)
    ensures n == s.(log := s.log + [Absolute(c, s.now)],
                    tasks := s.tasks[t := Exec(Writer(s.now, [], 0), JobOf(c), AfterVisit(JobOf(c), 0, |s.shards|))])
  {
    hide CanLog, Only, Apply, Enabled, Shape, JobOf, Absolute, AfterVisit, WellFormedPc;
    OnlyShape(hash, s, t);
    HasVisits(c, |s.shards|);
    BeginCan(hash, s, t, c);
    var a := Moved(s, t, WantBarrier(c));
    OnlyShape(hash, a, t);
    AcquireAlone(hash, a, t);
    var b := Moved(a, t, WantEngine(c));
    OnlyShape(hash, b, t);
    AcquireAlone(hash, b, t);
    var d := Moved(b, t, Appending(c));
    AppendCan(hash, d, t);
    var e := Moved(d, t, Exec(Writer(s.now, [], 0), JobOf(c), WantGlobal)).(log := s.log + [Absolute(c, s.now)]);
    OnlyShape(hash, e, t);
    JobGranted(c, |s.shards|, s.now);
    AcquireAlone(hash, e, t);
    n := Moved(e, t, Granted(e.tasks[t], |e.shards|, e.now));
    assert n.tasks == s.tasks[t := n.tasks[t]];
    FiveMoves(hash, s, t, BeginWrite(c), a, Acquire, b, Acquire, d, Append(true), e, Acquire, n);
  }

  lemma JobGranted(c: Command, count: nat, now: Time)
    requires CanLog(c)
    ensures Granted(Exec(Writer(now, [], 0), JobOf(c), WantGlobal), count, now)
         == Exec(Writer(now, [], 0), JobOf(c), AfterVisit(JobOf(c), 0, count))
  {
    hide AfterVisit;
  }

  ghost predicate Makes(hash: Hash, s: State, t: nat, move: Move, n: State) {
    CanAct(hash, s, Step(t, move)) && Apply(hash, s, Step(t, move)) == n
  }

  lemma FiveMoves(hash: Hash, s: State, t: nat, a: Move, sa: State, b: Move, sb: State, c: Move, sc: State,
                  d: Move, sd: State, e: Move, n: State)
    requires Makes(hash, s, t, a, sa) && Makes(hash, sa, t, b, sb) && Makes(hash, sb, t, c, sc)
    requires Makes(hash, sc, t, d, sd) && Makes(hash, sd, t, e, n)
    ensures Plays(hash, s, t, [a, b, c, d, e], n)
  {
    hide Apply, Enabled, Shape;
    assert Plays(hash, n, t, [], n);
    assert [a, b, c, d, e][1..] == [b, c, d, e] && [b, c, d, e][1..] == [c, d, e] && [c, d, e][1..] == [d, e];
    assert [d, e][1..] == [e] && [e][1..] == [];
    assert Plays(hash, sd, t, [e], n) && Plays(hash, sc, t, [d, e], n) && Plays(hash, sb, t, [c, d, e], n);
  }

  /** A client's moves for one command. */
  function WriteMoves(c: Command, visits: nat): seq<Move> {
    [BeginWrite(c), Acquire, Acquire, Append(true), Acquire] + Rounds(visits) + [Release, Reply]
  }

  lemma ReleaseDoes(hash: Hash, s: State, t: nat)
    requires Only(hash, s, t) && s.tasks[t].Exec? && s.tasks[t].phase.Finished?
    ensures CanAct(hash, s, Step(t, Release))
    ensures var n := Apply(hash, s, Step(t, Release));
            && Only(hash, n, t) && Beside(s, n, t) && n.executed == s.executed
            && n.tasks[t] == ReleaseState(s, t).tasks[t] && (s.tasks[t].owner.Writer? ==> n.tasks[t] == Replying)
  {
    hide Inv, Shape, CanLog, JobOf, PlainJob;
    OnlyShape(hash, s, t);
    assert CanAct(hash, s, Step(t, Release));
    OnlyOn(hash, s, t, Release);
  }

  /** The end of a write: its locks dropped, its client answered. */
  lemma EndWrite(hash: Hash, s: State, t: nat) returns (n: State)
    requires Only(hash, s, t) && s.tasks[t].Exec? && s.tasks[t].phase.Finished? && s.tasks[t].owner.Writer?
    ensures Plays(hash, s, t, [Release, Reply], n) && Only(hash, n, t)
    ensures Beside(s, n, t) && n.tasks[t] == Idle && n.executed == s.executed
  {
    ReleaseDoes(hash, s, t);
    var a := Apply(hash, s, Step(t, Release));
    ReplyCan(hash, a, t);
    n := Moved(a, t, Idle);
    hide Apply, Enabled, Shape, Only, ReleaseState;
    assert [Release, Reply][1..] == [Reply] && [Reply][1..] == [];
    assert Plays(hash, n, t, [], n) && Plays(hash, a, t, [Reply], n);
  }

  lemma HasVisits(c: Command, count: nat)
    requires CanLog(c) && count > 0
    ensures IsKeyed(c) || c.FlushDb?
    ensures CommandOf(JobOf(c)) == c && Visits(JobOf(c), count) > 0
    ensures forall owner :: Visiting(Exec(owner, JobOf(c), AfterVisit(JobOf(c), 0, count)), count, 0)
  {
  }

  /** A write alone: every move is possible in turn, and at the end the log has its record, the history has it
      applied, and every task is as before. */
  lemma WriteRuns(hash: Hash, s: State, t: nat, c: Command) returns (n: State)
    requires Only(hash, s, t) && s.tasks[t].Idle? && CanLog(c)
    ensures |s.shards| > 0
    ensures Plays(hash, s, t, WriteMoves(c, Visits(JobOf(c), |s.shards|)), n) && Only(hash, n, t)
    ensures n.tasks == s.tasks && n.now == s.now && |n.shards| == |s.shards| && n.start == s.start
    ensures n.log == s.log + [Absolute(c, s.now)] && n.executed == s.executed + [Applied(c, s.now, s.now)]
  {
    hide CanLog, Only, Apply, Enabled, Plays, JobOf, Absolute, AfterVisit, Visits, CommandOf, Visiting;
    OnlyShape(hash, s, t);
    var a := StartWrite(hash, s, t, c);
    HasVisits(c, |s.shards|);
    var visits := Visits(JobOf(c), |s.shards|);
    var b := RoundsAlone(hash, a, t, 0, visits - 1);
    LastVisit(JobOf(c), |s.shards|);
    n := EndWrite(hash, b, t);
    PlaysOn(hash, s, t, [BeginWrite(c), Acquire, Acquire, Append(true), Acquire], a, Rounds(visits), b);
    PlaysOn(hash, s, t, [BeginWrite(c), Acquire, Acquire, Append(true), Acquire] + Rounds(visits), b, [Release, Reply], n);
  }

  lemma LastVisit(job: Job, count: nat)
    ensures AfterVisit(job, Visits(job, count), count) == Finished
  {
  }

  ghost predicate AllIdle(s: State) {
    forall t :: 0 <= t < |s.tasks| ==> s.tasks[t].Idle?
  }

  lemma IdleOnly(hash: Hash, s: State, t: nat)
    requires Reachable(hash, s) && AllIdle(s) && t < |s.tasks|
    ensures Only(hash, s, t)
  {
    ReachableInv(hash, s);
    hide Inv, Reachable;
  }

  /** With everybody idle the shards are the executed history, and the counter their number of entries. */
  lemma IdleStands(hash: Hash, s: State)
    requires Reachable(hash, s) && AllIdle(s)
    ensures |s.shards| > 0 && s.keyCount == Total(s.shards)
    ensures Represents(hash, s.shards, Fold(s.start, s.executed), s.now)
  {
    hide Reachable, Represents, Fold, Agreement, InOrder, Logged, Total;
    LogMatchesStore(hash, s);
    CountExact(hash, s);
  }

  /** What a write alone leaves: its record at the end of the log, the command applied to the store the clients
      see, an exact counter, and every task as it was. */
  ghost predicate Written(hash: Hash, s: State, c: Command, n: State) {
    && n.tasks == s.tasks && n.now == s.now && |n.shards| == |s.shards| > 0
    && n.log == s.log + [Absolute(c, s.now)]
    && n.executed == s.executed + [Applied(c, s.now, s.now)]
    && Represents(hash, n.shards, Next(Fold(s.start, s.executed), c, s.now), s.now)
    && n.keyCount == Total(n.shards)
  }

  /** From any reachable state with everybody idle, any write a client can send runs to its end, and is written. */
  lemma LoneWrite(hash: Hash, s: State, t: nat, c: Command)
    requires Reachable(hash, s) && AllIdle(s) && t < |s.tasks| && IsWrite(c) && Decodable(c)
    ensures IsKeyed(c) || c.FlushDb?
    ensures exists n :: Plays(hash, s, t, WriteMoves(c, Visits(JobOf(c), |s.shards|)), n) && Written(hash, s, c, n)
  {
    assert CanLog(c);
    hide Reachable, Only, Plays, CanLog, Represents, Next, Total, Absolute, JobOf, Visits;
    IdleOnly(hash, s, t);
    OnlyShape(hash, s, t);
    HasVisits(c, |s.shards|);
    var n := WriteRuns(hash, s, t, c);
    PlaysReach(hash, s, t, WriteMoves(c, Visits(JobOf(c), |s.shards|)), n);
    IdleStands(hash, n);
    FoldSnoc(s.start, s.executed, Applied(c, s.now, s.now));
  }

  lemma FoldSnoc(base: Store, history: seq<Applied>, last: Applied)
    ensures Fold(base, history + [last]) == Next(Fold(base, history), last.command, last.at)
  {
    hide Next;
    assert (history + [last])[..|history|] == history;
  }

  // --------------------------------------------------------------- a rewrite

  /** The rewrite worker's moves once the log has grown large. */
  function RewriteMoves(count: nat): seq<Move> {
    [BeginRewrite, Acquire, SizeRead(true), Acquire, Acquire] + Rounds(count) + [Release, Acquire, Swap(true)]
  }

  lemma RewriteBegins(hash: Hash, s: State, t: nat)
    requires Only(hash, s, t) && s.tasks[t].Idle?
    ensures Makes(hash, s, t, BeginRewrite, Moved(s, t, WantSize)) && Only(hash, Moved(s, t, WantSize), t)
  {
    hide Inv, Shape;
    OnlyShape(hash, s, t);
    OnlyOn(hash, s, t, BeginRewrite);
  }

  lemma LargeRead(hash: Hash, s: State, t: nat)
    requires Only(hash, s, t) && s.tasks[t].ReadingSize?
    ensures Makes(hash, s, t, SizeRead(true), Moved(s, t, WantRewrite)) && Only(hash, Moved(s, t, WantRewrite), t)
  {
    hide Inv, Shape;
    OnlyShape(hash, s, t);
    OnlyOn(hash, s, t, SizeRead(true));
  }

  /** The start of a rewrite: the size, the barrier, the way into the store at one instant. */
  lemma StartRewrite(hash: Hash, s: State, t: nat) returns (n: State)
    requires Only(hash, s, t) && s.tasks[t].Idle?
    ensures Plays(hash, s, t, [BeginRewrite, Acquire, SizeRead(true), Acquire, Acquire], n) && Only(hash, n, t)
    ensures n == s.(tasks := s.tasks[t := Exec(Rewriter, Scan(Export(s.now, map[])), AtShard(0))])
  {
    hide Only, Apply, Enabled, Shape, WellFormedPc;
    OnlyShape(hash, s, t);
    RewriteBegins(hash, s, t);
    var a := Moved(s, t, WantSize);
    OnlyShape(hash, a, t);
    AcquireAlone(hash, a, t);
    var b := Moved(a, t, ReadingSize);
    LargeRead(hash, b, t);
    var d := Moved(b, t, WantRewrite);
    OnlyShape(hash, d, t);
    AcquireAlone(hash, d, t);
    var e := Moved(d, t, Exec(Rewriter, Scan(Export(s.now, map[])), WantGlobal));
    OnlyShape(hash, e, t);
    AcquireAlone(hash, e, t);
    SomeShard(e);
    n := Moved(e, t, Exec(Rewriter, Scan(Export(s.now, map[])), AtShard(0)));
    assert n.tasks == s.tasks[t := n.tasks[t]];
    FiveMoves(hash, s, t, BeginRewrite, a, Acquire, b, SizeRead(true), d, Acquire, e, Acquire, n);
  }

  lemma SomeShard(s: State)
    requires Shape(s)
    ensures |s.shards| > 0
  {
  }

  /** The end of a rewrite: the engine taken, the files swapped. */
  lemma EndRewrite(hash: Hash, s: State, t: nat) returns (n: State)
    requires Reachable(hash, s) && Only(hash, s, t) && s.tasks[t].Exec? && s.tasks[t].phase.Finished?
    requires s.tasks[t].owner.Rewriter? && s.tasks[t].job.Scan? && s.tasks[t].job.kind.Export?
    ensures Plays(hash, s, t, [Release, Acquire, Swap(true)], n)
    ensures OneEach(n.log, Fold(s.start, s.executed), s.tasks[t].job.kind.at) && n.history == []
    ensures n.tasks == s.tasks[t := Idle] && n.shards == s.shards && n.now == s.now
    ensures n.start == s.start && n.executed == s.executed
  {
    hide Apply, Enabled, Shape, Only, ReleaseState, Reachable, OneEach, Fold, WellFormedPc, Inv;
    ReleaseDoes(hash, s, t);
    ExportReleased(hash, s, t);
    var Export(at, got) := s.tasks[t].job.kind;
    var a := Moved(s, t, WantSwap(at, got));
    OnlyShape(hash, a, t);
    AcquireAlone(hash, a, t);
    var b := Moved(a, t, Swapping(at, got));
    ReachOn(hash, s, Step(t, Release));
    ReachOn(hash, a, Step(t, Acquire));
    n := SwapAlone(hash, b, t);
    assert n.tasks == s.tasks[t := Idle];
    assert [Release, Acquire, Swap(true)][1..] == [Acquire, Swap(true)] && [Acquire, Swap(true)][1..] == [Swap(true)];
    assert Plays(hash, a, t, [Acquire, Swap(true)], n);
  }

  lemma SwapAlone(hash: Hash, s: State, t: nat) returns (n: State)
    requires Reachable(hash, s) && t < |s.tasks| && s.tasks[t].Swapping?
    ensures Plays(hash, s, t, [Swap(true)], n)
    ensures OneEach(n.log, Fold(s.start, s.executed), s.tasks[t].at) && n.history == []
    ensures n.tasks == s.tasks[t := Idle] && n.shards == s.shards && n.now == s.now
    ensures n.start == s.start && n.executed == s.executed
  {
    hide Apply, Enabled, Shape, Reachable, OneEach, Fold;
    SwapRewrites(hash, s, t);
    n := Apply(hash, s, Step(t, Swap(true)));
    assert [Swap(true)][1..] == [];
    assert Plays(hash, n, t, [], n);
  }

  lemma ExportReleased(hash: Hash, s: State, t: nat)
    requires Only(hash, s, t) && s.tasks[t].Exec? && s.tasks[t].phase.Finished?
    requires s.tasks[t].owner.Rewriter? && s.tasks[t].job.Scan? && s.tasks[t].job.kind.Export?
    requires CanAct(hash, s, Step(t, Release))
    ensures var Export(at, got) := s.tasks[t].job.kind;
            Apply(hash, s, Step(t, Release)) == Moved(s, t, WantSwap(at, got))
  {
    hide Inv, Shape;
  }

  /** What a rewrite alone leaves: a log of one restoring command for each key live now, and all else as it was. */
  ghost predicate Rewrote(s: State, n: State) {
    && n.tasks == s.tasks && n.now == s.now && n.executed == s.executed && n.history == []
    && OneEach(n.log, Fold(s.start, s.executed), s.now)
  }

  /** From any reachable state with everybody idle, a rewrite runs to its end, and the log is one restoring command
      for each live key. */
  lemma LoneRewrite(hash: Hash, s: State, t: nat)
    requires Reachable(hash, s) && AllIdle(s) && t < |s.tasks|
    ensures exists n :: Plays(hash, s, t, RewriteMoves(|s.shards|), n) && Rewrote(s, n)
  {
    hide Reachable, Only, Plays, Apply, Enabled, Shape, OneEach, Fold;
    IdleOnly(hash, s, t);
    var a := StartRewrite(hash, s, t);
    OnlyShape(hash, s, t);
    SomeShard(s);
    var b := RoundsAlone(hash, a, t, 0, |s.shards| - 1);
    LastVisit(a.tasks[t].job, |s.shards|);
    var first, count := [BeginRewrite, Acquire, SizeRead(true), Acquire, Acquire], |s.shards|;
    PlaysOn(hash, s, t, first, a, Rounds(count), b);
    PlaysReach(hash, s, t, first + Rounds(count), b);
    var n := EndRewrite(hash, b, t);
    assert n.tasks == s.tasks && n.executed == s.executed;
    assert Rewrote(s, n);
    PlaysOn(hash, s, t, first + Rounds(count), b, [Release, Acquire, Swap(true)], n);
  }

  // ------------------------------------------------------------------ purges

  /** A purge leaves live entries only in the shard it visits, and an export none that had expired at its instant. */
  lemma PurgedShard(hash: Hash, s: State, t: nat, i: nat)
    requires CanAct(hash, s, Step(t, Mutate)) && s.tasks[t].job.Scan? && s.tasks[t].phase == InShard(i)
    ensures i < |s.shards|
    ensures var m := Apply(hash, s, Step(t, Mutate)).shards[i];
            && (s.tasks[t].job.kind.PurgeShards? ==> forall k :: k in m <==> Look(s.shards[i], k, s.now).Some?)
            && (s.tasks[t].job.kind.Export? ==> forall k :: k in m <==> Look(s.shards[i], k, s.tasks[t].job.kind.at).Some?)
  {
    hide VisitModel, VisitOwner, Look;
  }
}
