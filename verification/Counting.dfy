/** The store's atomic key counter among tasks that change shards and count later. */
module Counting {
  import opened Shards
  import opened Protocol
  import opened Invariants
  import opened LogMoves
  import opened ShardMoves
  import opened Reachability

  /** With nobody between changing a shard and counting it, the counter is the number of entries. */
  lemma CountExact(hash: Hash, s: State)
    requires Reachable(hash, s)
    ensures Shape(s)
    ensures (forall x :: 0 <= x < |s.shards| ==> AllCounted(hash, s, x)) ==> s.keyCount == Total(s.shards)
  {
    ReachableInv(hash, s);
    hide Reachable, Exclusion, Stored, LogAndStore, Results, AllCounted;
    if forall x :: 0 <= x < |s.shards| ==> AllCounted(hash, s, x) {
      assert s.counted == Lens(s.shards);
    }
  }

  /** A task between changing a shard and counting it; FLUSHDB counts once, at its end. */
  predicate Owes(pc: Pc) {
    pc.Exec? && pc.phase.Mutated? && pc.job != Scan(Flush)
  }

  ghost function OwedAt(hash: Hash, s: State, t: nat): (x: nat)
    requires Shape(s) && t < |s.tasks| && Owes(s.tasks[t])
    ensures x < |s.shards|
  {
    ShardOf(hash, s.tasks[t].job, s.tasks[t].phase.i, |s.shards|)
  }

  /** The change of length the first `n` tasks still have to count. */
  ghost function Deltas(hash: Hash, s: State, n: nat): int
    requires Shape(s) && n <= |s.tasks|
  {
    if n == 0 then 0
    else
      var t := n - 1;
      Deltas(hash, s, t) + if Owes(s.tasks[t]) then |s.shards[OwedAt(hash, s, t)]| - s.tasks[t].phase.before else 0
  }

  /** What the counter would hold per shard once the first `n` tasks have counted. */
  ghost function Settled(hash: Hash, s: State, n: nat): (lens: seq<nat>)
    requires Shape(s) && n <= |s.tasks| && |s.counted| == |s.shards|
    ensures |lens| == |s.shards|
  {
    if n == 0 then s.counted
    else
      var t, before := n - 1, Settled(hash, s, n - 1);
      if Owes(s.tasks[t]) then before[OwedAt(hash, s, t) := |s.shards[OwedAt(hash, s, t)]|] else before
  }

  lemma {:induction false} SettledSum(hash: Hash, s: State, n: nat)
    requires Shape(s) && n <= |s.tasks| && Exclusion(hash, s) && Counter(hash, s)
    ensures Sum(Settled(hash, s, n)) == s.keyCount + Deltas(hash, s, n)
    ensures forall x :: 0 <= x < |s.shards| ==>
              Settled(hash, s, n)[x] == s.counted[x] || Settled(hash, s, n)[x] == |s.shards[x]|
    ensures forall t :: 0 <= t < n && Owes(s.tasks[t]) ==>
              Settled(hash, s, n)[OwedAt(hash, s, t)] == |s.shards[OwedAt(hash, s, t)]|
    ensures forall t :: n <= t < |s.tasks| && Owes(s.tasks[t]) ==>
              Settled(hash, s, n)[OwedAt(hash, s, t)] == s.tasks[t].phase.before
  {
    hide Exclusion, Sum, WellFormedPc, ShardOf;
    if n == 0 {
      forall t | 0 <= t < |s.tasks| && Owes(s.tasks[t]) ensures s.counted[OwedAt(hash, s, t)] == s.tasks[t].phase.before {
        assert RemembersCount(hash, s, s.tasks[t]);
      }
    } else {
      var u := n - 1;
      SettledSum(hash, s, u);
      if Owes(s.tasks[u]) {
        var x := OwedAt(hash, s, u);
        SumUpdate(Settled(hash, s, u), x, |s.shards[x]|);
        forall t | 0 <= t < |s.tasks| && t != u && Owes(s.tasks[t]) ensures OwedAt(hash, s, t) != x {
          VisitorAlone(hash, s, u, t);
        }
      }
    }
  }

  /** A FLUSHDB that has cleared a shard. */
  predicate Clearing(pc: Pc, count: nat) {
    pc.Exec? && pc.job == Scan(Flush) && Visited(pc.phase, count) > 0
  }

  /** Counter plus what is still to be counted is the number of entries, unless a FLUSHDB is clearing. */
  lemma CountConserved(hash: Hash, s: State)
    requires Reachable(hash, s)
    ensures Shape(s)
    ensures (forall t :: 0 <= t < |s.tasks| ==> !Clearing(s.tasks[t], |s.shards|))
        ==> s.keyCount + Deltas(hash, s, |s.tasks|) == Total(s.shards)
  {
    ReachableInv(hash, s);
    hide Reachable, Exclusion, Stored, LogAndStore, Results, Sum, Deltas, Settled, WellFormedPc;
    SettledSum(hash, s, |s.tasks|);
    var settled := Settled(hash, s, |s.tasks|);
    if forall t :: 0 <= t < |s.tasks| ==> !Clearing(s.tasks[t], |s.shards|) {
      forall x | 0 <= x < |s.shards| ensures settled[x] == |s.shards[x]| {
        if AllCounted(hash, s, x) {
        } else {
          var t :| 0 <= t < |s.tasks| && Uncounted(hash, |s.shards|, s.tasks[t], x);
          assert !Clearing(s.tasks[t], |s.shards|);
          assert Owes(s.tasks[t]) && OwedAt(hash, s, t) == x;
        }
      }
      assert settled == Lens(s.shards);
    }
  }

  lemma {:induction false} SumConcat(a: seq<nat>, b: seq<nat>)
    ensures Sum(a + b) == Sum(a) + Sum(b)
  {
    if |a| == 0 {
      assert a + b == b;
    } else {
      SumConcat(a[1..], b);
      assert (a + b)[1..] == a[1..] + b;
    }
  }

  /** While a FLUSHDB is clearing, what is still to be counted is its alone: the entries of the shards it has cleared. */
  lemma ClearingOwes(hash: Hash, s: State, t: nat)
    requires Reachable(hash, s) && t < |s.tasks| && Clearing(s.tasks[t], |s.shards|)
    ensures var done := Visited(s.tasks[t].phase, |s.shards|);
            done <= |s.counted| && s.keyCount == Total(s.shards) + Sum(s.counted[..done])
    ensures forall u :: 0 <= u < |s.tasks| ==> !Owes(s.tasks[u])
  {
    ReachableInv(hash, s);
    hide Reachable, Exclusion, Stored, LogAndStore, Results, Sum;
    var done := Visited(s.tasks[t].phase, |s.shards|);
    assert RemembersCount(hash, s, s.tasks[t]);
    forall u | 0 <= u < |s.tasks| ensures !Owes(s.tasks[u]) {
      if u != t {
        GlobalAlone(hash, s, t, u);
      }
    }
    forall x | done <= x < |s.shards| ensures s.counted[x] == |s.shards[x]| {
      ClearingElsewhere(hash, s, t, x);
    }
    ClearedSum(s.shards, s.counted, done);
  }

  lemma ClearedSum(shards: ShardMaps, counted: seq<nat>, done: nat)
    requires done <= |counted| == |shards|
    requires forall x :: 0 <= x < done ==> shards[x] == map[]
    requires forall x :: done <= x < |shards| ==> counted[x] == |shards[x]|
    ensures Sum(counted) == Total(shards) + Sum(counted[..done])
  {
    hide Sum;
    var lens := Lens(shards);
    assert counted == counted[..done] + counted[done..] && lens == lens[..done] + lens[done..];
    assert counted[done..] == lens[done..];
    SumConcat(counted[..done], counted[done..]);
    SumConcat(lens[..done], lens[done..]);
    SumZero(lens[..done]);
  }

  lemma ClearingElsewhere(hash: Hash, s: State, t: nat, x: nat)
    requires Shape(s) && Exclusion(hash, s) && t < |s.tasks| && Clearing(s.tasks[t], |s.shards|)
    requires Visited(s.tasks[t].phase, |s.shards|) <= x < |s.shards|
    ensures AllCounted(hash, s, x)
  {
    hide Exclusion;
    forall u | 0 <= u < |s.tasks| ensures !Uncounted(hash, |s.shards|, s.tasks[u], x) {
      if u != t {
        GlobalAlone(hash, s, t, u);
      }
    }
  }

  /** The subtraction of a count update never saturates: it adds exactly the change of length. */
  lemma CountNeverSaturates(hash: Hash, s: State, t: nat)
    requires Reachable(hash, s) && AfterChange(s, t) && s.tasks[t].job != Scan(Flush)
    ensures Recount(s.keyCount, s.tasks[t].phase.before, |s.shards[At(hash, s, t)]|)
         == s.keyCount + (|s.shards[At(hash, s, t)]| - s.tasks[t].phase.before)
  {
    ReachableInv(hash, s);
    NeverSaturates(hash, s, t);
  }

  /** Between visits of a section under the exclusive global lock the counter is exact; for FLUSHDB, on entry. */
  lemma CountExactInSection(hash: Hash, s: State, t: nat)
    requires Reachable(hash, s) && t < |s.tasks|
    requires s.tasks[t].Exec? && s.tasks[t].job.Scan?
    requires s.tasks[t].phase.AtShard? || s.tasks[t].phase.InShard? || s.tasks[t].phase.Finished?
    requires s.tasks[t].job == Scan(Flush) ==> Visited(s.tasks[t].phase, |s.shards|) == 0
    ensures s.keyCount == Total(s.shards)
  {
    ReachableInv(hash, s);
    hide Reachable, Exclusion, Stored, LogAndStore, Results, Counter;
    forall x | 0 <= x < |s.shards| ensures AllCounted(hash, s, x) {
      forall u | 0 <= u < |s.tasks| ensures !Uncounted(hash, |s.shards|, s.tasks[u], x) {
        if u != t {
          GlobalAlone(hash, s, t, u);
        }
      }
    }
    CountExact(hash, s);
  }
}
