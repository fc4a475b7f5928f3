/** What clients are told while other tasks run: replies of the reference store at instants within the call. */
module Replies {
  import opened Bytes
  import opened Clock
  import opened Commands
  import opened Reference
  import opened Databases
  import opened Shards
  import opened Replay
  import opened Protocol
  import opened Invariants
  import opened ShardMoves
  import opened Reachability
  import opened Guarantees

  // ---------------------------------------------------------- single keys

  /** What a command with one key answers depends on what is at that key alone. */
  lemma ReplyFromKey(a: Store, b: Store, c: Command, key: Key, now: Time)
    requires IsKeyed(c) && KeysOf(c) == [key] && Look(a, key, now) == Look(b, key, now)
    ensures ReplyTo(a, c, now) == ReplyTo(b, c, now)
  {
    hide Look, TtlOf, AsI64;
    if c.Del? {
      assert LiveAmong(a, [key], now) == LiveAmong(b, [key], now);
    }
  }

  /** A command on one key, answered from the key's shard while any other tasks run, gets the reference
      store's answer at the instant of its visit. */
  lemma VisitAnswers(hash: Hash, s: State, t: nat)
    requires Reachable(hash, s) && InVisit(s, t) && s.tasks[t].job.Keyed?
    requires |s.tasks[t].job.keys| == 1
    ensures var c := s.tasks[t].job.command;
            ReplyTo(s.shards[At(hash, s, t)], c, s.now) == ReplyTo(s.model, c, s.now)
    ensures s.model == Fold(s.start, s.executed) || exists u :: 0 <= u < |s.tasks| && PartWay(s, s.tasks[u])
  {
    VisitSees(hash, s, t);
    hide Reachable, Look, ReplyTo, Fold, PartWay, Route;
    var pc := s.tasks[t];
    KeyedJob(pc, |s.shards|);
    ReplyFromKey(s.shards[At(hash, s, t)], s.model, pc.job.command, pc.job.keys[0], s.now);
  }

  // ------------------------------------------------------------------ DEL

  /** The clock only takes keys away. */
  lemma {:induction false} RemovedBounds(m: Store, keys: seq<Key>, times: seq<Time>, from: Time, until: Time)
    requires |keys| == |times| && Clocks(times, from, until)
    ensures |LiveAmong(m, keys, until)| <= RemovedBy(m, keys, times) <= |LiveAmong(m, keys, from)|
  {
    hide Look, LiveAmong;
    if |keys| == 0 {
      NoneAmong(m, until);
      NoneAmong(m, from);
    } else {
      var last := |keys| - 1;
      ClocksWithin(times, from, until);
      hide Clocks;
      RemovedBounds(m, keys[..last], times[..last], from, until);
      assert keys == keys[..last] + [keys[last]];
      LiveAmongSnoc(m, keys[..last], keys[last], until);
      LiveAmongSnoc(m, keys[..last], keys[last], from);
      LiveEarlier(m, keys[last], from, times[last]);
      LiveEarlier(m, keys[last], times[last], until);
    }
  }

  lemma ClocksWithin(times: seq<Time>, from: Time, until: Time)
    requires |times| > 0 && Clocks(times, from, until)
    ensures from <= times[|times| - 1] <= until && Clocks(times[..|times| - 1], from, until)
  {
  }

  lemma NoneAmong(m: Store, now: Time)
    ensures |LiveAmong(m, [], now)| == 0
  {
    assert LiveAmong(m, [], now) == {};
  }

  lemma LiveEarlier(m: Store, key: Key, now: Time, later: Time)
    requires now <= later
    ensures Look(m, key, later).Some? ==> Look(m, key, now).Some?
  {
  }

  /** What a DEL has counted after its last visit. */
  ghost predicate DelCounted(keys: seq<Key>, store: Store, after: Owner, now: Time) {
    && after.Writer? && |after.times| == |keys| > 0 && Clocks(after.times, after.times[0], now)
    && after.removed == RemovedBy(store, keys, after.times)
    && |LiveAmong(store, keys, now)| <= after.removed <= |LiveAmong(store, keys, after.times[0])|
  }

  lemma LastKeyCounted(hash: Hash, s: State, t: nat)
    requires InVisit(s, t) && Stored(hash, s) && TaskLog(hash, s, s.tasks[t]) && TaskRemoving(s, s.tasks[t])
    requires s.tasks[t].owner.Writer? && s.tasks[t].job.Keyed? && s.tasks[t].job.command.Del?
    requires s.tasks[t].phase.i + 1 == |s.tasks[t].job.keys|
    ensures DelCounted(s.tasks[t].job.keys, s.committed, MutateState(hash, s, t).tasks[t].owner, s.now)
  {
    RemovingStep(hash, s, t);
    MutatedShard(hash, s, t);
    hide Stored, TaskLog, TaskRemoving, RemovedBy, LiveAmong, VisitOwner, ShardOf, MutateState;
    var pc, after := s.tasks[t], MutateState(hash, s, t).tasks[t].owner;
    assert pc.job.keys[..pc.phase.i + 1] == pc.job.keys;
    RemovedBounds(s.committed, pc.job.keys, after.times, after.times[0], s.now);
  }

  /** A DEL over several shards, its last key visited: it has counted each distinct key listed that was live, in
      the store of whole commands it found, when it came to it; so no fewer than are live at its end and no
      more than were live when it started. */
  lemma DelAnswer(hash: Hash, s: State, t: nat)
    requires Reachable(hash, s) && InVisit(s, t)
    requires s.tasks[t].owner.Writer? && s.tasks[t].job.Keyed? && s.tasks[t].job.command.Del?
    requires s.tasks[t].phase.i + 1 == |s.tasks[t].job.keys|
    ensures DelCounted(s.tasks[t].job.keys, Fold(s.start, s.executed), MutateState(hash, s, t).tasks[t].owner, s.now)
  {
    ReachableInv(hash, s);
    hide Reachable, Exclusion, Stored, Counter, LogAndStore, TaskLog, TaskRemoving, DelCounted, Fold, MutateState;
    assert TaskResult(hash, s, s.tasks[t]);
    LogOf(hash, s, t);
    StoreOf(hash, s);
    LastKeyCounted(hash, s, t);
  }

  lemma StoreOf(hash: Hash, s: State)
    requires |s.shards| > 0 && LogAndStore(hash, s)
    ensures s.committed == Fold(s.start, s.executed)
  {
  }

  // ----------------------------------------------------------------- KEYS

  /** When a KEYS that ended at `end` looked at the key; at the end for a key it had no entry for. */
  function LookedAt(read: map<Key, Time>, end: Time, key: Key): Time {
    if key in read then read[key] else end
  }

  /** The keys of the store that were live when KEYS looked at them. */
  function ListedAt(m: Store, read: map<Key, Time>, end: Time): set<Key> {
    set k | k in m && Look(m, k, LookedAt(read, end, k)).Some?
  }

  ghost predicate KeysDone(s: State, t: nat) {
    && t < |s.tasks| && s.tasks[t].Exec? && s.tasks[t].phase.Finished?
    && s.tasks[t].job.Scan? && s.tasks[t].job.kind.ListKeys?
  }

  /** KEYS, at its end, under concurrency and a clock that moves from entry to entry: it lists exactly the keys of
      the store of whole commands that were live when it looked at them. */
  lemma KeysAnswer(hash: Hash, s: State, t: nat)
    requires Reachable(hash, s) && KeysDone(s, t)
    ensures var ListKeys(since, read, listed) := s.tasks[t].job.kind;
            && since <= s.now && (forall k :: k in read ==> since <= read[k] <= s.now)
            && listed == ListedAt(Fold(s.start, s.executed), read, s.now)
  {
    SeesWholeCommands(hash, s, t);
    ReachableInv(hash, s);
    hide Reachable, Exclusion, Stored, Counter, LogAndStore, Fold, TaskExport, TaskRemoving;
    assert TaskResult(hash, s, s.tasks[t]);
    AllListed(hash, s, s.tasks[t].job.kind);
  }

  lemma AllListed(hash: Hash, s: State, kind: Kind)
    requires |s.shards| > 0 && kind.ListKeys? && Listing(hash, s, kind.since, kind.read, kind.listed, |s.shards|)
    ensures kind.listed == ListedAt(s.model, kind.read, s.now)
  {
  }

  /** So it lists every key live at its end and none that was not live at its start: if no deadline passes
      meanwhile, the live keys. */
  lemma KeysBounds(hash: Hash, s: State, t: nat)
    requires Reachable(hash, s) && KeysDone(s, t)
    ensures var ListKeys(since, read, listed) := s.tasks[t].job.kind;
            LiveKeys(Fold(s.start, s.executed), s.now) <= listed <= LiveKeys(Fold(s.start, s.executed), since)
  {
    KeysAnswer(hash, s, t);
    hide Reachable, Fold, Look;
    var ListKeys(since, read, listed) := s.tasks[t].job.kind;
    var store := Fold(s.start, s.executed);
    forall k ensures Look(store, k, s.now).Some? ==> k in listed
             ensures k in listed ==> Look(store, k, since).Some?
    {
      KeyOfLook(store, k, s.now);
      LiveEarlier(store, k, since, LookedAt(read, s.now, k));
      LiveEarlier(store, k, LookedAt(read, s.now, k), s.now);
    }
  }

  lemma KeyOfLook(m: Store, key: Key, now: Time)
    ensures Look(m, key, now).Some? ==> key in m
  {
  }

  ghost predicate OfOneMoment(m: Store, listed: set<Key>) {
    exists now :: LiveKeys(m, now) == listed
  }

  /** The list may be the live keys of no single moment. Two keys are set to live 2 and 5 milliseconds; KEYS looks at the
      first at 1 and at the second at 10, and lists the first, whose deadline was the earlier. */
  lemma KeysOfNoMoment(a: Key, b: Key, value: Bytes)
    requires a != b
    ensures var history := [Applied(Set(a, value, Some(2)), 0, 0), Applied(Set(b, value, Some(5)), 0, 0)];
            var store, read := Fold(map[], history), map[a := 1 * NANOS, b := 10 * NANOS];
            && InOrder(history, 0, 1 * NANOS)
            && ListedAt(store, read, 10 * NANOS) == {a}
            && !OfOneMoment(store, {a})
  {
    var first, second := Applied(Set(a, value, Some(2)), 0, 0), Applied(Set(b, value, Some(5)), 0, 0);
    var history := [first, second];
    assert history[..1] == [first] && [first][..0] == [];
    assert Fold(map[], [first]) == map[a := Entry(value, Some(2 * NANOS))];
    var store := Fold(map[], history);
    assert store == map[a := Entry(value, Some(2 * NANOS)), b := Entry(value, Some(5 * NANOS))];
    forall now: Time ensures LiveKeys(store, now) != {a} {
      if now < 5 * NANOS {
        assert b in LiveKeys(store, now);
      } else {
        assert a !in LiveKeys(store, now);
      }
    }
  }

  /** `a` was looked at before its deadline, `b` not before its own, which is no earlier. */
  predicate Crossed(m: Store, read: map<Key, Time>, end: Time, a: Key, b: Key)
    requires a in m && b in m
  {
    && m[a].expireAt.Some? && m[b].expireAt.Some?
    && LookedAt(read, end, a) < m[a].expireAt.value <= m[b].expireAt.value <= LookedAt(read, end, b)
  }

  /** Exactly: KEYS lists the live keys of one moment if and only if no two keys are looked at on such sides of their deadlines. */
  lemma KeysOfOneMoment(m: Store, read: map<Key, Time>, end: Time)
    ensures OfOneMoment(m, ListedAt(m, read, end)) <==> forall a, b :: a in m && b in m ==> !Crossed(m, read, end, a, b)
  {
    var listed := ListedAt(m, read, end);
    if OfOneMoment(m, listed) {
      var now :| LiveKeys(m, now) == listed;
      forall a, b | a in m && b in m ensures !Crossed(m, read, end, a, b) {
        assert a in listed <==> a in LiveKeys(m, now);
        assert b in listed <==> b in LiveKeys(m, now);
      }
    }
    if forall a, b :: a in m && b in m ==> !Crossed(m, read, end, a, b) {
      var now := LatestDeadline(m, m.Keys - listed);
      forall k ensures k in LiveKeys(m, now) <==> k in listed {
        if k in listed && now > 0 {
          var b :| b in m.Keys - listed && m[b].expireAt.value == now;
          assert !Crossed(m, read, end, k, b);
        }
      }
      assert LiveKeys(m, now) == listed;
    }
  }

  lemma {:induction false} LatestDeadline(m: Store, keys: set<Key>) returns (now: Time)
    requires forall k :: k in keys ==> k in m && m[k].expireAt.Some?
    ensures forall k :: k in keys ==> m[k].expireAt.value <= now
    ensures now == 0 || exists k :: k in keys && m[k].expireAt.value == now
    decreases |keys|
  {
    if keys == {} {
      now := 0;
    } else {
      var k :| k in keys;
      now := LatestDeadline(m, keys - {k});
      if now < m[k].expireAt.value {
        now := m[k].expireAt.value;
      }
    }
  }
}
