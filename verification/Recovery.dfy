/**
 * What a replay restores of the store that was live when the log was left:
 * nothing else, what exactly, with which deadline, and what becomes of
 * deadlines over many rewrites and restarts.
 */
module Recovery {
  import opened Bytes
  import opened Decimal
  import opened Clock
  import opened Commands
  import opened Reference
  import opened LogCodec
  import opened Snapshots
  import opened Replay

  // ----------------------------------------------------------- both ways

  /** The deadline moved by more than -(2 ms + `lag`) and less than +1 ms; the lower bound needs a
      deadline that fits a stamp. */
  predicate Drifted(was: Option<Time>, got: Option<Time>, lag: nat) {
    && was.Some? == got.Some?
    && (was.Some? ==> got.value < was.value + NANOS)
    && (was.Some? && UnixMs(was.value) < U64_MAX ==> was.value < got.value + 2 * NANOS + lag)
  }

  /** A replayed key was live in the original, at the crash and still when the replay started,
      with the same value and nearly the same deadline. */
  ghost predicate Recovered(original: Store, replayed: Store, key: Key, crash: Time, from: Time, until: Time, lag: nat) {
    Look(replayed, key, until).Some? ==>
      && Look(original, key, crash).Some?
      && Look(original, key, from).Some?
      && replayed[key].value == original[key].value
      && Drifted(original[key].expireAt, replayed[key].expireAt, lag)
  }

  /** Soundness: whatever the log, a replay at any later time resurrects no key, restores no other value
      and moves no deadline out of its bounds. */
  lemma LateReplaySound(log: Log, original: Store, crash: Time, clocks: seq<Time>, from: Time, until: Time, lag: nat)
    requires Agreement(log, original, crash, lag) && crash <= from
    requires AbsoluteLog(log) && |clocks| == |log| && Clocks(clocks, from, until)
    ensures forall k :: Recovered(original, ReplayStore(log, clocks), k, crash, from, until, lag)
  {
    var replayed := ReplayStore(log, clocks);
    ReplayCharacterised(log, clocks, from, until);
    SummaryWellFormed(log);
    hide Summarize, ReplayStore;
    forall k ensures Recovered(original, replayed, k, crash, from, until, lag) {
      assert ReplayedKey(Summarize(log), replayed, k, from, until);
      assert AgreesOn(Summarize(log), original, k, crash, lag);
    }
  }

  /** The stamps logged for a key since its last SET never went up. */
  predicate NeverRaised(log: Log, key: Key) {
    if |log| == 0 then true
    else
      var init, c := log[..|log| - 1], log[|log| - 1];
      var s := Summarize(init);
      if c.ExpireAt? && c.key == key && key in s then
        NeverRaised(init, key) && (s[key].last.Some? ==> c.timestampMs <= s[key].last.value)
      else if (c.Set? || c.SetPxAt?) && c.key == key then true
      else NeverRaised(init, key)
  }

  /** A key whose deadlines were never raised comes back if the present one is still ahead: the lowest stamp is the latest. */
  lemma {:induction false} NeverRaisedIsLowest(log: Log, key: Key)
    requires AbsoluteLog(log) && NeverRaised(log, key) && key in Summarize(log)
    ensures Summarize(log)[key].low == Summarize(log)[key].last
  {
    var init, c := log[..|log| - 1], log[|log| - 1];
    SummaryWellFormed(init);
    if key in Summarize(init) && !((c.Set? || c.SetPxAt?) && c.key == key) {
      NeverRaisedIsLowest(init, key);
    }
  }

  lemma {:induction false} SetsNeverRaise(log: Log, key: Key)
    requires forall i :: 0 <= i < |log| ==> !log[i].ExpireAt?
    ensures NeverRaised(log, key)
  {
    hide Summarize;
    if |log| == 0 {
    } else {
      SetsNeverRaise(log[..|log| - 1], key);
    }
  }

  /** The live entry has no deadline, or one at least 2 ms and `lag` after the end of the replay. */
  predicate WellAhead(e: Entry, until: Time, lag: nat) {
    e.expireAt.Some? ==> until + 2 * NANOS + lag <= e.expireAt.value && UnixMs(until) < U64_MAX
  }

  /** The key is back with its value and its deadline to within the drift. */
  ghost predicate Back(original: Store, replayed: Store, key: Key, until: Time, lag: nat)
    requires key in original
  {
    && Look(replayed, key, until).Some?
    && replayed[key].value == original[key].value
    && Drifted(original[key].expireAt, replayed[key].expireAt, lag)
  }

  /** Completeness: a live key comes back, with its value and nearly its deadline, if none of its stamps since
      the last SET has been reached when the replay ends; so does every key whose deadline was never raised
      and lies well ahead of that end. */
  lemma LateReplayComplete(log: Log, original: Store, crash: Time, clocks: seq<Time>, from: Time, until: Time, key: Key, lag: nat)
    requires Agreement(log, original, crash, lag) && crash <= from
    requires AbsoluteLog(log) && |clocks| == |log| && Clocks(clocks, from, until)
    requires Look(original, key, crash).Some?
    ensures key in Summarize(log)
    ensures Ahead(Summarize(log)[key], until) ==> Back(original, ReplayStore(log, clocks), key, until, lag)
    ensures NeverRaised(log, key) && WellAhead(original[key], until, lag)
        ==> Back(original, ReplayStore(log, clocks), key, until, lag)
  {
    ReplayCharacterised(log, clocks, from, until);
    LateReplaySound(log, original, crash, clocks, from, until, lag);
    if NeverRaised(log, key) && key in Summarize(log) {
      NeverRaisedIsLowest(log, key);
    }
    hide Summarize, ReplayStore, NeverRaised;
    assert ReplayedKey(Summarize(log), ReplayStore(log, clocks), key, from, until);
    assert Recovered(original, ReplayStore(log, clocks), key, crash, from, until, lag);
    assert AgreesOn(Summarize(log), original, key, crash, lag);
    if WellAhead(original[key], until, lag) && original[key].expireAt.Some? {
      NearStaysAhead(Summarize(log)[key].last.value, original[key].expireAt.value, until, lag);
    }
  }

  lemma NearStaysAhead(stamp: u64, deadline: Time, until: Time, lag: nat)
    requires Near(stamp, deadline, lag) && until + 2 * NANOS + lag <= deadline && UnixMs(until) < U64_MAX
    ensures stamp > UnixMs(until)
  {
    if stamp < U64_MAX {
      assert until < stamp * NANOS;
    }
  }

  // ------------------------------------------------------------- exactly

  predicate Puts(c: Command, key: Key) {
    (c.Set? || c.SetPxAt?) && c.key == key
  }

  predicate Drops(c: Command, key: Key) {
    (c.Del? && key in c.keys) || c.FlushDb?
  }

  predicate Restamps(c: Command, key: Key) {
    c.ExpireAt? && c.key == key
  }

  /** The last SET of the key among the first `n` commands that no DEL or FLUSHDB among them follows. */
  function LastSet(log: Log, key: Key, n: nat): (i: Option<nat>)
    requires n <= |log|
    ensures i.Some? ==> i.value < n && Puts(log[i.value], key)
  {
    if n == 0 then None
    else if Puts(log[n - 1], key) then Some(n - 1)
    else if Drops(log[n - 1], key) then None
    else LastSet(log, key, n - 1)
  }

  /** The deadline a stamp gets from the clock it is replayed at: in the stamp's millisecond, as far into it as the clock. */
  function DeadlineOf(stamp: u64, clock: Time): Time {
    stamp * NANOS + clock % NANOS
  }

  /** The deadline the last stamp among the first `n` commands, from the last SET on, gets. */
  function LastDeadline(log: Log, clocks: seq<Time>, key: Key, n: nat): Option<Time>
    requires n <= |log| == |clocks| && LastSet(log, key, n).Some?
  {
    var c := log[n - 1];
    if Puts(c, key) then (if c.SetPxAt? then Some(DeadlineOf(c.timestampMs, clocks[n - 1])) else None)
    else if Restamps(c, key) then Some(DeadlineOf(c.timestampMs, clocks[n - 1]))
    else LastDeadline(log, clocks, key, n - 1)
  }

  predicate Before(t: Time, deadline: Option<Time>) {
    deadline.Some? ==> t < deadline.value
  }

  /** Every EXPIREAT since the last SET was replayed before the deadline it found, and `t` is before the last one's. */
  ghost predicate InTime(log: Log, clocks: seq<Time>, key: Key, n: nat, t: Time)
    requires n <= |log| == |clocks| && LastSet(log, key, n).Some?
  {
    && Before(t, LastDeadline(log, clocks, key, n))
    && forall j :: LastSet(log, key, n).value < j < n && Restamps(log[j], key) ==> RestampedInTime(log, clocks, key, j)
  }

  predicate RestampedInTime(log: Log, clocks: seq<Time>, key: Key, j: nat)
    requires j < |log| == |clocks|
  {
    LastSet(log, key, j).Some? && Before(clocks[j], LastDeadline(log, clocks, key, j))
  }

  /** What replaying the first `n` commands leaves at the key, read off the log and the clock. */
  ghost function Restored(log: Log, clocks: seq<Time>, key: Key, n: nat, t: Time): Option<Entry>
    requires n <= |log| == |clocks|
  {
    var i := LastSet(log, key, n);
    if i.Some? && InTime(log, clocks, key, n, t)
      then Some(Entry(log[i.value].value, LastDeadline(log, clocks, key, n)))
    else None
  }

  lemma PutAtLook(r: Store, key: Key, value: Bytes, stamp: u64, now: Time, t: Time)
    requires now <= t
    ensures Look(PutAt(r, key, value, stamp, now), key, t)
         == if t < DeadlineOf(stamp, now) then Some(Entry(value, Some(DeadlineOf(stamp, now)))) else None
  {
    if stamp > UnixMs(now) {
      StampDeadlineExact(stamp, now);
    }
  }

  lemma GoneStaysGone(r: Store, key: Key, now: Time, t: Time)
    requires now <= t
    ensures Look(r, key, now).None? ==> Look(r, key, t).None?
    ensures Look(r, key, t).Some? ==> Look(r, key, now) == Look(r, key, t)
  {
  }

  /** One more command at the key's own past: what it does to the store is what it does to the log's reading. */
  lemma RestoredStep(log: Log, clocks: seq<Time>, key: Key, n: nat, r: Store, t: Time)
    requires AbsoluteLog(log) && 0 < n <= |log| == |clocks| && clocks[n - 1] <= t
    requires Look(r, key, clocks[n - 1]) == Restored(log, clocks, key, n - 1, clocks[n - 1])
    requires Look(r, key, t) == Restored(log, clocks, key, n - 1, t)
    ensures Look(Next(r, log[n - 1], clocks[n - 1]), key, t) == Restored(log, clocks, key, n, t)
  {
    var c, now := log[n - 1], clocks[n - 1];
    if Puts(c, key) {
      hide PutAt;
      if c.SetPxAt? {
        PutAtLook(r, key, c.value, c.timestampMs, now, t);
      }
    } else if Drops(c, key) {
    } else if Restamps(c, key) {
      RestampStep(log, clocks, key, n, r, t);
    } else {
      UntouchedLook(r, c, key, now, t);
      hide Look, Next;
      assert LastSet(log, key, n) == LastSet(log, key, n - 1);
      if LastSet(log, key, n).Some? {
        assert InTime(log, clocks, key, n, t) == InTime(log, clocks, key, n - 1, t);
      }
    }
  }

  lemma UntouchedLook(r: Store, c: Command, key: Key, now: Time, t: Time)
    requires IsAbsolute(c) && !Puts(c, key) && !Drops(c, key) && !Restamps(c, key)
    ensures Look(Next(r, c, now), key, t) == Look(r, key, t)
  {
    hide DurationUntil;
  }

  lemma RestampStep(log: Log, clocks: seq<Time>, key: Key, n: nat, r: Store, t: Time)
    requires 0 < n <= |log| == |clocks| && clocks[n - 1] <= t && Restamps(log[n - 1], key)
    requires Look(r, key, clocks[n - 1]) == Restored(log, clocks, key, n - 1, clocks[n - 1])
    ensures Look(Next(r, log[n - 1], clocks[n - 1]), key, t) == Restored(log, clocks, key, n, t)
  {
    var c, now, i := log[n - 1], clocks[n - 1], LastSet(log, key, n);
    assert i == LastSet(log, key, n - 1);
    GoneStaysGone(r, key, now, t);
    if i.Some? {
      RestampInTime(log, clocks, key, n, t);
    }
    if Look(r, key, now).Some? {
      PutAtLook(r, key, r[key].value, c.timestampMs, now, t);
    }
  }

  /** A further EXPIREAT is in time if the key was live when it came. */
  lemma RestampInTime(log: Log, clocks: seq<Time>, key: Key, n: nat, t: Time)
    requires 0 < n <= |log| == |clocks| && Restamps(log[n - 1], key) && LastSet(log, key, n - 1).Some?
    ensures LastSet(log, key, n) == LastSet(log, key, n - 1)
    ensures InTime(log, clocks, key, n, t)
       <==> InTime(log, clocks, key, n - 1, clocks[n - 1]) && t < DeadlineOf(log[n - 1].timestampMs, clocks[n - 1])
  {
    hide LastDeadline;
    assert LastDeadline(log, clocks, key, n) == Some(DeadlineOf(log[n - 1].timestampMs, clocks[n - 1])) by {
      NewDeadline(log, clocks, key, n);
    }
    if InTime(log, clocks, key, n, t) {
      assert RestampedInTime(log, clocks, key, n - 1);
    }
  }

  lemma NewDeadline(log: Log, clocks: seq<Time>, key: Key, n: nat)
    requires 0 < n <= |log| == |clocks| && Restamps(log[n - 1], key) && LastSet(log, key, n).Some?
    ensures LastDeadline(log, clocks, key, n) == Some(DeadlineOf(log[n - 1].timestampMs, clocks[n - 1]))
  {
  }

  /** Exactly, with the clock running during the replay: a key is live afterwards if and only if it has a SET that
      no DEL or FLUSHDB follows, each EXPIREAT since came before the deadline it found, and the last
      deadline is still ahead; the value is the SET's and the deadline the last stamp's. */
  lemma {:induction false} RestoredFrom(log: Log, clocks: seq<Time>, key: Key, n: nat, t: Time)
    requires AbsoluteLog(log) && n <= |log| == |clocks|
    requires forall i, j :: 0 <= i <= j < |clocks| ==> clocks[i] <= clocks[j]
    requires n > 0 ==> clocks[n - 1] <= t
    ensures Look(ReplayStore(log[..n], clocks[..n]), key, t) == Restored(log, clocks, key, n, t)
  {
    hide PutAt, Look, Next, Restored;
    if n == 0 {
      NoneRestored(log, clocks, key, t);
    } else {
      var c, now := log[n - 1], clocks[n - 1];
      var r := ReplayStore(log[..n - 1], clocks[..n - 1]);
      assert log[..n][..n - 1] == log[..n - 1] && clocks[..n][..n - 1] == clocks[..n - 1];
      RestoredFrom(log, clocks, key, n - 1, t);
      RestoredFrom(log, clocks, key, n - 1, now);
      RestoredStep(log, clocks, key, n, r, t);
    }
  }

  lemma NoneRestored(log: Log, clocks: seq<Time>, key: Key, t: Time)
    requires |log| == |clocks|
    ensures Look(ReplayStore(log[..0], clocks[..0]), key, t) == Restored(log, clocks, key, 0, t)
  {
  }

  /** The whole replay, to the moment it ends: live then if and only if the log says so. */
  lemma RestoredExactly(log: Log, clocks: seq<Time>, from: Time, until: Time, key: Key)
    requires AbsoluteLog(log) && |clocks| == |log| && Clocks(clocks, from, until)
    ensures Look(ReplayStore(log, clocks), key, until).Some?
       <==> LastSet(log, key, |log|).Some? && InTime(log, clocks, key, |log|, until)
    ensures Look(ReplayStore(log, clocks), key, until) == Restored(log, clocks, key, |log|, until)
  {
    hide InTime, LastSet, Look;
    RestoredFrom(log, clocks, key, |log|, until);
    assert log[..|log|] == log && clocks[..|log|] == clocks;
  }

  /** With the clock standing still during the replay that comes to: none of its stamps since the last SET has been reached. */
  lemma RestoredAtStandstill(log: Log, original: Store, crash: Time, now: Time, key: Key, lag: nat)
    requires Agreement(log, original, crash, lag) && crash <= now && AbsoluteLog(log)
    requires Look(original, key, crash).Some?
    ensures key in Summarize(log)
    ensures Look(ReplayStore(log, seq(|log|, i => now)), key, now).Some? <==> Ahead(Summarize(log)[key], now)
  {
    var clocks := seq(|log|, i => now);
    ReplayCharacterised(log, clocks, now, now);
    hide Summarize, ReplayStore;
    assert ReplayedKey(Summarize(log), ReplayStore(log, clocks), key, now, now);
    assert AgreesOn(Summarize(log), original, key, crash, lag);
  }

  /** The condition is needed: a deadline raised after the SET is live, and yet a restart between the two deadlines loses the key. */
  lemma RaisedDeadlineLost(key: Key, value: Bytes)
    ensures var history := [Applied(Set(key, value, Some(100)), 0, 0), Applied(Expire(key, 1000), 0, 0)];
            var restart := 200 * NANOS;
            && InOrder(history, 0, 0)
            && Look(Fold(map[], history), key, restart).Some?
            && Look(ReplayStore(Logged(history), [restart, restart]), key, restart).None?
  {
    var first := Applied(Set(key, value, Some(100)), 0, 0);
    var second := Applied(Expire(key, 1000), 0, 0);
    var history := [first, second];
    var restart := 200 * NANOS;
    assert history[..1] == [first] && [first][..0] == [];
    assert Fold(map[], [first]) == map[key := Entry(value, Some(100 * NANOS))];
    assert Logged([first]) == [SetPxAt(key, value, 100)];
    var log := Logged(history);
    assert log == [SetPxAt(key, value, 100), ExpireAt(key, 1_000_000)];
    assert log[..1] == [SetPxAt(key, value, 100)] && log[..1][..0] == [];
    var clocks := [restart, restart];
    assert clocks[..1] == [restart];
    assert UnixMs(restart) == 200;
    assert ReplayStore(log[..1], [restart]) == map[];
  }

  // ------------------------------------------------- rewrites and restarts

  /** Snapshot, log and replay of a whole store: nothing else comes back, every key well ahead does, and
      deadlines move by more than -2 ms and less than +1 ms. */
  lemma SnapshotTrip(r: Store, at: Time, clocks: seq<Time>, from: Time, until: Time)
    requires |clocks| == |SnapshotLog(SnapshotOf(r, at))| && Clocks(clocks, from, until) && at <= from
    ensures var replayed := ReplayStore(SnapshotLog(SnapshotOf(r, at)), clocks);
            && (forall k :: Recovered(r, replayed, k, at, from, until, 0))
            && (forall k :: Look(r, k, at).Some? && WellAhead(r[k], until, 0) ==> Back(r, replayed, k, until, 0))
  {
    hide SnapshotOf, ReplayStore, Agreement, AbsoluteLog, Recovered, Back, Look, NeverRaised, WellAhead;
    var log := SnapshotLog(SnapshotOf(r, at));
    SnapshotAgrees(r, at);
    LateReplaySound(log, r, at, clocks, from, until, 0);
    forall k | Look(r, k, at).Some?
      ensures k in r && (WellAhead(r[k], until, 0) ==> Back(r, ReplayStore(log, clocks), k, until, 0))
    {
      LookIs(r, k, at);
      SetsNeverRaise(log, k);
      LateReplayComplete(log, r, at, clocks, from, until, k, 0);
    }
  }

  lemma LookIs(r: Store, key: Key, now: Time)
    requires Look(r, key, now).Some?
    ensures key in r && Look(r, key, now) == Some(r[key])
  {
  }

  /** A restart that replays the log, then a rewrite from the restored store. */
  datatype Trip = Trip(clocks: seq<Time>, from: Time, until: Time, rewrite: Time)

  ghost predicate CanTrip(log: Log, trip: Trip) {
    |trip.clocks| == |log| && Clocks(trip.clocks, trip.from, trip.until) && trip.until <= trip.rewrite
  }

  ghost function LogAfter(log: Log, trip: Trip): Log
    requires CanTrip(log, trip)
  {
    SnapshotLog(SnapshotOf(ReplayStore(log, trip.clocks), trip.rewrite))
  }

  ghost predicate CanTrips(log: Log, trips: seq<Trip>)
    decreases |trips|
  {
    |trips| == 0 || (CanTrip(log, trips[0]) && CanTrips(LogAfter(log, trips[0]), trips[1..]))
  }

  ghost function LogAfterAll(log: Log, trips: seq<Trip>): Log
    requires CanTrips(log, trips)
    decreases |trips|
  {
    if |trips| == 0 then log else LogAfterAll(LogAfter(log, trips[0]), trips[1..])
  }

  /** The key was in the earlier log, with its value, and its stamp has fallen by at most `fall`. */
  predicate StampKept(was: Summary, got: Summary, key: Key, fall: nat) {
    key in got ==>
      && key in was
      && got[key].value == was[key].value
      && got[key].last.Some? == was[key].last.Some?
      && (got[key].last.Some? ==> was[key].last.value - fall <= got[key].last.value <= was[key].last.value)
  }

  lemma TraceKept(was: Trace, got: Trace, e: Entry)
    requires Restores(was, e) && Traces(got, e, 0)
    ensures got.value == was.value && got.last.Some? == was.last.Some?
    ensures got.last.Some? ==> was.last.value - 1 <= got.last.value <= was.last.value
  {
  }

  lemma TripStamps(log: Log, trip: Trip, key: Key)
    requires AbsoluteLog(log) && CanTrip(log, trip)
    ensures AbsoluteLog(LogAfter(log, trip))
    ensures StampKept(Summarize(log), Summarize(LogAfter(log, trip)), key, 1)
  {
    var r := ReplayStore(log, trip.clocks);
    var keys := SortedList(LiveKeys(r, trip.rewrite));
    assert forall k :: k in keys <==> k in Elements(keys);
    ReplayCharacterised(log, trip.clocks, trip.from, trip.until);
    SnapshotAgrees(r, trip.rewrite);
    RenderedSummary(r, keys, trip.rewrite);
    hide Summarize, ReplayStore, SnapshotLog, Render, AbsoluteLog, Restores, Traces, Ahead, Look;
    assert ReplayedKey(Summarize(log), r, key, trip.from, trip.until);
    GoneStaysGone(r, key, trip.until, trip.rewrite);
    var was, got := Summarize(log), Summarize(LogAfter(log, trip));
    if key in got {
      assert key in keys && Look(r, key, trip.rewrite).Some?;
      LookIs(r, key, trip.until);
      TraceKept(was[key], got[key], r[key]);
    }
  }

  /** Over any number of rewrite-and-restart cycles a logged stamp never rises and falls by at most one per
      cycle, and no key or value is invented. */
  lemma {:induction false} TripsStamps(log: Log, trips: seq<Trip>, key: Key)
    requires AbsoluteLog(log) && CanTrips(log, trips)
    ensures StampKept(Summarize(log), Summarize(LogAfterAll(log, trips)), key, |trips|)
    decreases |trips|
  {
    hide Summarize, LogAfter, AbsoluteLog;
    if |trips| == 0 {
    } else {
      TripStamps(log, trips[0], key);
      TripsStamps(LogAfter(log, trips[0]), trips[1..], key);
    }
  }

  /** Every stamp of the key is further ahead of `end` than there are trips left to lower it. */
  predicate FarAhead(t: Trace, end: Time, trips: nat) {
    t.low.Some? ==> t.low.value > UnixMs(end) + trips
  }

  lemma StillLive(t: Trace, e: Entry, now: Time)
    requires WellFormed(t) && Restores(t, e) && FarAhead(t, now, 0)
    ensures !Expired(e, now)
  {
  }

  /** A trip that ends before all stamps of a key keeps the key. */
  lemma TripKeeps(log: Log, trip: Trip, key: Key, end: Time, trips: nat)
    requires AbsoluteLog(log) && CanTrip(log, trip) && trip.rewrite <= end
    requires key in Summarize(log) && FarAhead(Summarize(log)[key], end, trips + 1)
    ensures AbsoluteLog(LogAfter(log, trip)) && key in Summarize(LogAfter(log, trip))
    ensures FarAhead(Summarize(LogAfter(log, trip))[key], end, trips)
  {
    var r, next := ReplayStore(log, trip.clocks), LogAfter(log, trip);
    var keys := SortedList(LiveKeys(r, trip.rewrite));
    assert forall k :: k in keys <==> k in Elements(keys);
    SummaryWellFormed(log);
    ReplayCharacterised(log, trip.clocks, trip.from, trip.until);
    SnapshotAgrees(r, trip.rewrite);
    RenderedSummary(r, keys, trip.rewrite);
    TripStamps(log, trip, key);
    SetsNeverRaise(next, key);
    hide Summarize, ReplayStore, SnapshotLog, Render, AbsoluteLog, Restores, Traces, NeverRaised;
    assert ReplayedKey(Summarize(log), r, key, trip.from, trip.until);
    LookIs(r, key, trip.until);
    StillLive(Summarize(log)[key], r[key], trip.rewrite);
    assert key in keys;
    NeverRaisedIsLowest(next, key);
  }

  /** Over any number of cycles a key whose stamps are all further ahead of the last rewrite than there are cycles is
      still in the log. */
  lemma {:induction false} TripsKeep(log: Log, trips: seq<Trip>, key: Key, end: Time)
    requires AbsoluteLog(log) && CanTrips(log, trips)
    requires forall i :: 0 <= i < |trips| ==> trips[i].rewrite <= end
    requires key in Summarize(log) && FarAhead(Summarize(log)[key], end, |trips|)
    ensures key in Summarize(LogAfterAll(log, trips))
    decreases |trips|
  {
    hide Summarize, LogAfter, AbsoluteLog, FarAhead;
    if |trips| == 0 {
    } else {
      TripKeeps(log, trips[0], key, end, |trips| - 1);
      TripsKeep(LogAfter(log, trips[0]), trips[1..], key, end);
    }
  }
}
