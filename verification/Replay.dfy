/**
 * What a log is worth after a restart. `Summarize` reads off a log, key by
 * key, the value and the stamps since the last SET; `Agreement` relates a log
 * to a live store; both are kept by appending and executing, by snapshots and
 * by replay itself, and they decide exactly what a later replay restores.
 */
module Replay {
  import opened Bytes
  import opened Decimal
  import opened Clock
  import opened Commands
  import opened Reference
  import opened LogCodec
  import opened Snapshots

  type Log = seq<Command>

  ghost predicate AbsoluteLog(log: Log) {
    forall i :: 0 <= i < |log| ==> IsAbsolute(log[i])
  }

  // ------------------------------------------------------------ the summary

  /** Value, lowest stamp and latest stamp of a key since its last SET; no stamps, no deadline. */
  datatype Trace = Trace(value: Bytes, low: Option<u64>, last: Option<u64>)

  type Summary = map<Key, Trace>

  function Lower(a: Option<u64>, b: u64): u64 {
    if a.Some? && a.value <= b then a.value else b
  }

  function Note(s: Summary, c: Command): Summary {
    match c
    case Set(key, value, _) => s[key := Trace(value, None, None)]
    case SetPxAt(key, value, stamp) => s[key := Trace(value, Some(stamp), Some(stamp))]
    case Del(keys) => s - Elements(keys)
    case ExpireAt(key, stamp) =>
      if key in s then s[key := Trace(s[key].value, Some(Lower(s[key].low, stamp)), Some(stamp))] else s
    case FlushDb => map[]
    case _ => s
  }

  function Summarize(log: Log): Summary {
    if |log| == 0 then map[] else Note(Summarize(log[..|log| - 1]), log[|log| - 1])
  }

  predicate WellFormed(t: Trace) {
    t.low.Some? == t.last.Some? && (t.low.Some? ==> t.low.value <= t.last.value)
  }

  lemma {:induction false} SummaryWellFormed(log: Log)
    ensures forall k :: k in Summarize(log) ==> WellFormed(Summarize(log)[k])
  {
    if |log| == 0 {
    } else {
      SummaryWellFormed(log[..|log| - 1]);
    }
  }

  lemma SummarizeSnoc(log: Log, c: Command)
    ensures Summarize(log + [c]) == Note(Summarize(log), c)
  {
    assert (log + [c])[..|log|] == log;
  }

  // -------------------------------------------------------------- agreement

  /** A stamp is never later than the deadline it stands for, and unless it is the largest there is,
      not earlier by two milliseconds and `lag`. */
  predicate Near(stamp: u64, deadline: Time, lag: nat) {
    && stamp * NANOS <= deadline
    && (stamp < U64_MAX ==> deadline < (stamp + 2) * NANOS + lag)
  }

  /** The trace of a live key: same value, and a deadline near the latest stamp on both sides, or none. */
  predicate Traces(t: Trace, e: Entry, lag: nat) {
    && t.value == e.value
    && t.last.Some? == e.expireAt.Some?
    && (e.expireAt.Some? ==> Near(t.last.value, e.expireAt.value, lag))
  }

  /** A trace that no replay from `now` on can bring back: some stamp since the last SET has passed. */
  predicate Lapsed(t: Trace, now: Time) {
    t.low.Some? && t.low.value <= UnixMs(now)
  }

  ghost predicate AgreesOn(s: Summary, r: Store, key: Key, now: Time, lag: nat) {
    match Look(r, key, now)
    case Some(e) => key in s && Traces(s[key], e, lag)
    case None => key in s ==> Lapsed(s[key], now)
  }

  /** Every live key is in the log with its value and its deadline to within two milliseconds and `lag`, the
      longest a relative expiry waited between log and store; every other key of the log has lapsed. */
  ghost predicate Agreement(log: Log, r: Store, now: Time, lag: nat) {
    forall k :: AgreesOn(Summarize(log), r, k, now, lag)
  }

  lemma EmptyAgrees(now: Time, lag: nat)
    ensures Agreement([], map[], now, lag)
  {
  }

  /** Agreement is about what can be seen. */
  lemma AgreementOfSame(log: Log, a: Store, b: Store, now: Time, lag: nat)
    requires Agreement(log, a, now, lag) && SameAt(a, b, now)
    ensures Agreement(log, b, now, lag)
  {
    hide Summarize, Look;
    forall k ensures AgreesOn(Summarize(log), b, k, now, lag) {
      assert AgreesOn(Summarize(log), a, k, now, lag);
      assert Look(a, k, now) == Look(b, k, now);
    }
  }

  /** Agreement survives the passage of time. */
  lemma AgreementLater(log: Log, r: Store, now: Time, later: Time, lag: nat)
    requires Agreement(log, r, now, lag) && now <= later
    ensures Agreement(log, r, later, lag)
  {
    hide Summarize;
    SummaryWellFormed(log);
    forall k ensures AgreesOn(Summarize(log), r, k, later, lag) {
      assert AgreesOn(Summarize(log), r, k, now, lag);
    }
  }

  /** A wider lag allows more. */
  lemma AgreementWider(log: Log, r: Store, now: Time, lag: nat, wider: nat)
    requires Agreement(log, r, now, lag) && lag <= wider
    ensures Agreement(log, r, now, wider)
  {
    hide Summarize;
    forall k ensures AgreesOn(Summarize(log), r, k, now, wider) {
      assert AgreesOn(Summarize(log), r, k, now, lag);
    }
  }

  /** A deadline of `ms` milliseconds from `now` against the stamp it was logged with, also when it is already over. */
  lemma RelativeAgrees(s: Summary, r: Store, key: Key, t: Trace, value: Bytes, ms: nat, logged: Time, now: Time, lag: nat)
    requires logged <= now <= logged + lag
    requires t.value == value && t.last == Some(StampFromNow(ms, logged)) && t.low.Some? && t.low.value <= t.last.value
    ensures AgreesOn(s[key := t], r[key := Entry(value, Some(now + ms * NANOS))], key, now, lag)
  {
    hide StampFromNow;
    LoggedStampNotLater(ms, logged, now);
  }

  /** A stamp applied at `now`: installed with a deadline in its millisecond, or already over and removed. */
  lemma StampAgrees(s: Summary, r: Store, key: Key, t: Trace, value: Bytes, stamp: u64, now: Time, lag: nat)
    requires t.value == value && t.last == Some(stamp) && t.low.Some? && t.low.value <= stamp
    ensures AgreesOn(s[key := t], PutAt(r, key, value, stamp, now), key, now, lag)
  {
    if stamp > UnixMs(now) {
      StampDeadlineExact(stamp, now);
    }
  }

  lemma SetAgrees(s: Summary, r: Store, c: Command, logged: Time, now: Time, lag: nat)
    requires (c.Set? || c.SetPxAt?) && logged <= now <= logged + lag
    ensures AgreesOn(Note(s, Absolute(c, logged)), Next(r, c, now), c.key, now, lag)
  {
    hide StampFromNow, DurationUntil, PutAt;
    if c.SetPxAt? {
      StampAgrees(s, r, c.key, Trace(c.value, Some(c.timestampMs), Some(c.timestampMs)), c.value, c.timestampMs, now, lag);
    } else if c.expire.Some? {
      var stamp := StampFromNow(c.expire.value, logged);
      RelativeAgrees(s, r, c.key, Trace(c.value, Some(stamp), Some(stamp)), c.value, c.expire.value, logged, now, lag);
    }
  }

  lemma ExpireAgrees(s: Summary, r: Store, c: Command, logged: Time, now: Time, lag: nat)
    requires (c.Expire? || c.ExpireAt?) && logged <= now <= logged + lag
    requires AgreesOn(s, r, c.key, now, lag)
    requires c.key in s ==> WellFormed(s[c.key])
    ensures AgreesOn(Note(s, Absolute(c, logged)), Next(r, c, now), c.key, now, lag)
  {
    hide StampFromNow, DurationUntil, PutAt, UnixMs;
    if Look(r, c.key, now).Some? {
      var stamp := if c.Expire? then StampFromNow(1000 * c.seconds, logged) else c.timestampMs;
      var value := s[c.key].value;
      var t := Trace(value, Some(Lower(s[c.key].low, stamp)), Some(stamp));
      if c.Expire? {
        assert c.seconds * SECOND == 1000 * c.seconds * NANOS;
        RelativeAgrees(s, r, c.key, t, value, 1000 * c.seconds, logged, now, lag);
      } else {
        StampAgrees(s, r, c.key, t, value, stamp, now, lag);
      }
    }
  }

  /** A command leaves the trace and the entry of every key it does not name. */
  lemma OthersAgree(s: Summary, r: Store, c: Command, logged: Time, now: Time, k: Key, lag: nat)
    requires IsWrite(c) && AgreesOn(s, r, k, now, lag)
    requires (c.Set? || c.SetPxAt? || c.Expire? || c.ExpireAt?) ==> c.key != k
    ensures AgreesOn(Note(s, Absolute(c, logged)), Next(r, c, now), k, now, lag)
  {
    hide StampFromNow, DurationUntil, UnixMs;
  }

  /** Logging a command and executing it no earlier and at most `lag` later keeps agreement. */
  lemma AgreementStep(log: Log, r: Store, c: Command, logged: Time, now: Time, lag: nat)
    requires IsWrite(c) && logged <= now <= logged + lag && Agreement(log, r, now, lag)
    ensures Agreement(log + [Absolute(c, logged)], Next(r, c, now), now, lag)
  {
    var s := Summarize(log);
    SummaryWellFormed(log);
    SummarizeSnoc(log, Absolute(c, logged));
    hide Summarize, Note, Next, Absolute, AgreesOn;
    forall k ensures AgreesOn(Note(s, Absolute(c, logged)), Next(r, c, now), k, now, lag) {
      assert AgreesOn(s, r, k, now, lag);
      if (c.Set? || c.SetPxAt?) && c.key == k {
        SetAgrees(s, r, c, logged, now, lag);
      } else if (c.Expire? || c.ExpireAt?) && c.key == k {
        ExpireAgrees(s, r, c, logged, now, lag);
      } else {
        OthersAgree(s, r, c, logged, now, k, lag);
      }
    }
  }

  // ------------------------------------------------------- executed history

  /** A client's write: when its command was logged and when it took effect. */
  datatype Applied = Applied(command: Command, logged: Time, at: Time)

  /** Each command is logged, then applied, one after the other. */
  predicate InOrder(history: seq<Applied>, from: Time, until: Time) {
    if |history| == 0 then from <= until
    else
      var last := history[|history| - 1];
      && IsWrite(last.command) && last.logged <= last.at <= until
      && InOrder(history[..|history| - 1], from, last.logged)
  }

  /** The store after the commands of a history, each applied at its own time. */
  function Fold(base: Store, history: seq<Applied>): Store {
    if |history| == 0 then base
    else
      var last := history[|history| - 1];
      Next(Fold(base, history[..|history| - 1]), last.command, last.at)
  }

  /** What the history left in the log. */
  function Logged(history: seq<Applied>): (log: Log)
    ensures |log| == |history|
  {
    if |history| == 0 then []
    else
      var last := history[|history| - 1];
      Logged(history[..|history| - 1]) + [Absolute(last.command, last.logged)]
  }

  /** The longest a command of the history waited between being logged and taking effect. */
  function Lag(history: seq<Applied>): (lag: nat)
    ensures forall i :: 0 <= i < |history| ==> history[i].at - history[i].logged <= lag
  {
    if |history| == 0 then 0
    else
      var last, rest := history[|history| - 1], Lag(history[..|history| - 1]);
      if last.at - last.logged > rest then last.at - last.logged else rest
  }

  /** A history executed on a store its log agreed with leaves log and store in agreement. */
  lemma {:induction false} HistoryAgrees(log: Log, base: Store, history: seq<Applied>, from: Time, now: Time, lag: nat)
    requires Agreement(log, base, from, lag) && InOrder(history, from, now) && Lag(history) <= lag
    ensures Agreement(log + Logged(history), Fold(base, history), now, lag)
  {
    hide Agreement, Next, Absolute;
    if |history| == 0 {
      assert log + [] == log;
      AgreementLater(log, base, from, now, lag);
    } else {
      var init, last := history[..|history| - 1], history[|history| - 1];
      HistoryAgrees(log, base, init, from, last.logged, lag);
      AgreementLater(log + Logged(init), Fold(base, init), last.logged, last.at, lag);
      AgreementStep(log + Logged(init), Fold(base, init), last.command, last.logged, last.at, lag);
      assert log + Logged(history) == log + Logged(init) + [Absolute(last.command, last.logged)];
      AgreementLater(log + Logged(history), Fold(base, history), last.at, now, lag);
    }
  }

  // ----------------------------------------------------------------- replay

  /** Clock readings of a replay, one per command, not running backwards and within bounds. */
  predicate Clocks(clocks: seq<Time>, from: Time, until: Time) {
    && from <= until
    && (forall i :: 0 <= i < |clocks| ==> from <= clocks[i] <= until)
    && (forall i, j :: 0 <= i < j < |clocks| ==> clocks[i] <= clocks[j])
  }

  /** The store that replaying a log into an empty one leaves, each command at its own clock reading. */
  function ReplayStore(log: Log, clocks: seq<Time>): Store
    requires |log| == |clocks|
  {
    if |log| == 0 then map[]
    else Next(ReplayStore(log[..|log| - 1], clocks[..|log| - 1]), log[|log| - 1], clocks[|log| - 1])
  }

  /** No stamp of the trace has been reached by `now`. */
  predicate Ahead(t: Trace, now: Time) {
    t.low.Some? ==> t.low.value > UnixMs(now)
  }

  /** A replayed entry is the trace: its value, and a deadline within the millisecond of the latest stamp. */
  predicate Restores(t: Trace, e: Entry) {
    && e.value == t.value
    && e.expireAt.Some? == t.last.Some?
    && (e.expireAt.Some? ==> UnixMs(e.expireAt.value) == t.last.value)
  }

  /** What a replay clocked between `from` and `until` makes of a key: nothing it does not
      trace, nothing with a stamp passed before it started, everything with no stamp passed when it ended. */
  ghost predicate ReplayedKey(s: Summary, r: Store, key: Key, from: Time, until: Time) {
    match Look(r, key, until)
    case Some(e) => key in s && Restores(s[key], e) && Ahead(s[key], from)
    case None => key in s ==> !Ahead(s[key], until)
  }

  ghost predicate Replayed(log: Log, r: Store, from: Time, until: Time) {
    forall k :: ReplayedKey(Summarize(log), r, k, from, until)
  }

  lemma ReplayedLater(log: Log, r: Store, from: Time, until: Time, later: Time)
    requires Replayed(log, r, from, until) && until <= later
    ensures Replayed(log, r, from, later)
  {
    hide Summarize;
    SummaryWellFormed(log);
    forall k ensures ReplayedKey(Summarize(log), r, k, from, later) {
      assert ReplayedKey(Summarize(log), r, k, from, until);
    }
  }

  lemma StampReplayed(s: Summary, r: Store, key: Key, t: Trace, value: Bytes, stamp: u64, from: Time, now: Time)
    requires from <= now && t.value == value && t.last == Some(stamp) && t.low.Some? && t.low.value <= stamp
    requires t.low.value > UnixMs(from) || stamp <= UnixMs(now)
    ensures ReplayedKey(s[key := t], PutAt(r, key, value, stamp, now), key, from, now)
  {
    if stamp > UnixMs(now) {
      StampDeadlineExact(stamp, now);
    }
  }

  lemma KeyReplayed(s: Summary, r: Store, c: Command, k: Key, from: Time, now: Time)
    requires IsAbsolute(c) && from <= now
    requires ReplayedKey(s, r, k, from, now)
    requires k in s ==> WellFormed(s[k])
    ensures ReplayedKey(Note(s, c), Next(r, c, now), k, from, now)
  {
    hide PutAt;
    if c.SetPxAt? && c.key == k {
      StampReplayed(s, r, k, Trace(c.value, Some(c.timestampMs), Some(c.timestampMs)), c.value, c.timestampMs, from, now);
    } else if c.ExpireAt? && c.key == k && Look(r, k, now).Some? {
      var t := Trace(s[k].value, Some(Lower(s[k].low, c.timestampMs)), Some(c.timestampMs));
      StampReplayed(s, r, k, t, r[k].value, c.timestampMs, from, now);
    } else {
      OtherReplayed(s, r, c, k, from, now);
    }
  }

  lemma OtherReplayed(s: Summary, r: Store, c: Command, k: Key, from: Time, now: Time)
    requires IsAbsolute(c) && from <= now && ReplayedKey(s, r, k, from, now)
    requires !(c.SetPxAt? && c.key == k)
    requires !(c.ExpireAt? && c.key == k && Look(r, k, now).Some?)
    ensures ReplayedKey(Note(s, c), Next(r, c, now), k, from, now)
  {
    hide UnixMs, DurationUntil;
  }

  /** What a replay restores, key by key, read off the summary of its log. */
  lemma {:induction false} ReplayCharacterised(log: Log, clocks: seq<Time>, from: Time, until: Time)
    requires AbsoluteLog(log) && |clocks| == |log| && Clocks(clocks, from, until)
    ensures Replayed(log, ReplayStore(log, clocks), from, until)
  {
    hide ReplayedKey, Next, Note;
    if |log| == 0 {
      forall k ensures ReplayedKey(map[], map[], k, from, until) {
        NothingReplayed(k, from, until);
      }
    } else {
      var init, c, now := log[..|log| - 1], log[|log| - 1], clocks[|log| - 1];
      var r := ReplayStore(init, clocks[..|log| - 1]);
      ReplayCharacterised(init, clocks[..|log| - 1], from, now);
      SummaryWellFormed(init);
      forall k ensures ReplayedKey(Summarize(log), ReplayStore(log, clocks), k, from, now) {
        assert ReplayedKey(Summarize(init), r, k, from, now);
        KeyReplayed(Summarize(init), r, c, k, from, now);
      }
      ReplayedLater(log, ReplayStore(log, clocks), from, now, until);
    }
  }

  lemma NothingReplayed(k: Key, from: Time, until: Time)
    ensures ReplayedKey(map[], map[], k, from, until)
  {
  }

  /** A replayed store agrees with the log it came from: a restart starts over from agreement. */
  lemma ReplayAgrees(log: Log, clocks: seq<Time>, from: Time, until: Time)
    requires AbsoluteLog(log) && |clocks| == |log| && Clocks(clocks, from, until)
    ensures Agreement(log, ReplayStore(log, clocks), until, 0)
  {
    hide Summarize, ReplayStore;
    ReplayCharacterised(log, clocks, from, until);
    forall k ensures AgreesOn(Summarize(log), ReplayStore(log, clocks), k, until, 0) {
      assert ReplayedKey(Summarize(log), ReplayStore(log, clocks), k, from, until);
    }
  }

  // -------------------------------------------------------------- snapshots

  function SnapshotCommand(e: SnapshotEntry): Command {
    if e.expireAtMs.Some? then SetPxAt(e.key, e.value, e.expireAtMs.value) else Set(e.key, e.value, None)
  }

  function SnapshotLog(entries: seq<SnapshotEntry>): (log: Log)
    ensures |log| == |entries| && forall i :: 0 <= i < |entries| ==> log[i] == SnapshotCommand(entries[i])
  {
    seq(|entries|, i requires 0 <= i < |entries| => SnapshotCommand(entries[i]))
  }

  lemma {:induction false} RenderedSummary(m: Store, keys: seq<Key>, now: Time)
    requires AllLive(m, keys, now)
    ensures var s := Summarize(SnapshotLog(Render(m, keys, now)));
            && (forall k :: k in s <==> k in keys)
            && (forall k :: k in s ==> k in m && Traces(s[k], m[k], 0))
  {
    hide Note, Traces, SnapshotCommand, EntryOf, Look;
    if |keys| == 0 {
    } else {
      var init, last := keys[..|keys| - 1], keys[|keys| - 1];
      assert keys == init + [last];
      assert forall k :: k in init ==> k in keys;
      assert last in keys && Look(m, last, now).Some?;
      LiveIsKept(m, last, now);
      RenderedSummary(m, init, now);
      var entries := Render(m, keys, now);
      RenderSnoc(m, init, last, now);
      var log := SnapshotLog(Render(m, init, now));
      assert SnapshotLog(entries) == log + [SnapshotCommand(EntryOf(last, m[last], now))];
      SummarizeSnoc(log, SnapshotCommand(EntryOf(last, m[last], now)));
      SnapshotNoted(Summarize(log), m[last], last, now);
    }
  }

  lemma LiveIsKept(m: Store, key: Key, now: Time)
    requires Look(m, key, now).Some?
    ensures key in m && !Expired(m[key], now)
  {
  }

  lemma RenderSnoc(m: Store, keys: seq<Key>, key: Key, now: Time)
    requires AllLive(m, keys + [key], now) && AllLive(m, keys, now) && key in m && !Expired(m[key], now)
    ensures Render(m, keys + [key], now) == Render(m, keys, now) + [EntryOf(key, m[key], now)]
  {
    hide EntryOf;
  }

  lemma SnapshotNoted(s: Summary, e: Entry, key: Key, now: Time)
    requires !Expired(e, now)
    ensures var after := Note(s, SnapshotCommand(EntryOf(key, e, now)));
            && (forall k :: k in after <==> k in s || k == key)
            && (forall k :: k in s && k != key ==> after[k] == s[k])
            && Traces(after[key], e, 0)
  {
    if e.expireAt.Some? {
      var deadline := e.expireAt.value;
      assert SnapshotStamp(deadline, now) <= UnixMs(now) + (deadline - now) / NANOS;
    }
  }

  /** The log written from a snapshot agrees with the store it was taken of. */
  lemma SnapshotAgrees(r: Store, now: Time)
    ensures Agreement(SnapshotLog(SnapshotOf(r, now)), r, now, 0)
    ensures AbsoluteLog(SnapshotLog(SnapshotOf(r, now)))
  {
    var keys := SortedList(LiveKeys(r, now));
    assert forall k :: k in keys <==> k in Elements(keys);
    RenderedSummary(r, keys, now);
  }

  /** The command that restores an entry: its value, and a stamp less than two milliseconds below its deadline
      if it has one. */
  predicate Restoring(c: Command, key: Key, e: Entry) {
    match e.expireAt
    case None => c == Set(key, e.value, None)
    case Some(deadline) =>
      && c.SetPxAt? && c.key == key && c.value == e.value
      && (deadline / 1_000_000 <= 0xFFFF_FFFF_FFFF_FFFF ==>
            c.timestampMs * 1_000_000 <= deadline < (c.timestampMs + 2) * 1_000_000)
  }

  /** One restoring command for each key live at `now`, in ascending order, and no other command. */
  ghost predicate OneEach(log: Log, m: Store, now: Time) {
    && |log| == |set k | k in m && Look(m, k, now).Some?|
    && (forall i :: 0 <= i < |log| ==> log[i].Set? || log[i].SetPxAt?)
    && (forall i :: 0 <= i < |log| ==>
          Look(m, log[i].key, now).Some? && Restoring(log[i], log[i].key, Look(m, log[i].key, now).value))
    && (forall i, j :: 0 <= i < j < |log| ==> Precedes(log[i].key, log[j].key))
    && (forall k :: Look(m, k, now).Some? ==> exists i :: 0 <= i < |log| && log[i].key == k)
  }

  lemma EntryRestores(x: SnapshotEntry, e: Entry)
    requires EntryFor(x, e)
    ensures var c := SnapshotCommand(x);
            (c.Set? || c.SetPxAt?) && c.key == x.key && Restoring(c, x.key, e)
  {
  }

  /** The log written from a snapshot is just that. */
  lemma SnapshotLogExactly(m: Store, now: Time)
    ensures OneEach(SnapshotLog(SnapshotOf(m, now)), m, now)
  {
    hide SnapshotOf, Precedes, EntryFor, Restoring, SnapshotCommand, Look;
    var entries := SnapshotOf(m, now);
    var log := SnapshotLog(entries);
    SnapshotExactly(m, now);
    forall i | 0 <= i < |log|
      ensures (log[i].Set? || log[i].SetPxAt?) && log[i].key == entries[i].key
      ensures Look(m, log[i].key, now).Some? && Restoring(log[i], log[i].key, Look(m, log[i].key, now).value)
    {
      EntryRestores(entries[i], Look(m, entries[i].key, now).value);
    }
    forall k | Look(m, k, now).Some? ensures exists i :: 0 <= i < |log| && log[i].key == k {
      var i :| 0 <= i < |entries| && entries[i].key == k;
      assert log[i].key == k;
    }
  }

  /** Stores alike at the instant have the same such logs. */
  lemma OneEachSame(log: Log, m: Store, r: Store, now: Time)
    requires SameAt(m, r, now) && OneEach(log, m, now)
    ensures OneEach(log, r, now)
  {
    hide Restoring, Precedes;
    assert (set k | k in m && Look(m, k, now).Some?) == set k | k in r && Look(r, k, now).Some? by {
      forall k ensures Look(m, k, now) == Look(r, k, now) {
      }
    }
  }
}
