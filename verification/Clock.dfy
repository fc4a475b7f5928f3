/**
 * Deadlines and millisecond stamps. Instants are written on the Unix axis in
 * nanoseconds: the monotonic clock and the Unix clock differ by a constant.
 */
module Clock {
  import opened Bytes
  import opened Decimal

  type Time = nat

  const NANOS: nat := 1_000_000
  const SECOND: nat := 1_000_000_000

  /** Milliseconds since the Unix epoch, as `as_millis` truncates them. */
  function UnixMs(now: Time): nat {
    now / NANOS
  }

  function MinU64(n: nat): u64 {
    if n <= U64_MAX then n else U64_MAX
  }

  /** Time left until a stamp, nothing once the clock has reached it. */
  function DurationUntil(stamp: u64, now: Time): Option<nat> {
    if stamp <= UnixMs(now) then None else Some(MinU64(stamp - UnixMs(now)) * NANOS)
  }

  /** The stamp logged for a relative expiry of `ms` milliseconds. */
  function StampFromNow(ms: nat, now: Time): u64 {
    MinU64(UnixMs(now) + ms)
  }

  /** The stamp a snapshot writes for a deadline that lies ahead of its monotonic reading `instant`, with its Unix reading at `unix`. */
  function StampOf(deadline: Time, instant: Time, unix: Time): u64
    requires instant <= deadline
  {
    MinU64(MinU64(UnixMs(unix)) + (deadline - instant) / NANOS)
  }

  /** The stamp of a snapshot that reads both clocks at `now`. */
  function SnapshotStamp(deadline: Time, now: Time): u64
    requires now <= deadline
  {
    StampOf(deadline, now, now)
  }

  /** The deadline a stamp becomes when it is applied at `now`. */
  function StampDeadline(stamp: u64, now: Time): (deadline: Time)
    requires stamp > UnixMs(now)
  {
    now + DurationUntil(stamp, now).value
  }

  // --------------------------------------------------------------- one trip

  /** Applying a stamp keeps the sub-millisecond part of the clock: the deadline lies in the stamp's millisecond. */
  lemma StampDeadlineExact(stamp: u64, now: Time)
    requires stamp > UnixMs(now)
    ensures StampDeadline(stamp, now) == stamp * NANOS + now % NANOS
    ensures UnixMs(StampDeadline(stamp, now)) == stamp
  {
  }

  /** The logged stamp of a relative expiry is never later than the deadline execution installs afterwards. */
  lemma LoggedStampNotLater(ms: nat, logged: Time, executed: Time)
    requires logged <= executed
    ensures StampFromNow(ms, logged) * NANOS <= executed + ms * NANOS
    ensures UnixMs(logged) + ms <= U64_MAX
        ==> executed + ms * NANOS < (StampFromNow(ms, logged) + 1) * NANOS + (executed - logged)
    ensures StampFromNow(ms, logged) < U64_MAX ==> UnixMs(logged) + ms <= U64_MAX
  {
  }

  /** A snapshot truncates twice, so its stamp is at most one millisecond below the deadline's own. */
  lemma SnapshotStampBounds(deadline: Time, now: Time)
    requires now <= deadline && UnixMs(deadline) <= U64_MAX
    ensures SnapshotStamp(deadline, now) * NANOS <= deadline < (SnapshotStamp(deadline, now) + 2) * NANOS
    ensures SnapshotStamp(deadline, now)
         == if now % NANOS <= deadline % NANOS then UnixMs(deadline) else UnixMs(deadline) - 1
  {
    var whole, part := deadline / NANOS - now / NANOS, deadline % NANOS - now % NANOS;
    assert deadline - now == whole * NANOS + part;
    if part >= 0 {
      assert (deadline - now) / NANOS == whole;
    } else {
      assert (deadline - now) / NANOS == whole - 1;
    }
  }

  /** Snapshot, log and replay move a deadline by more than -2 ms and less than +1 ms. */
  lemma DriftBound(deadline: Time, snapshot: Time, replay: Time)
    requires snapshot <= deadline && UnixMs(deadline) <= U64_MAX
    requires SnapshotStamp(deadline, snapshot) > UnixMs(replay)
    ensures -2 * (NANOS as int) < StampDeadline(SnapshotStamp(deadline, snapshot), replay) - deadline < NANOS
  {
    SnapshotStampBounds(deadline, snapshot);
    StampDeadlineExact(SnapshotStamp(deadline, snapshot), replay);
  }

  /** The two clocks are read one after the other: the monotonic one first in a snapshot, the Unix one first when a
      stamp is applied. The time between the readings is all they add, and only upwards. */
  lemma DelayedDrift(deadline: Time, instant: Time, unix: Time, replayUnix: Time, replayInstant: Time)
    requires instant <= unix && instant <= deadline && replayUnix <= replayInstant
    requires UnixMs(deadline + (unix - instant)) <= U64_MAX
    requires StampOf(deadline, instant, unix) > UnixMs(replayUnix)
    ensures var got := replayInstant + DurationUntil(StampOf(deadline, instant, unix), replayUnix).value;
            -2 * (NANOS as int) < got - deadline < NANOS + (unix - instant) + (replayInstant - replayUnix)
  {
    var shifted := deadline + (unix - instant);
    assert shifted - unix == deadline - instant;
    var stamp := StampOf(deadline, instant, unix);
    SnapshotStampBounds(shifted, unix);
    StampDeadlineExact(stamp, replayUnix);
    StampNotEarly(deadline, instant, unix);
  }

  /** A later Unix reading only raises the stamp. */
  lemma StampNotEarly(deadline: Time, instant: Time, unix: Time)
    requires instant <= unix && instant <= deadline && UnixMs(deadline + (unix - instant)) <= U64_MAX
    ensures deadline < (StampOf(deadline, instant, unix) + 2) * NANOS
  {
    SnapshotStampBounds(deadline, instant);
    assert UnixMs(deadline) <= UnixMs(deadline + (unix - instant));
    assert UnixMs(instant) <= UnixMs(unix);
  }

  // ------------------------------------------------------------ many cycles

  /** A restart that applies the stamp, then a snapshot that writes a new one. */
  datatype Cycle = Cycle(restart: Time, snapshot: Time)

  /** The key is still alive at the restart and at the snapshot of the cycle. */
  predicate Alive(stamp: u64, cycle: Cycle) {
    && cycle.restart <= cycle.snapshot
    && UnixMs(cycle.restart) < stamp
    && cycle.snapshot < StampDeadline(stamp, cycle.restart)
  }

  function NextStamp(stamp: u64, cycle: Cycle): u64
    requires Alive(stamp, cycle)
  {
    SnapshotStamp(StampDeadline(stamp, cycle.restart), cycle.snapshot)
  }

  predicate AllAlive(stamp: u64, cycles: seq<Cycle>)
    decreases |cycles|
  {
    |cycles| == 0 || (Alive(stamp, cycles[0]) && AllAlive(NextStamp(stamp, cycles[0]), cycles[1..]))
  }

  function StampAfter(stamp: u64, cycles: seq<Cycle>): u64
    requires AllAlive(stamp, cycles)
    decreases |cycles|
  {
    if |cycles| == 0 then stamp else StampAfter(NextStamp(stamp, cycles[0]), cycles[1..])
  }

  /** One cycle keeps the stamp exactly when the snapshot's clock is no further into its millisecond than the restart's was; else it loses one. */
  lemma CycleDrift(stamp: u64, cycle: Cycle)
    requires Alive(stamp, cycle)
    ensures NextStamp(stamp, cycle)
         == if cycle.snapshot % NANOS <= cycle.restart % NANOS then stamp else stamp - 1
  {
    var deadline := StampDeadline(stamp, cycle.restart);
    StampDeadlineExact(stamp, cycle.restart);
    assert deadline % NANOS == cycle.restart % NANOS;
    SnapshotStampBounds(deadline, cycle.snapshot);
  }

  /** Over any number of rewrite-and-restart cycles the stamp never rises and falls by at most one per cycle. */
  lemma {:induction false} CyclesDrift(stamp: u64, cycles: seq<Cycle>)
    requires AllAlive(stamp, cycles)
    ensures stamp - |cycles| <= StampAfter(stamp, cycles) <= stamp
    decreases |cycles|
  {
    if |cycles| == 0 {
    } else {
      CycleDrift(stamp, cycles[0]);
      CyclesDrift(NextStamp(stamp, cycles[0]), cycles[1..]);
    }
  }
}
