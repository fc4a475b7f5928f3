/**
 * The reference store: a plain map from keys to values with deadlines that
 * nothing ever purges. What a command sees is the map filtered by deadline
 * at the moment of asking. Every store of the source is compared with it.
 */
module Reference {
  import opened Bytes
  import opened Decimal
  import opened Clock
  import opened Resp
  import opened Commands

  datatype Entry = Entry(value: Bytes, expireAt: Option<Time>)

  type Store = map<Key, Entry>

  predicate Expired(e: Entry, now: Time) {
    e.expireAt.Some? && now >= e.expireAt.value
  }

  /** What is at `key` when asked at `now`. */
  function Look(m: Store, key: Key, now: Time): Option<Entry> {
    if key in m && !Expired(m[key], now) then Some(m[key]) else None
  }

  function LiveKeys(m: Store, now: Time): (r: set<Key>)
    ensures forall k :: k in r <==> Look(m, k, now).Some?
  {
    set k | k in m && !Expired(m[k], now)
  }

  /** Two stores no command run at `now` can tell apart. */
  ghost predicate SameAt(a: Store, b: Store, now: Time) {
    forall k :: Look(a, k, now) == Look(b, k, now)
  }

  // -------------------------------------------------------------- effects

  function PutFor(m: Store, key: Key, value: Bytes, expire: Option<nat>, now: Time): Store {
    m[key := Entry(value, if expire.Some? then Some(now + expire.value * NANOS) else None)]
  }

  /** A value with an absolute deadline; a deadline already reached leaves nothing. */
  function PutAt(m: Store, key: Key, value: Bytes, stamp: u64, now: Time): Store {
    match DurationUntil(stamp, now)
    case None => m - {key}
    case Some(left) => m[key := Entry(value, Some(now + left))]
  }

  function SetDeadline(m: Store, key: Key, deadline: Time): Store
    requires key in m
  {
    m[key := Entry(m[key].value, Some(deadline))]
  }

  function Next(m: Store, c: Command, now: Time): Store {
    match c
    case Set(key, value, expire) => PutFor(m, key, value, expire, now)
    case SetPxAt(key, value, stamp) => PutAt(m, key, value, stamp, now)
    case Del(keys) => m - Elements(keys)
    case Expire(key, seconds) =>
      if Look(m, key, now).None? then m else SetDeadline(m, key, now + seconds * SECOND)
    case ExpireAt(key, stamp) =>
      if Look(m, key, now).None? then m else PutAt(m, key, m[key].value, stamp, now)
    case FlushDb => map[]
    case _ => m
  }

  // -------------------------------------------------------------- replies

  /** INFO's JSON is not modelled, only that it is what INFO answers. */
  datatype Reply = Answer(resp: Resp) | InfoJson

  /** Rust's `as i64` from an unsigned integer: wrap modulo 2^64. */
  function AsI64(n: nat): i64 {
    var low := n % (U64_MAX + 1);
    if low <= I64_MAX then low else low - (U64_MAX + 1)
  }

  /** Whole seconds left, rounded up. */
  function SecondsLeft(deadline: Time, now: Time): nat
    requires now <= deadline
  {
    (deadline - now) / SECOND + if (deadline - now) % SECOND > 0 then 1 else 0
  }

  function TtlOf(e: Option<Entry>, now: Time): i64 {
    match e
    case None => -2
    case Some(Entry(_, None)) => -1
    case Some(Entry(_, Some(deadline))) => if now < deadline then AsI64(SecondsLeft(deadline, now)) else -2
  }

  function LiveAmong(m: Store, keys: seq<Key>, now: Time): (r: set<Key>)
    ensures forall k :: k in r <==> k in keys && Look(m, k, now).Some?
  {
    set k | k in keys && Look(m, k, now).Some?
  }

  function Flag(b: bool): Reply {
    Answer(Integer(if b then 1 else 0))
  }

  const OK: Bytes := [79, 75]
  const PONG: Bytes := [80, 79, 78, 71]
  const UNKNOWN: Bytes := [69, 82, 82, 32, 117, 110, 107, 110, 111, 119, 110, 32, 99, 111, 109, 109, 97, 110, 100, 32, 39]

  ghost function ReplyTo(m: Store, c: Command, now: Time): Reply {
    match c
    case Ping => Answer(SimpleString(PONG))
    case Set(_, _, _) => Answer(SimpleString(OK))
    case SetPxAt(_, _, _) => Answer(SimpleString(OK))
    case Get(key) =>
      Answer(match Look(m, key, now) case None => Null case Some(e) => BulkString(e.value))
    case Del(keys) => Answer(Integer(AsI64(|LiveAmong(m, keys, now)|)))
    case Exists(key) => Flag(Look(m, key, now).Some?)
    case Keys => Answer(Array(Bulks(SortedList(LiveKeys(m, now)))))
    case Expire(key, _) => Flag(Look(m, key, now).Some?)
    case ExpireAt(key, _) => Flag(Look(m, key, now).Some?)
    case Ttl(key) => Answer(Integer(TtlOf(Look(m, key, now), now)))
    case FlushDb => Answer(SimpleString(OK))
    case Info => InfoJson
    case Unknown(name) => Answer(Error(UNKNOWN + name + [39]))
  }

  // -------------------------------------------------- what nobody can tell

  /** Stores alike now stay alike: deadlines only take entries away, the same ones. */
  lemma SameLater(a: Store, b: Store, now: Time, later: Time)
    requires SameAt(a, b, now) && now <= later
    ensures SameAt(a, b, later)
  {
    forall k ensures Look(a, k, later) == Look(b, k, later) {
      assert Look(a, k, now) == Look(b, k, now);
    }
  }

  /** Alike stores answer alike. */
  lemma SameReply(a: Store, b: Store, c: Command, now: Time)
    requires SameAt(a, b, now)
    ensures ReplyTo(a, c, now) == ReplyTo(b, c, now)
  {
    assert forall k :: Look(a, k, now) == Look(b, k, now);
    if c.Keys? {
      assert LiveKeys(a, now) == LiveKeys(b, now);
    } else if c.Del? {
      assert LiveAmong(a, c.keys, now) == LiveAmong(b, c.keys, now);
    }
  }

  /** Alike stores stay alike under the same command. */
  lemma SameNext(a: Store, b: Store, c: Command, now: Time)
    requires SameAt(a, b, now)
    ensures SameAt(Next(a, c, now), Next(b, c, now), now)
  {
    forall k ensures Look(Next(a, c, now), k, now) == Look(Next(b, c, now), k, now) {
      assert Look(a, k, now) == Look(b, k, now);
      assert (c.Expire? || c.ExpireAt?) ==> Look(a, c.key, now) == Look(b, c.key, now);
    }
  }
}
