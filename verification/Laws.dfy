/** What clients see, in plain values: each command's reply, and what one command makes of a later one's. */
module Laws {
  import opened Bytes
  import opened Decimal
  import opened Clock
  import opened Resp
  import opened Commands
  import opened Reference

  // ---------------------------------------------------------------- numbers

  /** Unsigned to signed: the same number while it fits, else the one congruent to it modulo 2^64. */
  lemma AsI64Exactly(n: nat)
    ensures n <= 0x7FFF_FFFF_FFFF_FFFF ==> AsI64(n) == n
    ensures (n - AsI64(n)) % 0x1_0000_0000_0000_0000 == 0
  {
    var size := 0x1_0000_0000_0000_0000;
    assert n == n / size * size + n % size;
    if n % size <= I64_MAX {
      assert n - AsI64(n) == n / size * size;
    } else {
      assert n - AsI64(n) == (n / size + 1) * size;
    }
  }

  /** `n` whole seconds are the least that cover `left` nanoseconds. */
  predicate SecondsUp(n: int, left: int) {
    (n - 1) * 1_000_000_000 < left <= n * 1_000_000_000
  }

  /** -2 without a live key, -1 without a deadline, else the seconds left, rounded up, while they fit. */
  predicate TtlSays(ttl: int, e: Option<Entry>, now: Time) {
    match e
    case None => ttl == -2
    case Some(Entry(_, None)) => ttl == -1
    case Some(Entry(_, Some(deadline))) => deadline - now <= 0x7FFF_FFFF_FFFF_FFFF * 1_000_000_000 ==> SecondsUp(ttl, deadline - now)
  }

  lemma SecondsLeftUp(deadline: Time, now: Time)
    requires now <= deadline
    ensures SecondsUp(SecondsLeft(deadline, now), deadline - now)
  {
  }

  // ---------------------------------------------------------------- replies

  /** All live keys, in order, as bulk strings. */
  ghost predicate ListsLive(reply: Reply, m: Store, now: Time) {
    && reply.Answer? && reply.resp.Array?
    && (forall i :: 0 <= i < |reply.resp.items| ==> reply.resp.items[i].BulkString?)
    && (forall i, j :: 0 <= i < j < |reply.resp.items| ==> Precedes(reply.resp.items[i].bytes, reply.resp.items[j].bytes))
    && (forall k :: BulkString(k) in reply.resp.items <==> Look(m, k, now).Some?)
  }

  lemma TtlExactly(m: Store, key: Key, now: Time)
    ensures TtlSays(TtlOf(Look(m, key, now), now), Look(m, key, now), now)
  {
    var e := Look(m, key, now);
    if e.Some? && e.value.expireAt.Some? {
      SecondsLeftUp(e.value.expireAt.value, now);
      AsI64Exactly(SecondsLeft(e.value.expireAt.value, now));
    }
    hide AsI64, SecondsLeft;
  }

  lemma TtlReply(m: Store, key: Key, now: Time)
    ensures ReplyTo(m, Ttl(key), now).Answer? && ReplyTo(m, Ttl(key), now).resp.Integer?
    ensures TtlSays(ReplyTo(m, Ttl(key), now).resp.number, Look(m, key, now), now)
  {
    TtlExactly(m, key, now);
    hide TtlOf, TtlSays, Look;
  }

  lemma {:induction false} BulksAre(texts: seq<Bytes>)
    ensures |Bulks(texts)| == |texts| && forall i :: 0 <= i < |texts| ==> Bulks(texts)[i] == BulkString(texts[i])
  {
    if |texts| == 0 {
    } else {
      BulksAre(texts[1..]);
    }
  }

  lemma KeysReply(m: Store, now: Time)
    ensures ListsLive(ReplyTo(m, Keys, now), m, now)
  {
    var keys := SortedList(LiveKeys(m, now));
    BulksAre(keys);
    SortedAscends(keys);
    hide Look, SortedList, StrictlySorted, Precedes;
    assert forall i, j :: 0 <= i < j < |keys| ==> Precedes(keys[i], keys[j]);
    forall k ensures BulkString(k) in Bulks(keys) <==> Look(m, k, now).Some? {
      assert k in Elements(keys) <==> k in LiveKeys(m, now);
      if k in keys {
        var i :| 0 <= i < |keys| && keys[i] == k;
        assert Bulks(keys)[i] == BulkString(k);
      }
    }
  }

  /** What a command is answered, in plain values and what is at its keys. */
  ghost predicate Answers(m: Store, c: Command, now: Time, reply: Reply) {
    match c
    case Ping => reply == Answer(SimpleString([80, 79, 78, 71]))
    case Set(_, _, _) => reply == Answer(SimpleString([79, 75]))
    case SetPxAt(_, _, _) => reply == Answer(SimpleString([79, 75]))
    case FlushDb => reply == Answer(SimpleString([79, 75]))
    case Get(key) =>
      reply == (match Look(m, key, now) case None => Answer(Null) case Some(e) => Answer(BulkString(e.value)))
    case Exists(key) => reply == Answer(Integer(if Look(m, key, now).Some? then 1 else 0))
    case Expire(key, _) => reply == Answer(Integer(if Look(m, key, now).Some? then 1 else 0))
    case ExpireAt(key, _) => reply == Answer(Integer(if Look(m, key, now).Some? then 1 else 0))
    case Del(keys) =>
      var live := set k | k in keys && Look(m, k, now).Some?;
      |live| <= 0x7FFF_FFFF_FFFF_FFFF ==> reply == Answer(Integer(|live|))
    case Ttl(key) => reply.Answer? && reply.resp.Integer? && TtlSays(reply.resp.number, Look(m, key, now), now)
    case Keys => ListsLive(reply, m, now)
    case Info => reply == InfoJson
    case Unknown(name) => reply == Answer(Error(
      [69, 82, 82, 32, 117, 110, 107, 110, 111, 119, 110, 32, 99, 111, 109, 109, 97, 110, 100, 32, 39] + name + [39]))
  }

  lemma ReplyAnswers(m: Store, c: Command, now: Time)
    ensures Answers(m, c, now, ReplyTo(m, c, now))
  {
    match c {
      case Ttl(key) => TtlReply(m, key, now);
      case Keys => KeysReply(m, now);
      case Del(keys) =>
        assert LiveAmong(m, keys, now) == set k | k in keys && Look(m, k, now).Some?;
        AsI64Exactly(|LiveAmong(m, keys, now)|);
      case _ =>
    }
    hide AsI64, Look, TtlSays, ListsLive, TtlOf;
  }

  // ---------------------------------------------------------------- effects

  /** A value with its deadline, while that lies ahead. */
  function While(value: Bytes, deadline: Option<Time>, later: Time): Option<Entry> {
    if deadline.Some? && deadline.value <= later then None else Some(Entry(value, deadline))
  }

  /** SET and EXPIRE count from the command: milliseconds and seconds. */
  lemma RelativeEffects(m: Store, key: Key, value: Bytes, n: nat, seconds: u64, now: Time, later: Time)
    requires now <= later
    ensures Look(Next(m, Set(key, value, None), now), key, later) == While(value, None, later)
    ensures Look(Next(m, Set(key, value, Some(n)), now), key, later) == While(value, Some(now + n * 1_000_000), later)
    ensures Look(Next(m, Expire(key, seconds), now), key, later) == match Look(m, key, now)
              case None => None
              case Some(e) => While(e.value, Some(now + seconds * 1_000_000_000), later)
  {
  }

  /** PXAT and EXPIREAT name a millisecond: reached, the key is gone; else its deadline lies in that
      millisecond, as far into it as the clock is now. */
  lemma AbsoluteEffects(m: Store, key: Key, value: Bytes, stamp: u64, now: Time, later: Time)
    requires now <= later
    ensures Look(Next(m, SetPxAt(key, value, stamp), now), key, later)
         == if stamp <= now / 1_000_000 then None else While(value, Some(stamp * 1_000_000 + now % 1_000_000), later)
    ensures Look(Next(m, ExpireAt(key, stamp), now), key, later) == match Look(m, key, now)
              case None => None
              case Some(e) => if stamp <= now / 1_000_000 then None
                              else While(e.value, Some(stamp * 1_000_000 + now % 1_000_000), later)
  {
    if stamp > UnixMs(now) {
      StampDeadlineExact(stamp, now);
    }
  }

  /** The command names this key as one to write, or clears the store. */
  predicate Touches(c: Command, key: Key) {
    match c
    case Set(k, _, _) => k == key
    case SetPxAt(k, _, _) => k == key
    case Del(keys) => key in keys
    case Expire(k, _) => k == key
    case ExpireAt(k, _) => k == key
    case FlushDb => true
    case _ => false
  }

  /** DEL and FLUSHDB leave nothing, and a command leaves the keys it does not touch alone. */
  lemma OtherEffects(m: Store, c: Command, key: Key, now: Time, later: Time)
    ensures c.FlushDb? || (c.Del? && key in c.keys) ==> Look(Next(m, c, now), key, later).None?
    ensures !Touches(c, key) ==> Look(Next(m, c, now), key, later) == Look(m, key, later)
  {
  }

  // ------------------------------------------------------------ two commands

  /** The value set is read back until its deadline, and from then on nothing is. */
  lemma SetThenGet(m: Store, key: Key, value: Bytes, expire: Option<nat>, now: Time, later: Time)
    requires now <= later
    ensures ReplyTo(Next(m, Set(key, value, expire), now), Get(key), later)
         == Answer(if expire.None? || later < now + expire.value * 1_000_000 then BulkString(value) else Null)
  {
    RelativeEffects(m, key, value, if expire.Some? then expire.value else 0, 0, now, later);
    hide Look, Next;
  }

  /** After EXPIRE of a live key its TTL is what is left of the seconds given, and -2 once they have passed. */
  lemma ExpireThenTtl(m: Store, key: Key, seconds: u64, now: Time, later: Time)
    requires now <= later && Look(m, key, now).Some?
    ensures var reply, left := ReplyTo(Next(m, Expire(key, seconds), now), Ttl(key), later), now + seconds * 1_000_000_000 - later;
            && reply.Answer? && reply.resp.Integer?
            && (left <= 0 ==> reply.resp.number == -2)
            && (0 < left <= 0x7FFF_FFFF_FFFF_FFFF * 1_000_000_000 ==> SecondsUp(reply.resp.number, left))
  {
    RelativeEffects(m, key, [], 0, seconds, now, later);
    TtlReply(Next(m, Expire(key, seconds), now), key, later);
    hide Look, Next, ReplyTo;
  }

  /** Deleted keys do not exist; after FLUSHDB nothing does. */
  lemma GoneAfter(m: Store, keys: seq<Key>, key: Key, now: Time, later: Time)
    ensures key in keys ==> ReplyTo(Next(m, Del(keys), now), Exists(key), later) == Answer(Integer(0))
    ensures key in keys ==> ReplyTo(Next(m, Del(keys), now), Get(key), later) == Answer(Null)
    ensures ReplyTo(Next(m, FlushDb, now), Keys, later) == Answer(Array([]))
  {
    OtherEffects(m, Del(keys), key, now, later);
    var empty := Next(m, FlushDb, now);
    KeysReply(empty, later);
    hide Next, Precedes;
    var items := ReplyTo(empty, Keys, later).resp.items;
    if |items| > 0 {
      assert items[0] in items && items[0] == BulkString(items[0].bytes);
      OtherEffects(m, FlushDb, items[0].bytes, now, later);
    }
  }
}
