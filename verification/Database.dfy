/** The single-map store with lazy and eager expiry. */
module Databases {
  import opened Bytes
  import opened Decimal
  import opened Clock
  import opened Commands
  import opened Reference
  import Laws

  /** Lazy deletion of one key. */
  function DropExpired(m: Store, key: Key, now: Time): Store {
    if key in m && Expired(m[key], now) then m - {key} else m
  }

  /** Eager deletion of everything whose deadline has passed. */
  function Purge(m: Store, now: Time): (r: Store)
    ensures r.Keys <= m.Keys
    ensures forall k :: k in r <==> Look(m, k, now).Some?
    ensures forall k :: k in r ==> r[k] == m[k]
  {
    map k | k in m && !Expired(m[k], now) :: m[k]
  }

  /** Deletion, lazy or eager, changes nothing that can be seen then or later. */
  lemma DeletionInvisible(m: Store, key: Key, now: Time, later: Time)
    requires now <= later
    ensures SameAt(DropExpired(m, key, now), m, later)
    ensures SameAt(Purge(m, now), m, later)
  {
  }

  class Database {
    var data: Store

    constructor ()
      ensures data == map[]
    {
      data := map[];
    }

    method RemoveIfExpired(key: Key, now: Time) returns (removed: bool)
      modifies this
      ensures data == DropExpired(old(data), key, now)
      ensures removed <==> key in old(data) && Expired(old(data)[key], now)
    {
      if key in data && Expired(data[key], now) {
        data := data - {key};
        return true;
      }
      return false;
    }

    method Set(key: Key, value: Bytes, expire: Option<nat>, now: Time)
      modifies this
      ensures data == PutFor(old(data), key, value, expire, now)
    {
      var expireAt := if expire.Some? then Some(now + expire.value * NANOS) else None;
      data := data[key := Entry(value, expireAt)];
    }

    method SetAtMs(key: Key, value: Bytes, stamp: u64, now: Time)
      modifies this
      ensures data == PutAt(old(data), key, value, stamp, now)
    {
      var duration := DurationUntil(stamp, now);
      if duration.None? {
        data := data - {key};
        return;
      }
      data := data[key := Entry(value, Some(now + duration.value))];
    }

    method Get(key: Key, now: Time) returns (value: Option<Bytes>)
      modifies this
      ensures data == DropExpired(old(data), key, now)
      ensures value == match Look(old(data), key, now) case None => None case Some(e) => Some(e.value)
    {
      var expired := RemoveIfExpired(key, now);
      if expired {
        return None;
      }
      return if key in data then Some(data[key].value) else None;
    }

    /** Removes the listed keys and counts those that were live, a repeated key once. */
    method Del(keys: seq<Key>, now: Time) returns (removed: nat)
      modifies this
      ensures data == old(data) - Elements(keys)
      ensures removed == |LiveAmong(old(data), keys, now)|
    {
      removed := 0;
      for i := 0 to |keys|
        invariant data == old(data) - Elements(keys[..i])
        invariant removed == |LiveAmong(old(data), keys[..i], now)|
      {
        var key := keys[i];
        assert keys[..i + 1] == keys[..i] + [key];
        assert old(data) - Elements(keys[..i + 1]) == data - {key};
        LiveAmongSnoc(old(data), keys[..i], key, now);
        var expired := RemoveIfExpired(key, now);
        if expired {
          continue;
        }
        if key in data {
          data := data - {key};
          removed := removed + 1;
        }
      }
      assert keys[..|keys|] == keys;
    }

    method Exists(key: Key, now: Time) returns (present: bool)
      modifies this
      ensures data == DropExpired(old(data), key, now)
      ensures present <==> Look(old(data), key, now).Some?
    {
      var expired := RemoveIfExpired(key, now);
      if expired {
        return false;
      }
      return key in data;
    }

    /** The live keys in order; nothing is deleted. */
    method Keys(now: Time) returns (keys: seq<Key>)
      ensures keys == SortedList(LiveKeys(data, now))
      ensures Ascending(keys) && forall k :: k in keys <==> Look(data, k, now).Some?
    {
      var found: seq<Key> := [];
      var rest := data.Keys;
      while rest != {}
        invariant rest <= data.Keys
        invariant Distinct(found)
        invariant forall k :: k in found <==> k in data && k !in rest && !Expired(data[k], now)
      {
        var key :| key in rest;
        rest := rest - {key};
        if !Expired(data[key], now) {
          found := found + [key];
        }
      }
      keys := Sort(found);
      SortSorted(found);
      SortedListUnique(keys, SortedList(LiveKeys(data, now)));
      SortedAscends(keys);
      assert forall k :: k in keys <==> k in Elements(keys);
    }

    method Expire(key: Key, seconds: u64, now: Time) returns (updated: bool)
      modifies this
      ensures updated <==> Look(old(data), key, now).Some?
      ensures data == if updated then SetDeadline(old(data), key, now + seconds * SECOND)
                      else DropExpired(old(data), key, now)
    {
      var expired := RemoveIfExpired(key, now);
      if expired || key !in data {
        return false;
      }
      data := data[key := data[key].(expireAt := Some(now + seconds * SECOND))];
      return true;
    }

    method ExpireAtMs(key: Key, stamp: u64, now: Time) returns (updated: bool)
      modifies this
      ensures updated <==> Look(old(data), key, now).Some?
      ensures data == if updated then PutAt(old(data), key, old(data)[key].value, stamp, now)
                      else DropExpired(old(data), key, now)
    {
      var expired := RemoveIfExpired(key, now);
      if expired {
        return false;
      }
      var duration := DurationUntil(stamp, now);
      if duration.None? {
        updated := key in data;
        data := data - {key};
        return;
      }
      if key !in data {
        return false;
      }
      data := data[key := data[key].(expireAt := Some(now + duration.value))];
      return true;
    }

    /** TTL reads the clock twice; a deadline passed between the reads counts as passed. */
    method Ttl(key: Key, first: Time, now: Time) returns (ttl: i64)
      requires first <= now
      modifies this
      ensures data == DropExpired(old(data), key, now)
      ensures ttl == TtlOf(Look(old(data), key, now), now)
      ensures Laws.TtlSays(ttl, Look(old(data), key, now), now)
    {
      Laws.TtlExactly(data, key, now);
      var expired := RemoveIfExpired(key, first);
      if expired {
        return -2;
      }
      if key !in data {
        return -2;
      }
      var expireAt := data[key].expireAt;
      if expireAt.None? {
        return -1;
      }
      if now >= expireAt.value {
        data := data - {key};
        return -2;
      }
      var remaining := expireAt.value - now;
      return AsI64(remaining / SECOND + if remaining % SECOND > 0 then 1 else 0);
    }

    method FlushDb()
      modifies this
      ensures data == map[]
    {
      data := map[];
    }

    method RemoveExpired(now: Time) returns (removed: nat)
      modifies this
      ensures data == Purge(old(data), now)
      ensures removed + |data| == |old(data)|
    {
      var before := |data|;
      data := Purge(data, now);
      PurgeShrinks(old(data), now);
      removed := before - |data|;
    }
  }

  lemma PurgeShrinks(m: Store, now: Time)
    ensures |Purge(m, now)| <= |m|
  {
    SubsetSize(Purge(m, now).Keys, m.Keys);
    assert |Purge(m, now)| == |Purge(m, now).Keys|;
  }

  lemma {:induction false} SubsetSize<T>(a: set<T>, b: set<T>)
    requires a <= b
    ensures |a| <= |b|
  {
    assert b == a + (b - a);
  }

  lemma LiveAmongSnoc(m: Store, keys: seq<Key>, key: Key, now: Time)
    ensures |LiveAmong(m, keys + [key], now)|
         == |LiveAmong(m, keys, now)| + if key !in keys && Look(m, key, now).Some? then 1 else 0
  {
    var before, after := LiveAmong(m, keys, now), LiveAmong(m, keys + [key], now);
    if key !in keys && Look(m, key, now).Some? {
      assert after == before + {key};
    } else {
      assert after == before;
    }
  }

  // ------------------------------------------------ a single map as a server

  /** What running `c` on `key` leaves in the key's map, with the lazy deletion of that key. */
  function KeyNext(m: Store, c: Command, key: Key, now: Time): Store {
    match c
    case Set(_, value, expire) => PutFor(m, key, value, expire, now)
    case SetPxAt(_, value, stamp) => PutAt(m, key, value, stamp, now)
    case Del(_) => m - {key}
    case Expire(_, seconds) =>
      if Look(m, key, now).Some? then SetDeadline(m, key, now + seconds * SECOND) else DropExpired(m, key, now)
    case ExpireAt(_, stamp) =>
      if Look(m, key, now).Some? then PutAt(m, key, m[key].value, stamp, now) else DropExpired(m, key, now)
    case _ => DropExpired(m, key, now)
  }

  /** The store after a command on one `Database`. INFO purges. */
  function DbNext(m: Store, c: Command, now: Time): Store {
    match c
    case Ping => m
    case Keys => m
    case Unknown(_) => m
    case Del(keys) => m - Elements(keys)
    case FlushDb => map[]
    case Info => Purge(m, now)
    case _ => KeyNext(m, c, c.key, now)
  }

  /** One step of a `Database` is one step of the reference store. */
  lemma DbRefines(m: Store, r: Store, c: Command, now: Time)
    requires SameAt(m, r, now)
    ensures SameAt(DbNext(m, c, now), Next(r, c, now), now)
  {
    forall k ensures Look(DbNext(m, c, now), k, now) == Look(Next(r, c, now), k, now) {
      assert Look(m, k, now) == Look(r, k, now);
      assert (c.Expire? || c.ExpireAt?) ==> Look(m, c.key, now) == Look(r, c.key, now);
    }
  }
}
