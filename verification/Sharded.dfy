/** The sharded store as the server holds it, and the executor of commands on it. */
module Sharded {
  import opened Bytes
  import opened Decimal
  import opened Clock
  import opened Resp
  import C = Commands
  import opened Reference
  import opened Databases
  import opened Shards
  import opened Ledger
  import opened Snapshots
  import Laws

  class ShardedDatabase {
    const hash: Hash
    const shards: seq<Database>
    var keyCount: nat

    ghost function View(): (v: ShardMaps)
      reads shards
      ensures |v| == |shards| && forall i :: 0 <= i < |shards| ==> v[i] == shards[i].data
    {
      seq(|shards|, i requires 0 <= i < |shards| reads shards => shards[i].data)
    }

    /** Shards are separate objects, each key is where it is routed, the counter is exact. */
    ghost predicate Valid()
      reads this, shards
    {
      && |shards| > 0
      && (forall i, j :: 0 <= i < j < |shards| ==> shards[i] != shards[j])
      && Routed(hash, View())
      && keyCount == Total(View())
    }

    /** A shard count of zero is raised to one. */
    constructor (hash: Hash, shardCount: nat)
      ensures Valid() && fresh(shards) && this.hash == hash
      ensures |shards| == if shardCount == 0 then 1 else shardCount
      ensures View() == EmptyShards(|shards|)
    {
      var count := if shardCount == 0 then 1 else shardCount;
      var made: seq<Database> := [];
      for i := 0 to count
        invariant |made| == i && fresh(made)
        invariant forall j :: 0 <= j < i ==> made[j].data == map[]
        invariant forall j, k :: 0 <= j < k < i ==> made[j] != made[k]
      {
        var shard := new Database();
        made := made + [shard];
      }
      this.hash := hash;
      shards := made;
      keyCount := 0;
      new;
      assert View() == EmptyShards(count);
      SumZero(Lens(View()));
    }

    /** The counter follows a change of length; the subtraction saturates at zero. */
    method ApplyLenChange(before: nat, after: nat)
      modifies this`keyCount
      ensures keyCount == Recount(old(keyCount), before, after)
    {
      if after >= before {
        keyCount := keyCount + (after - before);
      } else {
        var delta := before - after;
        keyCount := if keyCount >= delta then keyCount - delta else 0;
      }
    }

    method Set(key: C.Key, value: Bytes, expire: Option<nat>, now: Time) returns (expired: nat)
      requires Valid()
      modifies this, shards
      ensures Valid()
      ensures View() == Visit(hash, old(View()), C.Set(key, value, expire), key, now)
      ensures expired == VisitExpired(old(View()[Route(hash, key, |shards|)]), C.Set(key, value, expire), key, now)
    {
      hide Routed, Total, Route, Purge, PutFor, PutAt, SetDeadline, DropExpired, View;
      var i := Route(hash, key, |shards|);
      var db := shards[i];
      var before := |db.data|;
      expired := db.RemoveExpired(now);
      db.Set(key, value, expire, now);
      VisitKeeps(hash, old(View()), C.Set(key, value, expire), key, now);
      assert View() == old(View())[i := db.data];
      ApplyLenChange(before, |db.data|);
    }

    method SetAtMs(key: C.Key, value: Bytes, stamp: u64, now: Time) returns (expired: nat)
      requires Valid()
      modifies this, shards
      ensures Valid()
      ensures View() == Visit(hash, old(View()), C.SetPxAt(key, value, stamp), key, now)
      ensures expired == VisitExpired(old(View()[Route(hash, key, |shards|)]), C.SetPxAt(key, value, stamp), key, now)
    {
      hide Routed, Total, Route, Purge, PutFor, PutAt, SetDeadline, DropExpired, View;
      var i := Route(hash, key, |shards|);
      var db := shards[i];
      var before := |db.data|;
      expired := db.RemoveExpired(now);
      db.SetAtMs(key, value, stamp, now);
      VisitKeeps(hash, old(View()), C.SetPxAt(key, value, stamp), key, now);
      assert View() == old(View())[i := db.data];
      ApplyLenChange(before, |db.data|);
    }

    method Get(key: C.Key, now: Time) returns (value: Option<Bytes>, expired: nat)
      requires Valid()
      modifies this, shards
      ensures Valid()
      ensures View() == Visit(hash, old(View()), C.Get(key), key, now)
      ensures value == match LookIn(hash, old(View()), key, now) case None => None case Some(e) => Some(e.value)
      ensures expired == VisitExpired(old(View()[Route(hash, key, |shards|)]), C.Get(key), key, now)
    {
      hide Routed, Total, Route, Purge, PutFor, PutAt, SetDeadline, DropExpired, View;
      var i := Route(hash, key, |shards|);
      var db := shards[i];
      var before := |db.data|;
      value := db.Get(key, now);
      VisitKeeps(hash, old(View()), C.Get(key), key, now);
      assert View() == old(View())[i := db.data];
      ApplyLenChange(before, |db.data|);
      expired := SaturatingSub(before, |db.data|);
    }

    method Exists(key: C.Key, now: Time) returns (present: bool, expired: nat)
      requires Valid()
      modifies this, shards
      ensures Valid()
      ensures View() == Visit(hash, old(View()), C.Exists(key), key, now)
      ensures present <==> LookIn(hash, old(View()), key, now).Some?
      ensures expired == VisitExpired(old(View()[Route(hash, key, |shards|)]), C.Exists(key), key, now)
    {
      hide Routed, Total, Route, Purge, PutFor, PutAt, SetDeadline, DropExpired, View;
      var i := Route(hash, key, |shards|);
      var db := shards[i];
      var before := |db.data|;
      present := db.Exists(key, now);
      VisitKeeps(hash, old(View()), C.Exists(key), key, now);
      assert View() == old(View())[i := db.data];
      ApplyLenChange(before, |db.data|);
      expired := SaturatingSub(before, |db.data|);
    }

    method Expire(key: C.Key, seconds: u64, now: Time) returns (updated: bool, expired: nat)
      requires Valid()
      modifies this, shards
      ensures Valid()
      ensures View() == Visit(hash, old(View()), C.Expire(key, seconds), key, now)
      ensures updated <==> LookIn(hash, old(View()), key, now).Some?
      ensures expired == VisitExpired(old(View()[Route(hash, key, |shards|)]), C.Expire(key, seconds), key, now)
    {
      hide Routed, Total, Route, Purge, PutFor, PutAt, SetDeadline, DropExpired, View;
      var i := Route(hash, key, |shards|);
      var db := shards[i];
      var before := |db.data|;
      updated := db.Expire(key, seconds, now);
      VisitKeeps(hash, old(View()), C.Expire(key, seconds), key, now);
      assert View() == old(View())[i := db.data];
      ApplyLenChange(before, |db.data|);
      expired := SaturatingSub(before, |db.data|);
    }

    method ExpireAtMs(key: C.Key, stamp: u64, now: Time) returns (updated: bool, expired: nat)
      requires Valid()
      modifies this, shards
      ensures Valid()
      ensures View() == Visit(hash, old(View()), C.ExpireAt(key, stamp), key, now)
      ensures updated <==> LookIn(hash, old(View()), key, now).Some?
      ensures expired == VisitExpired(old(View()[Route(hash, key, |shards|)]), C.ExpireAt(key, stamp), key, now)
    {
      hide Routed, Total, Route, Purge, PutFor, PutAt, SetDeadline, DropExpired, View;
      var i := Route(hash, key, |shards|);
      var db := shards[i];
      var before := |db.data|;
      updated := db.ExpireAtMs(key, stamp, now);
      VisitKeeps(hash, old(View()), C.ExpireAt(key, stamp), key, now);
      assert View() == old(View())[i := db.data];
      ApplyLenChange(before, |db.data|);
      expired := SaturatingSub(before, |db.data|);
    }

    method Ttl(key: C.Key, first: Time, now: Time) returns (ttl: i64, expired: nat)
      requires Valid() && first <= now
      modifies this, shards
      ensures Valid()
      ensures View() == Visit(hash, old(View()), C.Ttl(key), key, now)
      ensures ttl == TtlOf(LookIn(hash, old(View()), key, now), now)
      ensures Laws.TtlSays(ttl, LookIn(hash, old(View()), key, now), now)
      ensures expired == VisitExpired(old(View()[Route(hash, key, |shards|)]), C.Ttl(key), key, now)
    {
      hide Routed, Total, Route, Purge, PutFor, PutAt, SetDeadline, DropExpired, View;
      var i := Route(hash, key, |shards|);
      var db := shards[i];
      var before := |db.data|;
      ttl := db.Ttl(key, first, now);
      VisitKeeps(hash, old(View()), C.Ttl(key), key, now);
      assert View() == old(View())[i := db.data];
      ApplyLenChange(before, |db.data|);
      expired := SaturatingSub(before, |db.data|);
    }

    /** One key of a DEL: lock its shard, delete, count. */
    method DelOne(key: C.Key, ghost c: C.Command, now: Time) returns (removed: nat, expired: nat)
      requires Valid() && c.Del?
      modifies this, shards
      ensures Valid()
      ensures View() == Visit(hash, old(View()), c, key, now)
      ensures removed == if LookIn(hash, old(View()), key, now).Some? then 1 else 0
      ensures expired == VisitExpired(old(View()[Route(hash, key, |shards|)]), c, key, now)
    {
      hide Routed, Total, Route, Purge, PutFor, PutAt, SetDeadline, DropExpired, View;
      var i := Route(hash, key, |shards|);
      var db := shards[i];
      var before := |db.data|;
      removed := db.Del([key], now);
      assert Elements([key]) == {key};
      LiveAmongSnoc(old(db.data), [], key, now);
      assert [] + [key] == [key];
      assert LiveAmong(old(db.data), [], now) == {};
      VisitKeeps(hash, old(View()), c, key, now);
      assert View() == old(View())[i := db.data];
      ApplyLenChange(before, |db.data|);
      expired := SaturatingSub(SaturatingSub(before, |db.data|), removed);
    }

    /** The number of distinct live keys listed, and the store without all of them. */
    method Del(keys: seq<C.Key>, now: Time) returns (removed: nat, expired: nat)
      requires Valid()
      modifies this, shards
      ensures Valid()
      ensures View() == VisitAll(hash, old(View()), C.Del(keys), keys, now)
      ensures removed == |LiveAmong(Flat(hash, old(View())), keys, now)|
      ensures expired == VisitsExpired(hash, old(View()), C.Del(keys), keys, now)
    {
      hide Total, View, Flat, Look, LookIn, Route, Routed, Visit, VisitExpired, LiveAmong, Represents;
      removed, expired := 0, 0;
      ghost var c := C.Del(keys);
      ghost var flat := Flat(hash, View());
      FlatRepresents(hash, View(), now);
      NoneLive(flat, now);
      for i := 0 to |keys|
        invariant Valid()
        invariant View() == VisitAll(hash, old(View()), c, keys[..i], now)
        invariant removed == |LiveAmong(flat, keys[..i], now)|
        invariant expired == VisitsExpired(hash, old(View()), c, keys[..i], now)
      {
        assert keys[..i + 1] == keys[..i] + [keys[i]];
        DelStep(hash, old(View()), flat, c, keys[..i], keys[i], now);
        var count, gone := DelOne(keys[i], c, now);
        removed := removed + count;
        expired := expired + gone;
      }
      assert keys[..|keys|] == keys;
    }

    method Keys(now: Time) returns (keys: seq<C.Key>)
      requires Valid()
      ensures keys == SortedList(LiveKeys(Flat(hash, View()), now))
      ensures Ascending(keys) && forall k :: k in keys <==> LookIn(hash, View(), k, now).Some?
    {
      hide Flat, Look, Total, Route, View;
      var found: seq<C.Key> := [];
      for i := 0 to |shards|
        invariant Gathered(hash, View(), i, found, now)
      {
        var part := shards[i].Keys(now);
        assert forall k :: k in part <==> k in Elements(part);
        SortedDistinct(part);
        GatherShard(hash, View(), i, found, part, now);
        found := found + part;
      }
      GatheredAll(hash, View(), found, now);
      keys := Sort(found);
      SortSorted(found);
      SortedAscends(keys);
      assert forall k :: k in keys <==> k in Elements(keys);
    }

    method FlushDb()
      requires Valid()
      modifies this, shards
      ensures Valid() && View() == EmptyShards(|shards|)
    {
      for i := 0 to |shards|
        invariant forall j :: 0 <= j < i ==> shards[j].data == map[]
        modifies this, shards
      {
        shards[i].FlushDb();
      }
      keyCount := 0;
      SumZero(Lens(View()));
    }

    /** One shard purged and counted. */
    method PurgeShard(i: nat, now: Time) returns (removed: nat)
      requires i < |shards| && keyCount == Total(View())
      requires forall j, k :: 0 <= j < k < |shards| ==> shards[j] != shards[k]
      modifies this`keyCount, shards[i]
      ensures View() == old(View())[i := Purge(old(View())[i], now)]
      ensures keyCount == Total(View()) && removed + keyCount == old(keyCount)
    {
      hide Total, Purge, View;
      var db := shards[i];
      var before := |db.data|;
      removed := db.RemoveExpired(now);
      assert View() == old(View())[i := db.data];
      TotalUpdate(old(View()), i, db.data);
      ApplyLenChange(before, |db.data|);
    }

    /** The purge of every shard: the TTL worker's tick, and what INFO does first. */
    method RemoveExpired(now: Time) returns (expired: nat)
      requires Valid()
      modifies this, shards
      ensures Valid() && View() == PurgeAll(old(View()), now)
      ensures expired + keyCount == old(keyCount)
    {
      hide Total, View, PurgeFirst, PurgeAll;
      expired := 0;
      ghost var start := View();
      PurgeFirstEnds(start, now);
      for i := 0 to |shards|
        invariant keyCount == Total(View()) && expired + keyCount == old(keyCount)
        invariant View() == PurgeFirst(start, i, now)
      {
        PurgeFirstSteps(start, i, now);
        var removed := PurgeShard(i, now);
        expired := expired + removed;
      }
    }

    /** Live entries in key order, each with the stamp of its deadline, after a purge at the same instant. */
    method SnapshotEntries(now: Time) returns (entries: seq<SnapshotEntry>, expired: nat)
      requires Valid()
      modifies this, shards
      ensures Valid() && View() == PurgeAll(old(View()), now)
      ensures entries == SnapshotOf(Flat(hash, old(View())), now)
      ensures Exported(entries, Flat(hash, old(View())), now)
      ensures expired + keyCount == old(keyCount)
    {
      hide Total, View, PurgeFirst, PurgeAll, Flat, Render, Look, Route, SortEntries, SnapshotOf, Exported;
      entries, expired := [], 0;
      ghost var start := View();
      ghost var flat := Flat(hash, start);
      ghost var found: seq<C.Key> := [];
      FlatRepresents(hash, start, now);
      PurgeFirstEnds(start, now);
      for i := 0 to |shards|
        invariant keyCount == Total(View()) && expired + keyCount == old(keyCount)
        invariant View() == PurgeFirst(start, i, now)
        invariant Gathered(hash, start, i, found, now) && AllLive(flat, found, now)
        invariant entries == Render(flat, found, now)
      {
        PurgeFirstSteps(start, i, now);
        var removed := PurgeShard(i, now);
        expired := expired + removed;
        var part, keys := ShardEntries(shards[i].data, start[i], now);
        GatherShard(hash, start, i, found, keys, now);
        forall k | k in keys ensures Look(start[i], k, now) == Look(flat, k, now) {
          GatheredHere(hash, start, i, found, keys, k, now);
        }
        RenderSame(start[i], flat, keys, now);
        RenderAppend(flat, found, keys, now);
        entries := entries + part;
        found := found + keys;
      }
      GatheredAll(hash, start, found, now);
      RenderSorts(flat, found, now);
      entries := SortEntries(entries);
      SnapshotExactly(flat, now);
    }
  }

  function SaturatingSub(a: nat, b: nat): nat {
    if a >= b then a - b else 0
  }

  lemma SortedDistinct(s: seq<C.Key>)
    requires StrictlySorted(s)
    ensures Distinct(s)
  {
    forall i, j | 0 <= i < j < |s| ensures s[i] != s[j] {
      LexTrichotomy(s[i], s[j]);
    }
  }

  /** The entries of one purged shard in the order its map gives them. */
  method ShardEntries(m: Store, ghost whole: Store, now: Time) returns (entries: seq<SnapshotEntry>, ghost keys: seq<C.Key>)
    requires m == Purge(whole, now)
    ensures Distinct(keys) && (forall k :: k in keys <==> Look(whole, k, now).Some?)
    ensures AllLive(whole, keys, now) && entries == Render(whole, keys, now)
  {
    entries, keys := [], [];
    var rest := m.Keys;
    while rest != {}
      invariant rest <= m.Keys
      invariant Distinct(keys)
      invariant forall k :: k in keys <==> k in m && k !in rest
      invariant AllLive(whole, keys, now) && entries == Render(whole, keys, now)
    {
      var key :| key in rest;
      rest := rest - {key};
      RenderAppend(whole, keys, [key], now);
      entries := entries + [EntryOf(key, m[key], now)];
      keys := keys + [key];
    }
  }

  lemma GatheredHere(hash: Hash, sh: ShardMaps, i: nat, found: seq<C.Key>, keys: seq<C.Key>, k: C.Key, now: Time)
    requires Routed(hash, sh) && i < |sh| && k in keys
    requires forall k :: k in keys <==> Look(sh[i], k, now).Some?
    ensures Look(sh[i], k, now) == Look(Flat(hash, sh), k, now)
  {
    FlatRepresents(hash, sh, now);
    assert Look(sh[i], k, now).Some? && Route(hash, k, |sh|) == i;
    assert LookIn(hash, sh, k, now) == Look(Flat(hash, sh), k, now);
  }

  // --------------------------------------------------------------- executor

  /** The commands that visit the shard of each of their keys. */
  method ExecuteKeyed(c: C.Command, db: ShardedDatabase, first: Time, now: Time) returns (reply: Reply, expired: nat)
    requires db.Valid() && first <= now && IsKeyed(c)
    modifies db, db.shards
    ensures db.Valid()
    ensures db.View() == VisitAll(db.hash, old(db.View()), c, KeysOf(c), now)
    ensures reply == ReplyTo(Flat(db.hash, old(db.View())), c, now)
    ensures expired == VisitsExpired(db.hash, old(db.View()), c, KeysOf(c), now)
  {
    hide Visit, VisitAll, VisitExpired, VisitsLedger, Flat, Look, LookIn, Route, Routed, Total, TtlOf;
    ghost var start := db.View();
    FlatRepresents(db.hash, start, now);
    if !c.Del? {
      ghost var key := KeysOf(c)[0];
      assert LookIn(db.hash, start, key, now) == Look(Flat(db.hash, start), key, now);
      OneVisit(db.hash, start, c, key, now);
      OneVisitLedger(db.hash, start, c, key, now);
    }
    match c {
      case Set(key, value, expire) =>
        expired := db.Set(key, value, expire, now);
        reply := Answer(SimpleString(OK));
      case SetPxAt(key, value, stamp) =>
        expired := db.SetAtMs(key, value, stamp, now);
        reply := Answer(SimpleString(OK));
      case Get(key) =>
        var value, gone := db.Get(key, now);
        expired := gone;
        reply := Answer(if value.Some? then BulkString(value.value) else Null);
      case Del(keys) =>
        var count, gone := db.Del(keys, now);
        expired := gone;
        reply := Answer(Integer(AsI64(count)));
      case Exists(key) =>
        var present, gone := db.Exists(key, now);
        expired := gone;
        reply := Flag(present);
      case Expire(key, seconds) =>
        var updated, gone := db.Expire(key, seconds, now);
        expired := gone;
        reply := Flag(updated);
      case ExpireAt(key, stamp) =>
        var updated, gone := db.ExpireAtMs(key, stamp, now);
        expired := gone;
        reply := Flag(updated);
      case Ttl(key) =>
        var ttl, gone := db.Ttl(key, first, now);
        expired := gone;
        reply := Answer(Integer(ttl));
    }
  }

  /** `execute_command`: the reply of the reference store, the shards of the sharded step. */
  method ExecuteCommand(c: C.Command, db: ShardedDatabase, first: Time, now: Time) returns (reply: Reply, expired: nat)
    requires db.Valid() && first <= now
    modifies db, db.shards
    ensures db.Valid()
    ensures db.View() == ShardedNext(db.hash, old(db.View()), c, now)
    ensures reply == ReplyTo(Flat(db.hash, old(db.View())), c, now)
    ensures expired == CommandExpired(db.hash, old(db.View()), c, now)
    ensures Laws.Answers(Flat(db.hash, old(db.View())), c, now, reply)
  {
    hide Laws.Answers;
    expired := 0;
    Laws.ReplyAnswers(Flat(db.hash, db.View()), c, now);
    FlatRepresents(db.hash, db.View(), now);
    if IsKeyed(c) {
      reply, expired := ExecuteKeyed(c, db, first, now);
      return;
    }
    match c {
      case Ping => reply := Answer(SimpleString(PONG));
      case Keys =>
        var keys := db.Keys(now);
        reply := Answer(Array(Bulks(keys)));
      case FlushDb =>
        db.FlushDb();
        reply := Answer(SimpleString(OK));
      case Info =>
        expired := db.RemoveExpired(now);
        reply := InfoJson;
      case Unknown(name) => reply := Answer(Error(UNKNOWN + name + [39]));
    }
  }
}
