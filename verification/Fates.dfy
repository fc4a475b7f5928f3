/**
 * The fate of every entry of every shard under every event, and the books of a
 * run as the numbers of entries with each fate.
 */
module Fates {
  import opened Bytes
  import opened Clock
  import opened Commands
  import opened Reference
  import opened Databases
  import opened Shards
  import opened Ledger
  import opened Runs

  // ------------------------------------------------------------ the fates

  /** What becomes of an entry of the store: a purge takes what has expired, a DEL what it lists, a FLUSHDB all;
      a command on one key also purges that key's shard if it stores. */
  function EventFate(hash: Hash, count: nat, m: Store, e: Event, k: Key): Fate
    requires count > 0 && k in m
  {
    var gone := Expired(m[k], e.at);
    if e.Tick? || e.command.Info? then (if gone then ExpiredOut else Kept)
    else if e.command.FlushDb? then Flushed
    else if e.command.Del? then (if k !in e.command.keys then Kept else if gone then ExpiredOut else Deleted)
    else if IsKeyed(e.command) && Route(hash, k, count) == Route(hash, e.command.key, count)
      then FateOf(m, e.command, e.command.key, k, e.at)
    else Kept
  }

  function WithFate(hash: Hash, count: nat, m: Store, e: Event, fate: Fate): set<Key>
    requires count > 0
  {
    set k | k in m && EventFate(hash, count, m, e, k) == fate
  }

  /** Entries that are new after the event: their key was free, or became free by expiry in the event itself. */
  function Arrivals(hash: Hash, count: nat, m: Store, after: Store, e: Event): set<Key>
    requires count > 0
  {
    set k | k in after && (k in m ==> EventFate(hash, count, m, e, k) == ExpiredOut)
  }

  /** The head of the books an entry with this fate is counted under. */
  function Head(l: Ledger, fate: Fate): nat {
    match fate
    case ExpiredOut => l.expired
    case Deleted => l.deleted
    case Displaced => l.displaced
    case Flushed => l.flushed
    case _ => 0
  }

  predicate Leaves(fate: Fate) {
    fate != Kept && fate != Overwritten
  }

  /** The event is a SET that stores this key. */
  predicate StoredBy(e: Event, k: Key) {
    e.Do? && Stores(e.command, e.at) && e.command.key == k
  }

  predicate RestampedBy(e: Event, k: Key) {
    e.Do? && (e.command.Expire? || e.command.ExpireAt?) && e.command.key == k
  }

  /** The two stores hold the same entry at `k`. */
  predicate Holds(after: Store, like: Store, k: Key) {
    k in after && k in like && after[k] == like[k]
  }

  /** What the fate of an entry says: kept as it was, but for the deadline an EXPIRE or EXPIREAT sets; overwritten by
      the SET that names it; or gone, except that the SET that expired it may store its key anew. */
  predicate HappensAt(hash: Hash, count: nat, m: Store, after: Store, e: Event, k: Key)
    requires count > 0 && k in m
  {
    match EventFate(hash, count, m, e, k)
    case Kept => Holds(after, if RestampedBy(e, k) then Next(m, e.command, e.at) else m, k)
    case Overwritten => StoredBy(e, k)
    case ExpiredOut => k in after ==> StoredBy(e, k)
    case _ => k !in after
  }

  /** The event does to every entry what its fate says, and stores what it stores, and nothing else is new. */
  ghost predicate Happens(hash: Hash, count: nat, m: Store, after: Store, e: Event)
    requires count > 0
  {
    && (forall k :: k in m ==> HappensAt(hash, count, m, after, e, k))
    && (forall k :: k in after && k !in m ==> StoredBy(e, k))
    && (forall k :: StoredBy(e, k) ==> Holds(after, Next(map[], e.command, e.at), k))
  }

  /** Why entries leave: only a DEL that lists a live key deletes it, only FLUSHDB flushes, a SET displaces a live value by a
      stamp already reached and overwrites it otherwise, and what expires has reached its deadline or is given one. */
  lemma FateReasons(hash: Hash, count: nat, m: Store, e: Event, k: Key)
    requires count > 0 && k in m
    ensures var fate, live := EventFate(hash, count, m, e, k), Look(m, k, e.at).Some?;
            && (fate == Deleted <==> e.Do? && e.command.Del? && k in e.command.keys && live)
            && (fate == Flushed <==> e.Do? && e.command.FlushDb?)
            && (fate == Displaced <==> live && e.Do? && e.command.SetPxAt? && e.command.key == k
                                       && e.command.timestampMs <= e.at / 1_000_000)
            && (fate == Overwritten <==> live && StoredBy(e, k))
            && (fate == ExpiredOut ==> !live || (e.Do? && e.command.ExpireAt? && e.command.key == k
                                                 && e.command.timestampMs <= e.at / 1_000_000))
            && (!live && (e.Tick? || e.command.Info?) ==> fate == ExpiredOut)
  {
  }

  /** So an arrival is the stored key. */
  lemma ArrivalsStored(hash: Hash, count: nat, m: Store, after: Store, e: Event, k: Key)
    requires count > 0 && Happens(hash, count, m, after, e) && k in Arrivals(hash, count, m, after, e)
    ensures StoredBy(e, k) && Holds(after, Next(map[], e.command, e.at), k)
  {
    hide EventFate, Next, Stores;
    if k in m {
      assert HappensAt(hash, count, m, after, e, k);
    }
  }

  /** The books of the event count the entries of every fate, each under its own head, and the arrivals. */
  ghost predicate Booked(hash: Hash, count: nat, m: Store, after: Store, e: Event, l: Ledger)
    requires count > 0
  {
    && (forall fate :: Leaves(fate) ==> Head(l, fate) == |WithFate(hash, count, m, e, fate)|)
    && l.inserted == |Arrivals(hash, count, m, after, e)|
  }

  // -------------------------------------------------------- counting shards

  lemma FlatAt(hash: Hash, sh: ShardMaps)
    requires |sh| > 0
    ensures forall k :: k in Flat(hash, sh) <==> k in sh[Route(hash, k, |sh|)]
    ensures forall k :: k in Flat(hash, sh) ==> Flat(hash, sh)[k] == sh[Route(hash, k, |sh|)][k]
  {
    hide Route;
    forall k ensures k in Flat(hash, sh) <==> k in sh[Route(hash, k, |sh|)] {
      if k in sh[Route(hash, k, |sh|)] {
        assert k in AllKeys(sh);
      }
    }
  }

  function KeySets(sh: ShardMaps): (r: seq<set<Key>>)
    ensures |r| == |sh| && forall i :: 0 <= i < |sh| ==> r[i] == sh[i].Keys
  {
    seq(|sh|, i requires 0 <= i < |sh| => sh[i].Keys)
  }

  function Union(parts: seq<set<Key>>): (r: set<Key>)
    ensures forall k :: k in r <==> exists i :: 0 <= i < |parts| && k in parts[i]
  {
    set i, k | 0 <= i < |parts| && k in parts[i] :: k
  }

  function Sizes(parts: seq<set<Key>>): (r: seq<nat>)
    ensures |r| == |parts| && forall i :: 0 <= i < |parts| ==> r[i] == |parts[i]|
  {
    seq(|parts|, i requires 0 <= i < |parts| => |parts[i]|)
  }

  ghost predicate Apart(parts: seq<set<Key>>) {
    forall i, j :: 0 <= i < j < |parts| ==> parts[i] !! parts[j]
  }

  lemma RestApart(parts: seq<set<Key>>)
    requires |parts| > 0 && Apart(parts)
    ensures Apart(parts[1..])
  {
    var rest := parts[1..];
    forall i, j | 0 <= i < j < |rest| ensures rest[i] !! rest[j] {
      assert parts[i + 1] !! parts[j + 1];
    }
  }

  lemma {:induction false} DisjointUnion(parts: seq<set<Key>>)
    requires Apart(parts)
    ensures |Union(parts)| == Sum(Sizes(parts))
  {
    hide Union, Apart;
    if |parts| == 0 {
      assert Union(parts) == {};
    } else {
      var rest := parts[1..];
      RestApart(parts);
      DisjointUnion(rest);
      UnionFirst(parts);
      FirstApart(parts);
      UnionSize(parts[0], Union(rest));
      assert Sizes(parts)[1..] == Sizes(rest);
    }
  }

  lemma UnionSize<T>(a: set<T>, b: set<T>)
    requires a !! b
    ensures |a + b| == |a| + |b|
  {
  }

  lemma FirstApart(parts: seq<set<Key>>)
    requires |parts| > 0 && Apart(parts)
    ensures parts[0] !! Union(parts[1..])
  {
    forall k | k in Union(parts[1..]) ensures k !in parts[0] {
      var i :| 0 <= i < |parts| - 1 && k in parts[1..][i];
      assert parts[0] !! parts[i + 1];
    }
  }

  lemma UnionFirst(parts: seq<set<Key>>)
    requires |parts| > 0
    ensures Union(parts) == parts[0] + Union(parts[1..])
  {
    forall k ensures k in Union(parts) <==> k in parts[0] + Union(parts[1..]) {
      if k in Union(parts) {
        var i :| 0 <= i < |parts| && k in parts[i];
        assert i > 0 ==> k in parts[1..][i - 1];
      }
      if k in Union(parts[1..]) {
        var i :| 0 <= i < |parts| - 1 && k in parts[1..][i];
        assert k in parts[i + 1];
      }
    }
  }

  lemma RoutedApart(hash: Hash, sh: ShardMaps)
    requires Routed(hash, sh)
    ensures forall i, j :: 0 <= i < j < |sh| ==> KeySets(sh)[i] !! KeySets(sh)[j]
    ensures Union(KeySets(sh)) == Flat(hash, sh).Keys
  {
    hide Route;
    FlatAt(hash, sh);
    forall i, j | 0 <= i < j < |sh| ensures KeySets(sh)[i] !! KeySets(sh)[j] {
      forall k | k in sh[i] ensures k !in sh[j] {
        assert Route(hash, k, |sh|) == i;
      }
    }
    forall k ensures k in Union(KeySets(sh)) <==> k in Flat(hash, sh) {
      if k in Union(KeySets(sh)) {
        var i :| 0 <= i < |sh| && k in KeySets(sh)[i];
        assert Route(hash, k, |sh|) == i;
      }
      if k in Flat(hash, sh) {
        assert k in KeySets(sh)[Route(hash, k, |sh|)];
      }
    }
  }

  /** Routed shards hold each key once: their lengths add up to the number of entries. */
  lemma TotalCounts(hash: Hash, sh: ShardMaps)
    requires Routed(hash, sh)
    ensures Total(sh) == |Flat(hash, sh)|
  {
    RoutedApart(hash, sh);
    hide Flat, Routed, Union, Sum;
    DisjointUnion(KeySets(sh));
    assert Sizes(KeySets(sh)) == Lens(sh);
    assert |Flat(hash, sh)| == |Flat(hash, sh).Keys|;
  }

  lemma SplitSize(m: Store, part: set<Key>)
    requires part <= m.Keys
    ensures |m - part| == |m| - |part|
  {
    assert (m - part).Keys == m.Keys - part;
    assert |m.Keys - part| == |m.Keys| - |part|;
  }

  // --------------------------------------------------------------- purges

  lemma PurgedFlat(hash: Hash, sh: ShardMaps, now: Time)
    requires Routed(hash, sh)
    ensures Flat(hash, PurgeAll(sh, now)) == Purge(Flat(hash, sh), now)
  {
    FlatAt(hash, sh);
    FlatAt(hash, PurgeAll(sh, now));
    hide Route, Flat;
  }

  /** With one fate besides staying, the books have one entry. */
  lemma OneHead(hash: Hash, count: nat, m: Store, after: Store, e: Event, l: Ledger, out: Fate)
    requires count > 0 && Leaves(out)
    requires forall k :: k in m ==> EventFate(hash, count, m, e, k) == out || EventFate(hash, count, m, e, k) == Kept
    requires Head(l, out) == |WithFate(hash, count, m, e, out)|
    requires forall fate :: Leaves(fate) && fate != out ==> Head(l, fate) == 0
    requires l.inserted == 0 && Arrivals(hash, count, m, after, e) == {}
    ensures Booked(hash, count, m, after, e, l)
  {
    hide EventFate;
    forall fate | Leaves(fate) && fate != out ensures WithFate(hash, count, m, e, fate) == {} {
    }
  }

  lemma PurgeHappens(hash: Hash, count: nat, m: Store, e: Event)
    requires count > 0 && (e.Tick? || e.command.Info?)
    ensures Happens(hash, count, m, Purge(m, e.at), e)
  {
    hide Route, FateOf, Next;
  }

  lemma PurgeSets(hash: Hash, count: nat, m: Store, e: Event)
    requires count > 0 && (e.Tick? || e.command.Info?)
    ensures WithFate(hash, count, m, e, ExpiredOut) <= m.Keys
    ensures Purge(m, e.at) == m - WithFate(hash, count, m, e, ExpiredOut)
    ensures Arrivals(hash, count, m, Purge(m, e.at), e) == {}
  {
    hide Route, FateOf;
  }

  lemma PurgeBooks(hash: Hash, count: nat, m: Store, e: Event, l: Ledger)
    requires count > 0 && (e.Tick? || e.command.Info?)
    requires |Purge(m, e.at)| <= |m| && l == NOTHING.(expired := |m| - |Purge(m, e.at)|)
    ensures Happens(hash, count, m, Purge(m, e.at), e) && Booked(hash, count, m, Purge(m, e.at), e, l)
  {
    PurgeHappens(hash, count, m, e);
    PurgeSets(hash, count, m, e);
    hide Route, FateOf, Booked, Purge, Happens, WithFate, Arrivals, Expired;
    SplitSize(m, WithFate(hash, count, m, e, ExpiredOut));
    OneHead(hash, count, m, Purge(m, e.at), e, l, ExpiredOut);
  }

  lemma PurgeAccounted(hash: Hash, sh: ShardMaps, e: Event)
    requires Routed(hash, sh) && (e.Tick? || e.command.Info?)
    ensures Happens(hash, |sh|, Flat(hash, sh), Flat(hash, ShardsAfter(hash, sh, e)), e)
    ensures Booked(hash, |sh|, Flat(hash, sh), Flat(hash, ShardsAfter(hash, sh, e)), e, EventLedger(hash, sh, e))
  {
    var m, after := Flat(hash, sh), PurgeAll(sh, e.at);
    PurgeEvent(hash, sh, e);
    assert Routed(hash, after) by { PurgeRouted(hash, sh, e.at); }
    PurgedFlat(hash, sh, e.at);
    TotalCounts(hash, sh);
    TotalCounts(hash, after);
    PurgeShrinks(m, e.at);
    hide Flat, Routed, Total, Happens, Booked, Purge, PurgeAll, ShardsAfter, EventLedger;
    PurgeBooks(hash, |sh|, m, e, EventLedger(hash, sh, e));
  }

  lemma PurgeEvent(hash: Hash, sh: ShardMaps, e: Event)
    requires |sh| > 0 && (e.Tick? || e.command.Info?)
    ensures ShardsAfter(hash, sh, e) == PurgeAll(sh, e.at) && EventLedger(hash, sh, e) == PurgeLedger(sh, e.at)
  {
    hide PurgeAll, PurgeLedger;
  }

  lemma PurgeRouted(hash: Hash, sh: ShardMaps, now: Time)
    requires Routed(hash, sh)
    ensures Routed(hash, PurgeAll(sh, now))
  {
    hide Route;
  }

  // -------------------------------------------------------------- FLUSHDB

  lemma FlushBooks(hash: Hash, count: nat, m: Store, e: Event, l: Ledger)
    requires count > 0 && e.Do? && e.command.FlushDb? && l == NOTHING.(flushed := |m|)
    ensures Happens(hash, count, m, map[], e) && Booked(hash, count, m, map[], e, l)
  {
    hide Route, FateOf, Booked, Expired;
    assert WithFate(hash, count, m, e, Flushed) == m.Keys;
    assert |m.Keys| == |m|;
    OneHead(hash, count, m, map[], e, l, Flushed);
  }

  lemma FlushAccounted(hash: Hash, sh: ShardMaps, e: Event)
    requires Routed(hash, sh) && e.Do? && e.command.FlushDb?
    ensures Happens(hash, |sh|, Flat(hash, sh), Flat(hash, ShardsAfter(hash, sh, e)), e)
    ensures Booked(hash, |sh|, Flat(hash, sh), Flat(hash, ShardsAfter(hash, sh, e)), e, EventLedger(hash, sh, e))
  {
    TotalCounts(hash, sh);
    FlatAt(hash, EmptyShards(|sh|));
    assert Flat(hash, EmptyShards(|sh|)) == map[];
    hide Flat, Routed, Route, Total, Happens, Booked;
    FlushBooks(hash, |sh|, Flat(hash, sh), e, EventLedger(hash, sh, e));
  }

  // ------------------------------------------------------------ one visit

  predicate AlikeAt(a: Store, b: Store, k: Key) {
    (k in a <==> k in b) && (k in a ==> a[k] == b[k])
  }

  /** The store `m` holds `shard` in place `x` and `after` holds `next` there; elsewhere they are alike. */
  predicate ReplacesAt(hash: Hash, count: nat, x: nat, m: Store, shard: Store, after: Store, next: Store, k: Key)
    requires count > 0
  {
    if Route(hash, k, count) == x then AlikeAt(m, shard, k) && AlikeAt(after, next, k) else AlikeAt(m, after, k)
  }

  lemma VisitReplaces(hash: Hash, sh: ShardMaps, c: Command, key: Key, now: Time)
    requires |sh| > 0
    ensures var x := Route(hash, key, |sh|);
            forall k :: ReplacesAt(hash, |sh|, x, Flat(hash, sh), sh[x], Flat(hash, Visit(hash, sh, c, key, now)),
                                   ShardNext(sh[x], c, key, now), k)
  {
    FlatAt(hash, sh);
    FlatAt(hash, Visit(hash, sh, c, key, now));
    hide Flat, Route, ShardNext;
  }

  predicate OnOneKey(e: Event) {
    e.Do? && IsKeyed(e.command) && !e.command.Del?
  }

  lemma OneKey(c: Command)
    requires IsKeyed(c) && !c.Del?
    ensures KeysOf(c) == [c.key]
  {
  }

  /** A fate is a matter of the entry alone. */
  lemma FateOfEntry(m: Store, shard: Store, c: Command, key: Key, k: Key, now: Time)
    requires k in m && k in shard && m[k] == shard[k]
    ensures FateOf(m, c, key, k, now) == FateOf(shard, c, key, k, now)
  {
  }

  /** What the visited shard's map makes of an entry is what its fate there says. */
  lemma FateHappens(m: Store, c: Command, key: Key, k: Key, now: Time)
    requires IsKeyed(c) && key in KeysOf(c) && k in m
    ensures var fate, after := FateOf(m, c, key, k, now), ShardNext(m, c, key, now);
            && (fate == Overwritten ==> k == key && Stores(c, now))
            && (fate == ExpiredOut && k in after ==> k == key && Stores(c, now))
            && (fate == Displaced || fate == Deleted ==> k !in after)
            && fate != Flushed
  {
    FatesDescribe(m, c, key, now);
    hide ShardNext;
  }

  lemma KeptEntry(m: Store, c: Command, key: Key, k: Key, now: Time)
    requires IsKeyed(c) && KeysOf(c) == [key] && k in m && FateOf(m, c, key, k, now) == Kept
    ensures Holds(ShardNext(m, c, key, now), if (c.Expire? || c.ExpireAt?) && k == key then Next(m, c, now) else m, k)
  {
    hide DurationUntil;
    FatesDescribe(m, c, key, now);
  }

  /** What an EXPIRE or EXPIREAT makes of its key is a matter of the key's entry. */
  lemma NextOfEntry(m: Store, shard: Store, c: Command, k: Key, now: Time)
    requires (c.Expire? || c.ExpireAt?) && c.key == k && AlikeAt(m, shard, k)
    ensures AlikeAt(Next(m, c, now), Next(shard, c, now), k)
  {
    hide DurationUntil;
  }

  lemma HappensAtKey(hash: Hash, count: nat, m: Store, shard: Store, after: Store, e: Event, k: Key)
    requires count > 0 && OnOneKey(e) && k in m
    requires ReplacesAt(hash, count, Route(hash, e.command.key, count), m, shard, after,
                        ShardNext(shard, e.command, e.command.key, e.at), k)
    ensures HappensAt(hash, count, m, after, e, k)
  {
    hide Route, ShardNext, FateOf, KeysOf, Next, Stores;
    var c := e.command;
    OneKey(c);
    if Route(hash, k, count) == Route(hash, c.key, count) {
      FateOfEntry(m, shard, c, c.key, k, e.at);
      FateHappens(shard, c, c.key, k, e.at);
      if FateOf(shard, c, c.key, k, e.at) == Kept {
        KeptEntry(shard, c, c.key, k, e.at);
        if RestampedBy(e, k) {
          NextOfEntry(m, shard, c, k, e.at);
        }
      }
    }
  }

  /** After a visit what is new is stored by it, and what it stores is there. */
  lemma NewAtKey(hash: Hash, count: nat, m: Store, shard: Store, after: Store, e: Event, k: Key)
    requires count > 0 && OnOneKey(e)
    requires ReplacesAt(hash, count, Route(hash, e.command.key, count), m, shard, after,
                        ShardNext(shard, e.command, e.command.key, e.at), k)
    ensures k in after && k !in m ==> StoredBy(e, k)
    ensures StoredBy(e, k) ==> Holds(after, Next(map[], e.command, e.at), k)
  {
    var c := e.command;
    OneKey(c);
    FatesDescribe(shard, c, c.key, e.at);
    if StoredBy(e, k) {
      StoredIsThere(shard, c, c.key, e.at);
    }
    hide Route, ShardNext, FateOf, KeysOf, Next, Stores;
  }

  lemma StoredIsThere(m: Store, c: Command, key: Key, now: Time)
    requires IsKeyed(c) && KeysOf(c) == [key] && Stores(c, now)
    ensures Holds(ShardNext(m, c, key, now), Next(map[], c, now), key)
  {
    hide Purge, DurationUntil;
  }

  lemma ShardArrives(m: Store, c: Command, key: Key, k: Key, now: Time)
    requires IsKeyed(c) && !c.Del? && KeysOf(c) == [key]
    ensures (k in ShardNext(m, c, key, now) && (k in m ==> FateOf(m, c, key, k, now) == ExpiredOut))
       <==> (k == key && Stores(c, now) && Look(m, key, now).None?)
  {
    FatesDescribe(m, c, key, now);
    if Stores(c, now) {
      StoredIsThere(m, c, key, now);
    }
    hide ShardNext, KeysOf;
  }

  lemma ArrivesAtKey(hash: Hash, count: nat, m: Store, shard: Store, after: Store, e: Event, k: Key)
    requires count > 0 && OnOneKey(e)
    requires ReplacesAt(hash, count, Route(hash, e.command.key, count), m, shard, after,
                        ShardNext(shard, e.command, e.command.key, e.at), k)
    ensures k in Arrivals(hash, count, m, after, e)
       <==> k == e.command.key && Stores(e.command, e.at) && Look(shard, e.command.key, e.at).None?
  {
    hide Route, ShardNext, FateOf, KeysOf, Look, Stores;
    var c := e.command;
    OneKey(c);
    if Route(hash, k, count) == Route(hash, c.key, count) {
      ShardArrives(shard, c, c.key, k, e.at);
      if k in m {
        FateOfEntry(m, shard, c, c.key, k, e.at);
      }
    }
  }

  lemma FatedAtKey(hash: Hash, count: nat, m: Store, shard: Store, after: Store, e: Event, k: Key, fate: Fate)
    requires count > 0 && OnOneKey(e) && fate != Kept
    requires ReplacesAt(hash, count, Route(hash, e.command.key, count), m, shard, after,
                        ShardNext(shard, e.command, e.command.key, e.at), k)
    requires k in shard ==> Route(hash, k, count) == Route(hash, e.command.key, count)
    ensures k in WithFate(hash, count, m, e, fate) <==> k in Fated(shard, e.command, e.command.key, e.at, fate)
  {
    hide Route, ShardNext, FateOf;
    if k in m && k in shard {
      FateOfEntry(m, shard, e.command, e.command.key, k, e.at);
    }
  }

  lemma NoneFlushed(m: Store, c: Command, key: Key, now: Time)
    ensures Fated(m, c, key, now, Flushed) == {}
  {
  }

  /** On one key, the fates and arrivals of the store are those of the visited shard. */
  lemma VisitBooks(hash: Hash, count: nat, m: Store, shard: Store, after: Store, e: Event)
    requires count > 0 && OnOneKey(e)
    requires forall k :: ReplacesAt(hash, count, Route(hash, e.command.key, count), m, shard, after,
                                    ShardNext(shard, e.command, e.command.key, e.at), k)
    requires forall k :: k in shard ==> Route(hash, k, count) == Route(hash, e.command.key, count)
    ensures Happens(hash, count, m, after, e)
    ensures Booked(hash, count, m, after, e, VisitLedger(shard, e.command, e.command.key, e.at))
  {
    hide Route, ShardNext, ReplacesAt, HappensAt, WithFate, Fated, Arrivals, KeysOf, Stores, Look, Next, Holds, StoredBy;
    var c := e.command;
    forall k | k in m ensures HappensAt(hash, count, m, after, e, k) {
      HappensAtKey(hash, count, m, shard, after, e, k);
    }
    forall k ensures k in after && k !in m ==> StoredBy(e, k)
             ensures StoredBy(e, k) ==> Holds(after, Next(map[], e.command, e.at), k)
    {
      NewAtKey(hash, count, m, shard, after, e, k);
    }
    forall fate | Leaves(fate) ensures WithFate(hash, count, m, e, fate) == Fated(shard, c, c.key, e.at, fate) {
      forall k ensures k in WithFate(hash, count, m, e, fate) <==> k in Fated(shard, c, c.key, e.at, fate) {
        FatedAtKey(hash, count, m, shard, after, e, k, fate);
      }
    }
    var arrived := if Stores(c, e.at) && Look(shard, c.key, e.at).None? then {c.key} else {};
    forall k ensures k in Arrivals(hash, count, m, after, e) <==> k in arrived {
      ArrivesAtKey(hash, count, m, shard, after, e, k);
    }
    assert Arrivals(hash, count, m, after, e) == arrived;
    OneKey(c);
    CountsAreFates(shard, c, c.key, e.at);
    NoneFlushed(shard, c, c.key, e.at);
  }

  lemma VisitAccounted(hash: Hash, sh: ShardMaps, e: Event)
    requires Routed(hash, sh) && OnOneKey(e)
    ensures Happens(hash, |sh|, Flat(hash, sh), Flat(hash, ShardsAfter(hash, sh, e)), e)
    ensures Booked(hash, |sh|, Flat(hash, sh), Flat(hash, ShardsAfter(hash, sh, e)), e, EventLedger(hash, sh, e))
  {
    var c := e.command;
    OneKey(c);
    OneVisit(hash, sh, c, c.key, e.at);
    OneVisitLedger(hash, sh, c, c.key, e.at);
    VisitReplaces(hash, sh, c, c.key, e.at);
    var shard := sh[Route(hash, c.key, |sh|)];
    assert forall k :: k in shard ==> Route(hash, k, |sh|) == Route(hash, c.key, |sh|);
    hide Flat, Route, Routed, Visit, VisitAll, VisitsLedger, VisitLedger, Happens, Booked, KeysOf, ReplacesAt, ShardNext;
    VisitBooks(hash, |sh|, Flat(hash, sh), shard, Flat(hash, Visit(hash, sh, c, c.key, e.at)), e);
  }

  // ------------------------------------------------------------------ DEL

  lemma DelVisitFlat(hash: Hash, sh: ShardMaps, c: Command, key: Key, now: Time)
    requires Routed(hash, sh) && c.Del?
    ensures Routed(hash, Visit(hash, sh, c, key, now))
    ensures Flat(hash, Visit(hash, sh, c, key, now)) == Flat(hash, sh) - {key}
  {
    VisitReplaces(hash, sh, c, key, now);
    assert Routed(hash, Visit(hash, sh, c, key, now)) by { DelVisitRouted(hash, sh, c, key, now); }
    hide Route, Routed, Visit, Flat;
    var x, m, after := Route(hash, key, |sh|), Flat(hash, sh), Flat(hash, Visit(hash, sh, c, key, now));
    forall k ensures AlikeAt(after, m - {key}, k) {
      assert ReplacesAt(hash, |sh|, x, m, sh[x], after, ShardNext(sh[x], c, key, now), k);
    }
    AlikeEqual(after, m - {key});
  }

  lemma AlikeEqual(a: Store, b: Store)
    requires forall k :: AlikeAt(a, b, k)
    ensures a == b
  {
    forall k ensures k in a <==> k in b {
      assert AlikeAt(a, b, k);
    }
    forall k | k in a ensures a[k] == b[k] {
      assert AlikeAt(a, b, k);
    }
  }

  lemma DelVisitRouted(hash: Hash, sh: ShardMaps, c: Command, key: Key, now: Time)
    requires Routed(hash, sh) && c.Del?
    ensures Routed(hash, Visit(hash, sh, c, key, now))
  {
    hide Route;
  }

  lemma MinusMore(m: Store, keys: set<Key>, key: Key)
    ensures m - keys - {key} == m - (keys + {key})
  {
  }

  lemma {:induction false} DelFlat(hash: Hash, sh: ShardMaps, c: Command, keys: seq<Key>, now: Time)
    requires Routed(hash, sh) && c.Del?
    ensures Routed(hash, VisitAll(hash, sh, c, keys, now))
    ensures Flat(hash, VisitAll(hash, sh, c, keys, now)) == Flat(hash, sh) - Elements(keys)
  {
    assert |sh| > 0;
    hide Flat, Routed, Visit;
    if |keys| == 0 {
      assert Elements(keys) == {};
    } else {
      var init, last := keys[..|keys| - 1], keys[|keys| - 1];
      assert keys == init + [last];
      DelFlat(hash, sh, c, init, now);
      DelVisitFlat(hash, VisitAll(hash, sh, c, init, now), c, last, now);
      assert Elements(keys) == Elements(init) + {last};
      hide Elements, VisitAll;
      MinusMore(Flat(hash, sh), Elements(init), last);
    }
  }

  lemma {:induction false} DelHeads(hash: Hash, sh: ShardMaps, c: Command, keys: seq<Key>, now: Time)
    requires |sh| > 0 && c.Del?
    ensures var l := VisitsLedger(hash, sh, c, keys, now); l.inserted == l.displaced == l.flushed == 0
  {
    hide Visit, Route, Look;
    if |keys| == 0 {
    } else {
      DelHeads(hash, sh, c, keys[..|keys| - 1], now);
    }
  }

  lemma DelBooks(hash: Hash, count: nat, m: Store, e: Event, l: Ledger)
    requires count > 0 && e.Do? && e.command.Del?
    requires l.inserted == l.displaced == l.flushed == 0
    requires l.deleted == |LiveAmong(m, e.command.keys, e.at)|
    requires |m - Elements(e.command.keys)| + l.expired + l.deleted == |m|
    ensures Happens(hash, count, m, m - Elements(e.command.keys), e)
    ensures Booked(hash, count, m, m - Elements(e.command.keys), e, l)
  {
    DelSets(hash, count, m, e);
    DelHappens(hash, count, m, e);
    hide WithFate, Arrivals, LiveAmong, Elements, Happens, EventFate, Booked;
    var out, deleted := WithFate(hash, count, m, e, ExpiredOut), WithFate(hash, count, m, e, Deleted);
    UnionSize(out, deleted);
    SplitSize(m, out + deleted);
    FourHeads(hash, count, m, m - Elements(e.command.keys), e, l);
  }

  /** The books of an event, head by head. */
  lemma FourHeads(hash: Hash, count: nat, m: Store, after: Store, e: Event, l: Ledger)
    requires count > 0
    requires l.expired == |WithFate(hash, count, m, e, ExpiredOut)| && l.deleted == |WithFate(hash, count, m, e, Deleted)|
    requires l.displaced == |WithFate(hash, count, m, e, Displaced)| && l.flushed == |WithFate(hash, count, m, e, Flushed)|
    requires l.inserted == |Arrivals(hash, count, m, after, e)|
    ensures Booked(hash, count, m, after, e, l)
  {
    hide WithFate, Arrivals;
  }

  lemma DelHappens(hash: Hash, count: nat, m: Store, e: Event)
    requires count > 0 && e.Do? && e.command.Del?
    ensures Happens(hash, count, m, m - Elements(e.command.keys), e)
  {
    hide Route, FateOf, Expired;
  }

  /** The keys a DEL removes are those that had expired and those it deletes. */
  lemma DelSets(hash: Hash, count: nat, m: Store, e: Event)
    requires count > 0 && e.Do? && e.command.Del?
    ensures var out, deleted := WithFate(hash, count, m, e, ExpiredOut), WithFate(hash, count, m, e, Deleted);
            && deleted == LiveAmong(m, e.command.keys, e.at) && out !! deleted && out + deleted <= m.Keys
            && m - Elements(e.command.keys) == m - (out + deleted)
    ensures Arrivals(hash, count, m, m - Elements(e.command.keys), e) == {}
    ensures WithFate(hash, count, m, e, Displaced) == {} && WithFate(hash, count, m, e, Flushed) == {}
  {
    hide Route, FateOf;
    var keys := Elements(e.command.keys);
    var out, deleted := WithFate(hash, count, m, e, ExpiredOut), WithFate(hash, count, m, e, Deleted);
    forall k ensures k in out + deleted <==> k in m && k in keys {
    }
    assert m - keys == m - (out + deleted);
  }

  lemma DelAccounted(hash: Hash, sh: ShardMaps, e: Event)
    requires Routed(hash, sh) && e.Do? && e.command.Del?
    ensures Happens(hash, |sh|, Flat(hash, sh), Flat(hash, ShardsAfter(hash, sh, e)), e)
    ensures Booked(hash, |sh|, Flat(hash, sh), Flat(hash, ShardsAfter(hash, sh, e)), e, EventLedger(hash, sh, e))
  {
    var c, m := e.command, Flat(hash, sh);
    FlatRepresents(hash, sh, e.at);
    DelFlat(hash, sh, c, c.keys, e.at);
    DelHeads(hash, sh, c, c.keys, e.at);
    DelBooksLiveKeys(hash, sh, m, c, c.keys, e.at);
    VisitsConserve(hash, sh, c, c.keys, e.at);
    TotalCounts(hash, sh);
    TotalCounts(hash, VisitAll(hash, sh, c, c.keys, e.at));
    hide Flat, Routed, VisitAll, VisitsLedger, Total, Happens, Booked, Represents, LiveAmong, Elements;
    DelBooks(hash, |sh|, m, e, EventLedger(hash, sh, e));
  }

  // ------------------------------------------------------------ all events

  lemma RestAccounted(hash: Hash, count: nat, m: Store, e: Event)
    requires count > 0 && e.Do? && !IsKeyed(e.command) && !e.command.FlushDb? && !e.command.Info?
    ensures Happens(hash, count, m, m, e) && Booked(hash, count, m, m, e, NOTHING)
  {
    forall fate | Leaves(fate) ensures WithFate(hash, count, m, e, fate) == {} {
    }
    assert Arrivals(hash, count, m, m, e) == {};
  }

  /** Every event does to every entry what its fate says, and its books are the numbers of entries with each fate. */
  lemma EventAccounted(hash: Hash, sh: ShardMaps, e: Event)
    requires Routed(hash, sh)
    ensures Routed(hash, ShardsAfter(hash, sh, e))
    ensures Happens(hash, |sh|, Flat(hash, sh), Flat(hash, ShardsAfter(hash, sh, e)), e)
    ensures Booked(hash, |sh|, Flat(hash, sh), Flat(hash, ShardsAfter(hash, sh, e)), e, EventLedger(hash, sh, e))
  {
    EventConserves(hash, sh, e);
    hide Routed, Flat, Happens, Booked;
    if e.Tick? || e.command.Info? {
      PurgeAccounted(hash, sh, e);
    } else if e.command.FlushDb? {
      FlushAccounted(hash, sh, e);
    } else if e.command.Del? {
      DelAccounted(hash, sh, e);
    } else if IsKeyed(e.command) {
      VisitAccounted(hash, sh, e);
    } else {
      RestAccounted(hash, |sh|, Flat(hash, sh), e);
    }
  }

  // ---------------------------------------------------------- whole runs

  /** An entry meeting its fate in a run: the key, and how many events were left. */
  type Meeting = (nat, Key)

  function Tagged(keys: set<Key>, n: nat): (r: set<Meeting>)
    ensures forall p :: p in r <==> p.0 == n && p.1 in keys
  {
    set k | k in keys :: (n, k)
  }

  lemma {:induction false} TaggedSize(keys: set<Key>, n: nat)
    ensures |Tagged(keys, n)| == |keys|
    decreases |keys|
  {
    if keys == {} {
      assert Tagged(keys, n) == {};
    } else {
      var k :| k in keys;
      TaggedSize(keys - {k}, n);
      assert Tagged(keys, n) == Tagged(keys - {k}, n) + {(n, k)};
    }
  }

  /** Every entry, at every event of a run, that met this fate. */
  function RunWithFate(hash: Hash, sh: ShardMaps, events: seq<Event>, fate: Fate): (r: set<Meeting>)
    requires |sh| > 0
    ensures forall p :: p in r ==> p.0 <= |events|
    decreases |events|
  {
    if |events| == 0 then {}
    else
      Tagged(WithFate(hash, |sh|, Flat(hash, sh), events[0], fate), |events|)
      + RunWithFate(hash, ShardsAfter(hash, sh, events[0]), events[1..], fate)
  }

  function RunArrivals(hash: Hash, sh: ShardMaps, events: seq<Event>): (r: set<Meeting>)
    requires |sh| > 0
    ensures forall p :: p in r ==> p.0 <= |events|
    decreases |events|
  {
    if |events| == 0 then {}
    else
      var after := ShardsAfter(hash, sh, events[0]);
      Tagged(Arrivals(hash, |sh|, Flat(hash, sh), Flat(hash, after), events[0]), |events|)
      + RunArrivals(hash, after, events[1..])
  }

  lemma NothingBooked(fate: Fate)
    ensures Head(NOTHING, fate) == 0
  {
  }

  lemma HeadPlus(a: Ledger, b: Ledger, fate: Fate)
    ensures Head(a.Plus(b), fate) == Head(a, fate) + Head(b, fate)
  {
  }

  lemma MeetingsAdd(keys: set<Key>, n: nat, rest: set<Meeting>)
    requires forall p :: p in rest ==> p.0 < n
    ensures |Tagged(keys, n) + rest| == |keys| + |rest|
  {
    TaggedSize(keys, n);
    UnionSize(Tagged(keys, n), rest);
  }

  /** Every event of the run does what the fates of its entries say. */
  ghost predicate RunHappens(hash: Hash, sh: ShardMaps, events: seq<Event>)
    requires |sh| > 0
    decreases |events|
  {
    |events| == 0
    || (var after := ShardsAfter(hash, sh, events[0]);
        Happens(hash, |sh|, Flat(hash, sh), Flat(hash, after), events[0]) && RunHappens(hash, after, events[1..]))
  }

  /** Over any run the books are the numbers of entries with each fate: every entry that leaves without being
      overwritten is counted once, at the event it leaves in, under the head of its fate; and every new one at its arrival. */
  lemma {:induction false} RunAccounted(hash: Hash, sh: ShardMaps, events: seq<Event>)
    requires Routed(hash, sh)
    ensures RunHappens(hash, sh, events)
    ensures forall fate :: Leaves(fate) ==>
              Head(RunLedger(hash, sh, events), fate) == |RunWithFate(hash, sh, events, fate)|
    ensures RunLedger(hash, sh, events).inserted == |RunArrivals(hash, sh, events)|
    decreases |events|
  {
    assert |sh| > 0;
    hide Routed, Flat, WithFate, Arrivals, Happens, ShardsAfter, EventLedger, Tagged, Head;
    if |events| == 0 {
      forall fate ensures Head(NOTHING, fate) == 0 {
        NothingBooked(fate);
      }
    } else {
      var e, n, after := events[0], |events|, ShardsAfter(hash, sh, events[0]);
      EventAccounted(hash, sh, e);
      RunAccounted(hash, after, events[1..]);
      MeetingsAdd(Arrivals(hash, |sh|, Flat(hash, sh), Flat(hash, after), e), n, RunArrivals(hash, after, events[1..]));
      forall fate | Leaves(fate)
        ensures Head(RunLedger(hash, sh, events), fate) == |RunWithFate(hash, sh, events, fate)|
      {
        HeadPlus(EventLedger(hash, sh, e), RunLedger(hash, after, events[1..]), fate);
        MeetingsAdd(WithFate(hash, |sh|, Flat(hash, sh), e, fate), n, RunWithFate(hash, after, events[1..], fate));
      }
    }
  }
}
