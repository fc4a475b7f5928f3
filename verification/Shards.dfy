/** A store split over shards by a hash: which shard map a command leaves, and how that refines the reference store. */
module Shards {
  import opened Bytes
  import opened Clock
  import opened Commands
  import opened Reference
  import opened Databases

  /** The hash of a key; any fixed function. */
  type Hash = Key -> nat

  type ShardMaps = seq<Store>

  function Route(hash: Hash, key: Key, count: nat): (i: nat)
    requires count > 0
    ensures i < count
  {
    hash(key) % count
  }

  /** Each key lives only in the shard it is routed to. */
  ghost predicate Routed(hash: Hash, sh: ShardMaps) {
    |sh| > 0 && forall i, k :: 0 <= i < |sh| && k in sh[i] ==> Route(hash, k, |sh|) == i
  }

  function LookIn(hash: Hash, sh: ShardMaps, key: Key, now: Time): Option<Entry>
    requires |sh| > 0
  {
    Look(sh[Route(hash, key, |sh|)], key, now)
  }

  /** The shards and the reference store cannot be told apart at `now`. */
  ghost predicate Represents(hash: Hash, sh: ShardMaps, r: Store, now: Time)
    requires |sh| > 0
  {
    forall k :: LookIn(hash, sh, k, now) == Look(r, k, now)
  }

  function AllKeys(sh: ShardMaps): (r: set<Key>)
    ensures forall k :: k in r <==> exists i :: 0 <= i < |sh| && k in sh[i]
  {
    set i, k | 0 <= i < |sh| && k in sh[i] :: k
  }

  /** All shards as one map. */
  function Flat(hash: Hash, sh: ShardMaps): (r: Store)
    requires |sh| > 0
  {
    map k | k in AllKeys(sh) && k in sh[Route(hash, k, |sh|)] :: sh[Route(hash, k, |sh|)][k]
  }

  lemma FlatRepresents(hash: Hash, sh: ShardMaps, now: Time)
    requires |sh| > 0
    ensures Represents(hash, sh, Flat(hash, sh), now)
  {
    forall k ensures LookIn(hash, sh, k, now) == Look(Flat(hash, sh), k, now) {
      if k in sh[Route(hash, k, |sh|)] {
        assert k in AllKeys(sh);
      }
    }
  }

  // ------------------------------------------------------------ one shard

  /** What running `c` on `key` leaves in the key's shard; a SET first purges the shard. */
  function ShardNext(m: Store, c: Command, key: Key, now: Time): Store {
    KeyNext(if c.Set? || c.SetPxAt? then Purge(m, now) else m, c, key, now)
  }

  /** Commands that visit the shard of each of their keys. */
  predicate IsKeyed(c: Command) {
    c.Set? || c.SetPxAt? || c.Get? || c.Del? || c.Exists? || c.Expire? || c.ExpireAt? || c.Ttl?
  }

  function KeysOf(c: Command): (keys: seq<Key>)
    requires IsKeyed(c)
  {
    match c
    case Set(key, _, _) => [key]
    case SetPxAt(key, _, _) => [key]
    case Get(key) => [key]
    case Del(keys) => keys
    case Exists(key) => [key]
    case Expire(key, _) => [key]
    case ExpireAt(key, _) => [key]
    case Ttl(key) => [key]
  }

  /** The part of a command that concerns one of its keys. */
  function Part(c: Command, key: Key): Command {
    if c.Del? then Del([key]) else c
  }

  function Visit(hash: Hash, sh: ShardMaps, c: Command, key: Key, now: Time): (r: ShardMaps)
    requires |sh| > 0
    ensures |r| == |sh|
  {
    var i := Route(hash, key, |sh|);
    sh[i := ShardNext(sh[i], c, key, now)]
  }

  /** Inside the shard of `key`, a visit is the reference step. */
  lemma ShardNextLook(m: Store, r: Store, c: Command, key: Key, k: Key, now: Time)
    requires IsKeyed(c) && key in KeysOf(c)
    requires Look(m, key, now) == Look(r, key, now) && Look(m, k, now) == Look(r, k, now)
    ensures Look(ShardNext(m, c, key, now), k, now) == Look(Next(r, Part(c, key), now), k, now)
  {
    if c.Del? {
      assert Elements([key]) == {key};
    }
  }

  /** The reference step for one key touches no other key. */
  lemma NextElsewhere(r: Store, c: Command, key: Key, k: Key, now: Time)
    requires IsKeyed(c) && key in KeysOf(c) && k != key
    ensures Look(Next(r, Part(c, key), now), k, now) == Look(r, k, now)
  {
    if c.Del? {
      assert Elements([key]) == {key};
    }
  }

  /** A visit only ever adds the visited key. */
  lemma ShardNextKeys(m: Store, c: Command, key: Key, now: Time)
    requires IsKeyed(c) && key in KeysOf(c)
    ensures ShardNext(m, c, key, now).Keys <= m.Keys + {key}
  {
  }

  /** A visit is a step of the reference store with the command's part for that key. */
  lemma VisitRefines(hash: Hash, sh: ShardMaps, r: Store, c: Command, key: Key, now: Time)
    requires Routed(hash, sh) && Represents(hash, sh, r, now)
    requires IsKeyed(c) && key in KeysOf(c)
    ensures Routed(hash, Visit(hash, sh, c, key, now))
    ensures Represents(hash, Visit(hash, sh, c, key, now), Next(r, Part(c, key), now), now)
  {
    hide ShardNext, Next, Look, Part;
    var i := Route(hash, key, |sh|);
    var after := Visit(hash, sh, c, key, now);
    ShardNextKeys(sh[i], c, key, now);
    assert LookIn(hash, sh, key, now) == Look(r, key, now);
    forall k ensures LookIn(hash, after, k, now) == Look(Next(r, Part(c, key), now), k, now) {
      assert LookIn(hash, sh, k, now) == Look(r, k, now);
      if Route(hash, k, |sh|) == i {
        ShardNextLook(sh[i], r, c, key, k, now);
      } else {
        NextElsewhere(r, c, key, k, now);
      }
    }
  }

  // ----------------------------------------------------------- all shards

  /** The visits of a command to the shards of the given keys, in order. */
  function VisitAll(hash: Hash, sh: ShardMaps, c: Command, keys: seq<Key>, now: Time): (r: ShardMaps)
    requires |sh| > 0
    ensures |r| == |sh|
  {
    if |keys| == 0 then sh
    else Visit(hash, VisitAll(hash, sh, c, keys[..|keys| - 1], now), c, keys[|keys| - 1], now)
  }

  function PurgeAll(sh: ShardMaps, now: Time): (r: ShardMaps)
    ensures |r| == |sh| && forall i :: 0 <= i < |sh| ==> r[i] == Purge(sh[i], now)
  {
    seq(|sh|, i requires 0 <= i < |sh| => Purge(sh[i], now))
  }

  /** The first `done` shards purged, the others as they were. */
  function PurgeFirst(sh: ShardMaps, done: nat, now: Time): (r: ShardMaps)
    requires done <= |sh|
    ensures |r| == |sh|
  {
    PurgeAll(sh[..done], now) + sh[done..]
  }

  lemma PurgeFirstSteps(sh: ShardMaps, done: nat, now: Time)
    requires done < |sh|
    ensures PurgeFirst(sh, done, now)[done] == sh[done]
    ensures PurgeFirst(sh, done, now)[done := Purge(sh[done], now)] == PurgeFirst(sh, done + 1, now)
  {
  }

  lemma PurgeFirstEnds(sh: ShardMaps, now: Time)
    ensures PurgeFirst(sh, 0, now) == sh && PurgeFirst(sh, |sh|, now) == PurgeAll(sh, now)
  {
    assert sh[..0] == [] && sh[..|sh|] == sh;
  }

  function EmptyShards(count: nat): (r: ShardMaps)
    ensures |r| == count && forall i :: 0 <= i < count ==> r[i] == map[]
  {
    seq(count, i => map[])
  }

  /** The shards after a whole command run on its own. */
  function ShardedNext(hash: Hash, sh: ShardMaps, c: Command, now: Time): (r: ShardMaps)
    requires |sh| > 0
    ensures |r| == |sh|
  {
    if IsKeyed(c) then VisitAll(hash, sh, c, KeysOf(c), now)
    else if c.FlushDb? then EmptyShards(|sh|)
    else if c.Info? then PurgeAll(sh, now)
    else sh
  }

  lemma {:induction false} DelVisitsRefine(hash: Hash, sh: ShardMaps, r: Store, c: Command, keys: seq<Key>, now: Time)
    requires Routed(hash, sh) && Represents(hash, sh, r, now)
    requires c.Del? && Elements(keys) <= Elements(c.keys)
    ensures Routed(hash, VisitAll(hash, sh, c, keys, now))
    ensures Represents(hash, VisitAll(hash, sh, c, keys, now), r - Elements(keys), now)
  {
    hide Visit, Look, Route;
    if |keys| == 0 {
      assert r - Elements(keys) == r;
    } else {
      var init, last := keys[..|keys| - 1], keys[|keys| - 1];
      assert keys == init + [last];
      assert last in Elements(keys);
      assert Elements(init) <= Elements(keys);
      DelVisitsRefine(hash, sh, r, c, init, now);
      VisitRefines(hash, VisitAll(hash, sh, c, init, now), r - Elements(init), c, last, now);
      assert r - Elements(init) - Elements([last]) == r - Elements(keys);
    }
  }

  lemma OneVisit(hash: Hash, sh: ShardMaps, c: Command, key: Key, now: Time)
    requires |sh| > 0
    ensures VisitAll(hash, sh, c, [key], now) == Visit(hash, sh, c, key, now)
  {
    var keys := [key];
    assert keys[..|keys| - 1] == [];
  }

  /** A purge of every shard, like any deletion of what has expired, cannot be seen. */
  lemma PurgeAllRefines(hash: Hash, sh: ShardMaps, r: Store, now: Time)
    requires Routed(hash, sh) && Represents(hash, sh, r, now)
    ensures Routed(hash, PurgeAll(sh, now)) && Represents(hash, PurgeAll(sh, now), r, now)
  {
    forall k ensures LookIn(hash, PurgeAll(sh, now), k, now) == Look(r, k, now) {
      assert LookIn(hash, sh, k, now) == Look(r, k, now);
    }
  }

  /** A command over any number of shards is one step of the reference store. */
  lemma ShardedRefines(hash: Hash, sh: ShardMaps, r: Store, c: Command, now: Time)
    requires Routed(hash, sh) && Represents(hash, sh, r, now)
    ensures Routed(hash, ShardedNext(hash, sh, c, now))
    ensures Represents(hash, ShardedNext(hash, sh, c, now), Next(r, c, now), now)
  {
    hide Look, Visit, PurgeAll;
    if c.Del? {
      DelVisitsRefine(hash, sh, r, c, c.keys, now);
    } else if IsKeyed(c) {
      var key := KeysOf(c)[0];
      OneVisit(hash, sh, c, key, now);
      VisitRefines(hash, sh, r, c, key, now);
    } else if c.Info? {
      PurgeAllRefines(hash, sh, r, now);
    } else if c.FlushDb? {
      FlushRepresents(hash, |sh|, now);
    }
  }

  lemma FlushRepresents(hash: Hash, count: nat, now: Time)
    requires count > 0
    ensures Routed(hash, EmptyShards(count)) && Represents(hash, EmptyShards(count), map[], now)
  {
  }

  /** What the shards represent, they represent later too. */
  lemma RepresentsLater(hash: Hash, sh: ShardMaps, r: Store, now: Time, later: Time)
    requires |sh| > 0 && Represents(hash, sh, r, now) && now <= later
    ensures Represents(hash, sh, r, later)
  {
    forall k ensures LookIn(hash, sh, k, later) == Look(r, k, later) {
      assert LookIn(hash, sh, k, now) == Look(r, k, now);
    }
  }

  // ------------------------------------------------- gathering live keys

  /** `found` lists, once each, the live keys of the first `done` shards. */
  ghost predicate Gathered(hash: Hash, sh: ShardMaps, done: nat, found: seq<Key>, now: Time)
    requires |sh| > 0
  {
    && Distinct(found)
    && forall k :: k in found <==> Route(hash, k, |sh|) < done && LookIn(hash, sh, k, now).Some?
  }

  lemma GatherShard(hash: Hash, sh: ShardMaps, done: nat, found: seq<Key>, part: seq<Key>, now: Time)
    requires Routed(hash, sh) && done < |sh| && Gathered(hash, sh, done, found, now)
    requires Distinct(part) && forall k :: k in part <==> Look(sh[done], k, now).Some?
    ensures Gathered(hash, sh, done + 1, found + part, now)
  {
    forall k ensures k in found + part <==> Route(hash, k, |sh|) < done + 1 && LookIn(hash, sh, k, now).Some? {
      assert k in part ==> Route(hash, k, |sh|) == done;
    }
    forall i, j | 0 <= i < j < |found + part| ensures (found + part)[i] != (found + part)[j] {
      if i < |found| <= j {
        assert found[i] in found && part[j - |found|] in part;
      }
    }
  }

  lemma GatheredAll(hash: Hash, sh: ShardMaps, found: seq<Key>, now: Time)
    requires |sh| > 0 && Gathered(hash, sh, |sh|, found, now)
    ensures Distinct(found)
    ensures forall k :: k in found <==> Look(Flat(hash, sh), k, now).Some?
    ensures Sort(found) == SortedList(LiveKeys(Flat(hash, sh), now))
  {
    FlatRepresents(hash, sh, now);
    assert forall k :: LookIn(hash, sh, k, now) == Look(Flat(hash, sh), k, now);
    SortSorted(found);
    SortedListUnique(Sort(found), SortedList(LiveKeys(Flat(hash, sh), now)));
  }

  // ----------------------------------------------------------------- sizes

  function Sum(lens: seq<nat>): nat {
    if |lens| == 0 then 0 else lens[0] + Sum(lens[1..])
  }

  lemma {:induction false} SumUpdate(lens: seq<nat>, i: nat, n: nat)
    requires i < |lens|
    ensures Sum(lens[i := n]) == Sum(lens) - lens[i] + n
    ensures lens[i] <= Sum(lens)
  {
    if i == 0 {
      assert lens[0 := n][1..] == lens[1..];
    } else {
      SumUpdate(lens[1..], i - 1, n);
      assert lens[i := n][1..] == lens[1..][i - 1 := n];
    }
  }

  lemma {:induction false} SumZero(lens: seq<nat>)
    requires forall i :: 0 <= i < |lens| ==> lens[i] == 0
    ensures Sum(lens) == 0
  {
    if |lens| == 0 {
    } else {
      SumZero(lens[1..]);
    }
  }

  /** Number of entries of each shard, expired ones included. */
  function Lens(sh: ShardMaps): (r: seq<nat>)
    ensures |r| == |sh| && forall i :: 0 <= i < |sh| ==> r[i] == |sh[i]|
  {
    seq(|sh|, i requires 0 <= i < |sh| => |sh[i]|)
  }

  function Total(sh: ShardMaps): nat {
    Sum(Lens(sh))
  }

  /** The counter after a change of length, saturating at zero. */
  function Recount(keyCount: nat, before: nat, after: nat): nat {
    if after >= before then keyCount + (after - before)
    else if keyCount >= before - after then keyCount - (before - after) else 0
  }

  lemma TotalUpdate(sh: ShardMaps, i: nat, m: Store)
    requires i < |sh|
    ensures Total(sh[i := m]) == Total(sh) - |sh[i]| + |m|
    ensures |sh[i]| <= Total(sh)
  {
    assert Lens(sh[i := m]) == Lens(sh)[i := |m|];
    SumUpdate(Lens(sh), i, |m|);
  }

  /** Two keys share a shard exactly when their hashes differ by a multiple of the number of shards. */
  lemma RouteShared(hash: Hash, a: Key, b: Key, count: nat)
    requires count > 0
    ensures Route(hash, a, count) == Route(hash, b, count) <==> exists m: int :: hash(a) == hash(b) + m * count
  {
    var p, q := hash(a) / count, hash(b) / count;
    assert hash(a) == p * count + hash(a) % count && hash(b) == q * count + hash(b) % count;
    if Route(hash, a, count) == Route(hash, b, count) {
      assert hash(a) == hash(b) + (p - q) * count;
    }
    if m: int :| hash(a) == hash(b) + m * count {
      assert (m + q - p) * count == hash(a) % count - hash(b) % count;
      SmallMultiple(m + q - p, count);
    }
  }

  lemma SmallMultiple(m: int, count: nat)
    ensures m > 0 ==> m * count >= count
    ensures m < 0 ==> m * count + count <= 0
  {
  }
}
