/** Where entries go: the counts an operation reports, the fate of every entry, and the balance over whole runs. */
module Ledger {
  import opened Bytes
  import opened Decimal
  import opened Clock
  import opened Commands
  import opened Reference
  import opened Databases
  import opened Shards

  /** `expired` and `deleted` are what the store reports; `displaced` entries are dropped by a
      SET whose absolute deadline has passed, `flushed` ones by FLUSHDB. */
  datatype Ledger = Ledger(inserted: nat, expired: nat, deleted: nat, displaced: nat, flushed: nat) {
    function Plus(other: Ledger): Ledger {
      Ledger(inserted + other.inserted, expired + other.expired, deleted + other.deleted,
             displaced + other.displaced, flushed + other.flushed)
    }

    function Left(): nat {
      expired + deleted + displaced + flushed
    }
  }

  const NOTHING := Ledger(0, 0, 0, 0, 0)

  predicate Stores(c: Command, now: Time) {
    c.Set? || (c.SetPxAt? && DurationUntil(c.timestampMs, now).Some?)
  }

  /** The expiry count of one shard visit, from map sizes before and after as the source takes it. */
  function VisitExpired(m: Store, c: Command, key: Key, now: Time): nat {
    if c.Set? || c.SetPxAt? then
      PurgeShrinks(m, now);
      |m| - |Purge(m, now)|
    else if c.Del? then
      if key in m && Expired(m[key], now) then 1 else 0
    else
      var after := ShardNext(m, c, key, now);
      if |m| >= |after| then |m| - |after| else 0
  }

  function VisitLedger(m: Store, c: Command, key: Key, now: Time): Ledger {
    var live := Look(m, key, now).Some?;
    Ledger(if Stores(c, now) && !live then 1 else 0,
           VisitExpired(m, c, key, now),
           if c.Del? && live then 1 else 0,
           if c.SetPxAt? && !Stores(c, now) && live then 1 else 0,
           0)
  }

  // ------------------------------------------------------- one shard visit

  datatype Fate = Kept | Overwritten | ExpiredOut | Deleted | Displaced | Flushed

  /** What becomes of the entry `k` of a shard when `c` visits it for `key`. A past-dated EXPIREAT expires its key. */
  function FateOf(m: Store, c: Command, key: Key, k: Key, now: Time): Fate
    requires k in m
  {
    var gone := Expired(m[k], now);
    if c.Set? || c.SetPxAt? then
      if gone then ExpiredOut
      else if k != key then Kept
      else if Stores(c, now) then Overwritten else Displaced
    else if k != key then Kept
    else if gone then ExpiredOut
    else if c.Del? then Deleted
    else if c.ExpireAt? && DurationUntil(c.timestampMs, now).None? then ExpiredOut
    else Kept
  }

  function Fated(m: Store, c: Command, key: Key, now: Time, fate: Fate): set<Key> {
    set k | k in m && FateOf(m, c, key, k, now) == fate
  }

  /** The sets of fates partition the shard; kept entries keep their value; the others are gone
      from it, except that the visited key may be stored anew. */
  lemma FatesDescribe(m: Store, c: Command, key: Key, now: Time)
    requires IsKeyed(c) && key in KeysOf(c)
    ensures forall k :: k in m && FateOf(m, c, key, k, now) == Kept
                    ==> k in ShardNext(m, c, key, now) && ShardNext(m, c, key, now)[k].value == m[k].value
    ensures forall k :: k in m && FateOf(m, c, key, k, now) != Kept
                    ==> (k in ShardNext(m, c, key, now) <==> k == key && Stores(c, now))
    ensures forall k :: k in ShardNext(m, c, key, now) && k !in m ==> k == key && Stores(c, now)
  {
  }

  lemma RemoveSize(m: Store, key: Key)
    ensures |m - {key}| == |m| - if key in m then 1 else 0
  {
    if key in m {
      assert (m - {key}).Keys == m.Keys - {key};
    } else {
      assert m - {key} == m;
    }
  }

  lemma PutSize(m: Store, key: Key, e: Entry)
    ensures |m[key := e]| == |m| + if key in m then 0 else 1
  {
    if key in m {
      assert m[key := e].Keys == m.Keys;
    } else {
      assert m[key := e].Keys == m.Keys + {key};
    }
  }

  /** The books of a visit balance: size after plus what left is size before plus what came in. */
  ghost predicate Balanced(m: Store, c: Command, key: Key, now: Time) {
    var l := VisitLedger(m, c, key, now);
    |ShardNext(m, c, key, now)| + l.Left() == |m| + l.inserted
  }

  lemma SetConserves(m: Store, c: Command, key: Key, now: Time)
    requires c.Set?
    ensures Balanced(m, c, key, now)
  {
    hide Look, Purge, DurationUntil;
    var purged := Purge(m, now);
    PurgeShrinks(m, now);
    PurgedKey(m, key, now);
    PutSize(purged, key, Entry(c.value, if c.expire.Some? then Some(now + c.expire.value * NANOS) else None));
  }

  lemma PutAtSize(m: Store, key: Key, value: Bytes, stamp: u64, now: Time)
    ensures |PutAt(m, key, value, stamp, now)|
         == if DurationUntil(stamp, now).Some? then |m| + (if key in m then 0 else 1)
            else |m| - (if key in m then 1 else 0)
  {
    hide DurationUntil;
    RemoveSize(m, key);
    var left := DurationUntil(stamp, now);
    if left.Some? {
      PutSize(m, key, Entry(value, Some(now + left.value)));
    }
  }

  lemma PurgedKey(m: Store, key: Key, now: Time)
    ensures key in Purge(m, now) <==> Look(m, key, now).Some?
  {
  }

  /** A SET with an absolute deadline: the size it leaves. */
  lemma SetPxAtSize(m: Store, c: Command, key: Key, now: Time)
    requires c.SetPxAt?
    ensures |ShardNext(m, c, key, now)| == |Purge(m, now)|
              + (if Stores(c, now) && Look(m, key, now).None? then 1 else 0)
              - (if !Stores(c, now) && Look(m, key, now).Some? then 1 else 0)
  {
    hide Look, Purge, DurationUntil, PutAt;
    PurgedKey(m, key, now);
    PutAtSize(Purge(m, now), key, c.value, c.timestampMs, now);
  }

  lemma SetPxAtConserves(m: Store, c: Command, key: Key, now: Time)
    requires c.SetPxAt?
    ensures Balanced(m, c, key, now)
  {
    hide Look, Purge, DurationUntil, ShardNext, Stores;
    PurgeShrinks(m, now);
    SetPxAtSize(m, c, key, now);
  }

  predicate Removes(m: Store, c: Command, key: Key, now: Time) {
    key in m && FateOf(m, c, key, key, now) != Kept
  }

  lemma VisitKeys(m: Store, c: Command, key: Key, now: Time)
    requires IsKeyed(c) && !c.Set? && !c.SetPxAt?
    ensures ShardNext(m, c, key, now).Keys == if Removes(m, c, key, now) then m.Keys - {key} else m.Keys
  {
  }

  lemma VisitShrinks(m: Store, c: Command, key: Key, now: Time)
    requires IsKeyed(c) && !c.Set? && !c.SetPxAt?
    ensures |ShardNext(m, c, key, now)| == |m| - if Removes(m, c, key, now) then 1 else 0
  {
    hide ShardNext, Removes;
    VisitKeys(m, c, key, now);
    var after := ShardNext(m, c, key, now);
    assert |after| == |after.Keys| && |m| == |m.Keys|;
    assert Removes(m, c, key, now) ==> key in m.Keys by {
      RemovesPresent(m, c, key, now);
    }
  }

  lemma RemovesPresent(m: Store, c: Command, key: Key, now: Time)
    ensures Removes(m, c, key, now) ==> key in m
  {
  }

  /** A command that stores nothing can only take the visited key away. */
  lemma OtherFates(m: Store, c: Command, key: Key, now: Time)
    requires IsKeyed(c) && !c.Set? && !c.SetPxAt?
    ensures key in m ==> var fate := FateOf(m, c, key, key, now); fate.Kept? || fate.ExpiredOut? || fate.Deleted?
    ensures (c.Del? && Look(m, key, now).Some?) <==> (key in m && FateOf(m, c, key, key, now) == Deleted)
    ensures forall k :: k in m && k != key ==> FateOf(m, c, key, k, now) == Kept
    ensures !Stores(c, now)
  {
    hide DurationUntil;
  }

  lemma OtherExpired(m: Store, c: Command, key: Key, now: Time)
    requires IsKeyed(c) && !c.Set? && !c.SetPxAt?
    ensures VisitExpired(m, c, key, now)
         == if key in m && FateOf(m, c, key, key, now) == ExpiredOut then 1 else 0
  {
    VisitShrinks(m, c, key, now);
    hide ShardNext, DurationUntil;
  }

  lemma OtherLeft(m: Store, c: Command, key: Key, now: Time)
    requires IsKeyed(c) && !c.Set? && !c.SetPxAt?
    ensures VisitLedger(m, c, key, now).Left() == if Removes(m, c, key, now) then 1 else 0
    ensures VisitLedger(m, c, key, now).inserted == 0
  {
    OtherFates(m, c, key, now);
    OtherExpired(m, c, key, now);
    hide FateOf, Look, VisitExpired, Stores;
  }

  lemma OtherConserves(m: Store, c: Command, key: Key, now: Time)
    requires IsKeyed(c) && !c.Set? && !c.SetPxAt?
    ensures Balanced(m, c, key, now)
  {
    hide ShardNext, VisitLedger, Removes;
    VisitShrinks(m, c, key, now);
    OtherLeft(m, c, key, now);
  }

  lemma OtherFated(m: Store, c: Command, key: Key, now: Time, fate: Fate)
    requires IsKeyed(c) && !c.Set? && !c.SetPxAt? && fate != Kept
    ensures Fated(m, c, key, now, fate) == if key in m && FateOf(m, c, key, key, now) == fate then {key} else {}
  {
    OtherFates(m, c, key, now);
    hide FateOf, Look, Stores;
  }

  lemma VisitConserves(m: Store, c: Command, key: Key, now: Time)
    requires IsKeyed(c)
    ensures Balanced(m, c, key, now)
  {
    hide Balanced;
    if c.Set? {
      SetConserves(m, c, key, now);
    } else if c.SetPxAt? {
      SetPxAtConserves(m, c, key, now);
    } else {
      OtherConserves(m, c, key, now);
    }
  }

  /** The reported counts are the numbers of entries with each fate: every entry that leaves is counted, once, under one head. */
  lemma CountsAreFates(m: Store, c: Command, key: Key, now: Time)
    requires IsKeyed(c) && key in KeysOf(c)
    ensures var l := VisitLedger(m, c, key, now);
            && l.expired == |Fated(m, c, key, now, ExpiredOut)|
            && l.deleted == |Fated(m, c, key, now, Deleted)|
            && l.displaced == |Fated(m, c, key, now, Displaced)|
  {
    ExpiredCount(m, c, key, now);
    if c.Set? || c.SetPxAt? {
      StoringDisplaced(m, c, key, now);
    } else {
      OtherFates(m, c, key, now);
      OtherFated(m, c, key, now, Deleted);
      OtherFated(m, c, key, now, Displaced);
    }
    hide Fated, FateOf, Look, VisitExpired, Stores, KeysOf;
  }

  lemma StoringDisplaced(m: Store, c: Command, key: Key, now: Time)
    requires c.Set? || c.SetPxAt?
    ensures Fated(m, c, key, now, Deleted) == {}
    ensures Fated(m, c, key, now, Displaced)
         == if Look(m, key, now).Some? && !Stores(c, now) then {key} else {}
    ensures c.Set? ==> Stores(c, now)
  {
    hide DurationUntil;
  }

  lemma ExpiredCount(m: Store, c: Command, key: Key, now: Time)
    requires IsKeyed(c) && key in KeysOf(c)
    ensures VisitExpired(m, c, key, now) == |Fated(m, c, key, now, ExpiredOut)|
  {
    if c.Set? || c.SetPxAt? {
      StoringExpired(m, c, key, now);
    } else {
      OtherExpired(m, c, key, now);
      OtherFated(m, c, key, now, ExpiredOut);
    }
    hide Fated, FateOf, VisitExpired, KeysOf;
  }

  lemma StoringExpired(m: Store, c: Command, key: Key, now: Time)
    requires c.Set? || c.SetPxAt?
    ensures VisitExpired(m, c, key, now) == |Fated(m, c, key, now, ExpiredOut)|
  {
    hide ShardNext, FateOf, Fated, Purge;
    var kept := Purge(m, now).Keys;
    StoringFated(m, c, key, now);
    assert |m.Keys - kept| == |m.Keys| - |kept|;
    assert |m| == |m.Keys| && |Purge(m, now)| == |kept|;
  }

  lemma StoringFated(m: Store, c: Command, key: Key, now: Time)
    requires c.Set? || c.SetPxAt?
    ensures Fated(m, c, key, now, ExpiredOut) == m.Keys - Purge(m, now).Keys
  {
    hide Stores;
  }

  // ----------------------------------------------------------- all shards

  lemma VisitKeeps(hash: Hash, sh: ShardMaps, c: Command, key: Key, now: Time)
    requires Routed(hash, sh) && IsKeyed(c)
    requires c.Del? || key in KeysOf(c)
    ensures Routed(hash, Visit(hash, sh, c, key, now))
    ensures Total(Visit(hash, sh, c, key, now))
         == Total(sh) - |sh[Route(hash, key, |sh|)]| + |ShardNext(sh[Route(hash, key, |sh|)], c, key, now)|
    ensures |sh[Route(hash, key, |sh|)]| <= Total(sh)
  {
    var i := Route(hash, key, |sh|);
    TotalUpdate(sh, i, ShardNext(sh[i], c, key, now));
  }

  function VisitsLedger(hash: Hash, sh: ShardMaps, c: Command, keys: seq<Key>, now: Time): Ledger
    requires |sh| > 0
  {
    if |keys| == 0 then NOTHING
    else
      var init, last := keys[..|keys| - 1], keys[|keys| - 1];
      var before := VisitAll(hash, sh, c, init, now);
      VisitsLedger(hash, sh, c, init, now).Plus(VisitLedger(before[Route(hash, last, |sh|)], c, last, now))
  }

  function VisitsExpired(hash: Hash, sh: ShardMaps, c: Command, keys: seq<Key>, now: Time): nat
    requires |sh| > 0
  {
    VisitsLedger(hash, sh, c, keys, now).expired
  }

  lemma OneVisitLedger(hash: Hash, sh: ShardMaps, c: Command, key: Key, now: Time)
    requires |sh| > 0
    ensures VisitsLedger(hash, sh, c, [key], now) == VisitLedger(sh[Route(hash, key, |sh|)], c, key, now)
  {
    hide VisitLedger, Visit, Route;
    var keys := [key];
    assert keys[..|keys| - 1] == [] && keys[0] == key;
    assert VisitAll(hash, sh, c, [], now) == sh;
    assert VisitsLedger(hash, sh, c, [], now) == NOTHING;
  }

  function PurgeLedger(sh: ShardMaps, now: Time): Ledger {
    PurgeTotal(sh, now);
    NOTHING.(expired := Total(sh) - Total(PurgeAll(sh, now)))
  }

  /** The books of one whole command. */
  function CommandLedger(hash: Hash, sh: ShardMaps, c: Command, now: Time): Ledger
    requires |sh| > 0
  {
    if IsKeyed(c) then VisitsLedger(hash, sh, c, KeysOf(c), now)
    else if c.FlushDb? then NOTHING.(flushed := Total(sh))
    else if c.Info? then PurgeLedger(sh, now)
    else NOTHING
  }

  function CommandExpired(hash: Hash, sh: ShardMaps, c: Command, now: Time): nat
    requires |sh| > 0
  {
    CommandLedger(hash, sh, c, now).expired
  }

  lemma {:induction false} PurgeTotal(sh: ShardMaps, now: Time)
    ensures Total(PurgeAll(sh, now)) <= Total(sh)
  {
    if |sh| == 0 {
    } else {
      PurgeTotal(sh[1..], now);
      PurgeShrinks(sh[0], now);
      assert Lens(sh)[1..] == Lens(sh[1..]);
      assert PurgeAll(sh, now)[1..] == PurgeAll(sh[1..], now);
      assert Lens(PurgeAll(sh, now))[1..] == Lens(PurgeAll(sh[1..], now));
    }
  }

  lemma {:induction false} VisitsConserve(hash: Hash, sh: ShardMaps, c: Command, keys: seq<Key>, now: Time)
    requires Routed(hash, sh) && IsKeyed(c) && Elements(keys) <= Elements(KeysOf(c))
    ensures Routed(hash, VisitAll(hash, sh, c, keys, now))
    ensures Total(VisitAll(hash, sh, c, keys, now)) + VisitsLedger(hash, sh, c, keys, now).Left()
         == Total(sh) + VisitsLedger(hash, sh, c, keys, now).inserted
  {
    hide VisitLedger, ShardNext, Total;
    if |keys| == 0 {
    } else {
      var init, last := keys[..|keys| - 1], keys[|keys| - 1];
      assert keys == init + [last] && last in Elements(keys);
      assert Elements(init) <= Elements(keys);
      VisitsConserve(hash, sh, c, init, now);
      var before := VisitAll(hash, sh, c, init, now);
      VisitKeeps(hash, before, c, last, now);
      VisitConserves(before[Route(hash, last, |sh|)], c, last, now);
    }
  }

  /** One command balances. */
  lemma CommandConserves(hash: Hash, sh: ShardMaps, c: Command, now: Time)
    requires Routed(hash, sh)
    ensures Total(ShardedNext(hash, sh, c, now)) + CommandLedger(hash, sh, c, now).Left()
         == Total(sh) + CommandLedger(hash, sh, c, now).inserted
  {
    if IsKeyed(c) {
      VisitsConserve(hash, sh, c, KeysOf(c), now);
    } else if c.FlushDb? {
      SumZero(Lens(EmptyShards(|sh|)));
    } else if c.Info? {
      PurgeTotal(sh, now);
    }
  }

  /** One more key of a DEL: the books and the set of live keys listed grow together. */
  lemma DelStep(hash: Hash, sh: ShardMaps, r: Store, c: Command, done: seq<Key>, key: Key, now: Time)
    requires Routed(hash, sh) && Represents(hash, sh, r, now)
    requires c.Del? && Elements(done) <= Elements(c.keys)
    ensures var mid := VisitAll(hash, sh, c, done, now);
            && VisitAll(hash, sh, c, done + [key], now) == Visit(hash, mid, c, key, now)
            && |LiveAmong(r, done + [key], now)|
            == |LiveAmong(r, done, now)| + (if LookIn(hash, mid, key, now).Some? then 1 else 0)
            && VisitsLedger(hash, sh, c, done + [key], now)
            == VisitsLedger(hash, sh, c, done, now).Plus(VisitLedger(mid[Route(hash, key, |sh|)], c, key, now))
  {
    hide VisitLedger, ShardNext;
    assert (done + [key])[..|done|] == done;
    DelVisitsRefine(hash, sh, r, c, done, now);
    LiveAmongSnoc(r, done, key, now);
    assert LookIn(hash, VisitAll(hash, sh, c, done, now), key, now) == Look(r - Elements(done), key, now);
  }

  /** A DEL books as deleted exactly the distinct live keys it lists. */
  lemma {:induction false} DelBooksLiveKeys(hash: Hash, sh: ShardMaps, r: Store, c: Command, keys: seq<Key>, now: Time)
    requires Routed(hash, sh) && Represents(hash, sh, r, now)
    requires c.Del? && Elements(keys) <= Elements(c.keys)
    ensures VisitsLedger(hash, sh, c, keys, now).deleted == |LiveAmong(r, keys, now)|
  {
    hide VisitAll, LiveAmong;
    if |keys| > 0 {
      var init, last := keys[..|keys| - 1], keys[|keys| - 1];
      assert keys == init + [last];
      assert Elements(init) <= Elements(keys);
      DelBooksLiveKeys(hash, sh, r, c, init, now);
      DelStep(hash, sh, r, c, init, last, now);
    } else {
      NoneLive(r, now);
    }
  }

  lemma NoneLive(r: Store, now: Time)
    ensures LiveAmong(r, [], now) == {}
  {
  }
}
