/** The entries a snapshot exports, in key order. */
module Snapshots {
  import opened Bytes
  import opened Decimal
  import opened Clock
  import opened Commands
  import opened Reference

  datatype SnapshotEntry = SnapshotEntry(key: Key, value: Bytes, expireAtMs: Option<u64>)

  function EntryOf(key: Key, e: Entry, now: Time): SnapshotEntry
    requires !Expired(e, now)
  {
    SnapshotEntry(key, e.value,
                  if e.expireAt.Some? then Some(SnapshotStamp(e.expireAt.value, now)) else None)
  }

  ghost predicate AllLive(m: Store, keys: seq<Key>, now: Time) {
    forall k :: k in keys ==> Look(m, k, now).Some?
  }

  /** The snapshot entries of the listed live keys, in list order. */
  function Render(m: Store, keys: seq<Key>, now: Time): (r: seq<SnapshotEntry>)
    requires AllLive(m, keys, now)
    ensures |r| == |keys|
    ensures forall i :: 0 <= i < |r| ==> Look(m, keys[i], now).Some? && r[i] == EntryOf(keys[i], m[keys[i]], now)
  {
    assert forall i :: 0 <= i < |keys| ==> keys[i] in keys;
    seq(|keys|, i requires 0 <= i < |keys| =>
      assert keys[i] in keys && Look(m, keys[i], now).Some?; EntryOf(keys[i], m[keys[i]], now))
  }

  /** The snapshot of a store: every live key once, in order. */
  ghost function SnapshotOf(m: Store, now: Time): seq<SnapshotEntry> {
    var keys := SortedList(LiveKeys(m, now));
    assert forall k :: k in keys <==> k in Elements(keys);
    Render(m, keys, now)
  }

  lemma RenderAppend(m: Store, a: seq<Key>, b: seq<Key>, now: Time)
    requires AllLive(m, a, now) && AllLive(m, b, now)
    ensures AllLive(m, a + b, now)
    ensures Render(m, a + b, now) == Render(m, a, now) + Render(m, b, now)
  {
  }

  lemma RenderSame(m: Store, r: Store, keys: seq<Key>, now: Time)
    requires AllLive(m, keys, now)
    requires forall k :: k in keys ==> Look(m, k, now) == Look(r, k, now)
    ensures AllLive(r, keys, now) && Render(m, keys, now) == Render(r, keys, now)
  {
    forall i | 0 <= i < |keys| ensures Render(m, keys, now)[i] == Render(r, keys, now)[i] {
      assert keys[i] in keys && Look(m, keys[i], now) == Look(r, keys[i], now);
    }
  }

  // ---------------------------------------------------------- sort by key

  function InsertEntry(x: SnapshotEntry, s: seq<SnapshotEntry>): seq<SnapshotEntry> {
    if |s| == 0 || LexLess(x.key, s[0].key) then [x] + s else [s[0]] + InsertEntry(x, s[1..])
  }

  function SortEntries(s: seq<SnapshotEntry>): seq<SnapshotEntry> {
    if |s| == 0 then [] else InsertEntry(s[0], SortEntries(s[1..]))
  }

  lemma AllLiveSplit(m: Store, key: Key, keys: seq<Key>, now: Time)
    ensures AllLive(m, [key] + keys, now) <==> Look(m, key, now).Some? && AllLive(m, keys, now)
  {
    assert forall k :: k in [key] + keys <==> k == key || k in keys;
  }

  lemma RenderCons(m: Store, key: Key, keys: seq<Key>, now: Time)
    requires AllLive(m, [key] + keys, now) && AllLive(m, keys, now) && Look(m, key, now).Some?
    ensures Render(m, [key] + keys, now) == [EntryOf(key, m[key], now)] + Render(m, keys, now)
  {
    hide EntryOf;
  }

  lemma {:induction false} InsertRendered(m: Store, key: Key, keys: seq<Key>, now: Time)
    requires AllLive(m, [key] + keys, now)
    ensures AllLive(m, Insert(key, keys), now)
    ensures Look(m, key, now).Some?
    ensures AllLive(m, keys, now)
    ensures InsertEntry(EntryOf(key, m[key], now), Render(m, keys, now)) == Render(m, Insert(key, keys), now)
  {
    AllLiveSplit(m, key, keys, now);
    hide AllLive, Render, Expired;
    if |keys| == 0 || LexLess(key, keys[0]) {
      RenderCons(m, key, keys, now);
      RenderHead(m, keys, now);
    } else {
      var head, rest := keys[0], keys[1..];
      assert keys == [head] + rest;
      AllLiveSplit(m, head, rest, now);
      AllLiveSplit(m, key, rest, now);
      InsertRendered(m, key, rest, now);
      AllLiveSplit(m, head, Insert(key, rest), now);
      RenderCons(m, head, rest, now);
      RenderCons(m, head, Insert(key, rest), now);
    }
  }

  /** An entry carries its key. */
  lemma RenderHead(m: Store, keys: seq<Key>, now: Time)
    requires AllLive(m, keys, now)
    ensures |Render(m, keys, now)| == |keys|
    ensures |keys| > 0 ==> Render(m, keys, now)[0].key == keys[0]
  {
  }

  lemma {:induction false} SortRendered(m: Store, keys: seq<Key>, now: Time)
    requires AllLive(m, keys, now)
    ensures AllLive(m, Sort(keys), now)
    ensures SortEntries(Render(m, keys, now)) == Render(m, Sort(keys), now)
  {
    if |keys| == 0 {
    } else {
      var rest := keys[1..];
      SortRendered(m, rest, now);
      assert Render(m, keys, now)[1..] == Render(m, rest, now);
      InsertRendered(m, keys[0], Sort(rest), now);
    }
  }

  /** Sorting the entries of all live keys, listed in any order, gives the snapshot. */
  lemma RenderSorts(m: Store, keys: seq<Key>, now: Time)
    requires Distinct(keys) && forall k :: k in keys <==> Look(m, k, now).Some?
    ensures SortEntries(Render(m, keys, now)) == SnapshotOf(m, now)
  {
    SortRendered(m, keys, now);
    SortSorted(keys);
    SortedListUnique(Sort(keys), SortedList(LiveKeys(m, now)));
  }

  // --------------------------------------------------- what is in a snapshot

  /** The entry of a stored value: no stamp without a deadline, else one less than two milliseconds below it. */
  predicate EntryFor(x: SnapshotEntry, e: Entry) {
    && x.value == e.value
    && (x.expireAtMs.Some? <==> e.expireAt.Some?)
    && (e.expireAt.Some? && e.expireAt.value / 1_000_000 <= 0xFFFF_FFFF_FFFF_FFFF ==>
          x.expireAtMs.value * 1_000_000 <= e.expireAt.value < (x.expireAtMs.value + 2) * 1_000_000)
  }

  /** Every live key once, in ascending order, each with its entry, and nothing else. */
  ghost predicate Exported(entries: seq<SnapshotEntry>, m: Store, now: Time) {
    && (forall i, j :: 0 <= i < j < |entries| ==> Precedes(entries[i].key, entries[j].key))
    && (forall i :: 0 <= i < |entries| ==>
          Look(m, entries[i].key, now).Some? && EntryFor(entries[i], Look(m, entries[i].key, now).value))
    && (forall k :: Look(m, k, now).Some? ==> exists i :: 0 <= i < |entries| && entries[i].key == k)
    && |entries| == |set k | k in m && Look(m, k, now).Some?|
  }

  lemma EntryExactly(key: Key, e: Entry, now: Time)
    requires !Expired(e, now)
    ensures EntryOf(key, e, now).key == key && EntryFor(EntryOf(key, e, now), e)
  {
    if e.expireAt.Some? && e.expireAt.value / 1_000_000 <= 0xFFFF_FFFF_FFFF_FFFF {
      SnapshotStampBounds(e.expireAt.value, now);
    }
    hide SnapshotStamp;
  }

  lemma SnapshotExactly(m: Store, now: Time)
    ensures Exported(SnapshotOf(m, now), m, now)
  {
    var keys, entries := SortedList(LiveKeys(m, now)), SnapshotOf(m, now);
    SortedAscends(keys);
    hide SortedList, StrictlySorted, Precedes, EntryFor, EntryOf;
    assert forall k :: k in keys <==> k in Elements(keys);
    assert entries == Render(m, keys, now);
    forall i | 0 <= i < |entries|
      ensures entries[i].key == keys[i] && Look(m, keys[i], now).Some? && EntryFor(entries[i], Look(m, keys[i], now).value)
    {
      EntryExactly(keys[i], m[keys[i]], now);
    }
    forall k | Look(m, k, now).Some? ensures exists i :: 0 <= i < |entries| && entries[i].key == k {
      assert k in keys;
      var i :| 0 <= i < |keys| && keys[i] == k;
      assert entries[i].key == k;
    }
    AscendingSize(keys);
    assert Elements(keys) == set k | k in m && Look(m, k, now).Some?;
  }
}
