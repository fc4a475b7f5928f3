/**
 * Whole sequential runs: commands at their times with purges anywhere between
 * them, on shards, on a single map and on the reference store.
 */
module Runs {
  import opened Clock
  import opened Commands
  import opened Reference
  import opened Databases
  import opened Shards
  import opened Ledger

  /** `Tick` is a purge of everything expired: the TTL worker, or a snapshot. */
  datatype Event =
    | Do(command: Command, at: Time)
    | Tick(at: Time)

  /** The clock does not run backwards. */
  predicate Ordered(events: seq<Event>, from: Time) {
    |events| == 0 || (from <= events[0].at && Ordered(events[1..], events[0].at))
  }

  /** INFO answers are not compared; INFO is a purge as far as the others can tell. */
  predicate Answers(e: Event) {
    e.Do? && !e.command.Info?
  }

  ghost function ShardedReplies(hash: Hash, sh: ShardMaps, events: seq<Event>): seq<Reply>
    requires |sh| > 0
    decreases |events|
  {
    if |events| == 0 then []
    else
      var e := events[0];
      if e.Tick? then ShardedReplies(hash, PurgeAll(sh, e.at), events[1..])
      else
        (if Answers(e) then [ReplyTo(Flat(hash, sh), e.command, e.at)] else [])
        + ShardedReplies(hash, ShardedNext(hash, sh, e.command, e.at), events[1..])
  }

  ghost function DatabaseReplies(m: Store, events: seq<Event>): seq<Reply>
    decreases |events|
  {
    if |events| == 0 then []
    else
      var e := events[0];
      if e.Tick? then DatabaseReplies(Purge(m, e.at), events[1..])
      else
        (if Answers(e) then [ReplyTo(m, e.command, e.at)] else [])
        + DatabaseReplies(DbNext(m, e.command, e.at), events[1..])
  }

  /** The reference run: it knows no purges. */
  ghost function ReferenceReplies(r: Store, events: seq<Event>): seq<Reply>
    decreases |events|
  {
    if |events| == 0 then []
    else
      var e := events[0];
      if !Answers(e) then ReferenceReplies(r, events[1..])
      else [ReplyTo(r, e.command, e.at)] + ReferenceReplies(Next(r, e.command, e.at), events[1..])
  }

  lemma {:induction false} ShardedRunRefines(hash: Hash, sh: ShardMaps, r: Store, events: seq<Event>, now: Time)
    requires Routed(hash, sh) && Represents(hash, sh, r, now) && Ordered(events, now)
    ensures ShardedReplies(hash, sh, events) == ReferenceReplies(r, events)
    decreases |events|
  {
    hide ShardedNext, Next, Flat, ReplyTo, PurgeAll, Look, LookIn;
    if |events| == 0 {
    } else {
      var e := events[0];
      RepresentsLater(hash, sh, r, now, e.at);
      if e.Tick? {
        PurgeAllRefines(hash, sh, r, e.at);
        ShardedRunRefines(hash, PurgeAll(sh, e.at), r, events[1..], e.at);
      } else {
        RepresentedReply(hash, sh, r, e.command, e.at);
        ShardedRefines(hash, sh, r, e.command, e.at);
        if e.command.Info? {
          InfoNext(r, e.at);
        }
        ShardedRunRefines(hash, ShardedNext(hash, sh, e.command, e.at), Next(r, e.command, e.at), events[1..], e.at);
      }
    }
  }

  lemma InfoNext(r: Store, now: Time)
    ensures Next(r, Info, now) == r && DbNext(r, Info, now) == Purge(r, now)
  {
  }

  /** Shards answer as the reference store they represent. */
  lemma RepresentedReply(hash: Hash, sh: ShardMaps, r: Store, c: Command, now: Time)
    requires Routed(hash, sh) && Represents(hash, sh, r, now)
    ensures ReplyTo(Flat(hash, sh), c, now) == ReplyTo(r, c, now)
  {
    hide Flat, ReplyTo;
    FlatRepresents(hash, sh, now);
    forall k ensures Look(Flat(hash, sh), k, now) == Look(r, k, now) {
      assert LookIn(hash, sh, k, now) == Look(r, k, now);
      assert LookIn(hash, sh, k, now) == Look(Flat(hash, sh), k, now);
    }
    SameReply(Flat(hash, sh), r, c, now);
  }

  lemma {:induction false} DatabaseRunRefines(m: Store, r: Store, events: seq<Event>, now: Time)
    requires SameAt(m, r, now) && Ordered(events, now)
    ensures DatabaseReplies(m, events) == ReferenceReplies(r, events)
    decreases |events|
  {
    hide DbNext, Next, ReplyTo, Purge, Look;
    if |events| == 0 {
    } else {
      var e := events[0];
      SameLater(m, r, now, e.at);
      if e.Tick? {
        DeletionInvisible(m, [], e.at, e.at);
        DatabaseRunRefines(Purge(m, e.at), r, events[1..], e.at);
      } else {
        SameReply(m, r, e.command, e.at);
        DbRefines(m, r, e.command, e.at);
        if e.command.Info? {
          InfoNext(r, e.at);
        }
        DatabaseRunRefines(DbNext(m, e.command, e.at), Next(r, e.command, e.at), events[1..], e.at);
      }
    }
  }

  /** From empty, any sharding and a single map give the same replies to every run. */
  lemma ShardingInvisible(hash: Hash, count: nat, events: seq<Event>)
    requires count > 0 && Ordered(events, 0)
    ensures ShardedReplies(hash, EmptyShards(count), events) == DatabaseReplies(map[], events)
  {
    FlushRepresents(hash, count, 0);
    ShardedRunRefines(hash, EmptyShards(count), map[], events, 0);
    DatabaseRunRefines(map[], map[], events, 0);
  }

  /** The commands of a run without its purges and INFOs. */
  function WithoutPurges(events: seq<Event>): seq<Event> {
    if |events| == 0 then []
    else if Answers(events[0]) then [events[0]] + WithoutPurges(events[1..])
    else WithoutPurges(events[1..])
  }

  lemma {:induction false} ReferenceIgnoresPurges(r: Store, events: seq<Event>)
    ensures ReferenceReplies(r, events) == ReferenceReplies(r, WithoutPurges(events))
    decreases |events|
  {
    hide Next, ReplyTo;
    if |events| == 0 {
    } else {
      var e := events[0];
      if Answers(e) {
        ReferenceIgnoresPurges(Next(r, e.command, e.at), events[1..]);
        assert WithoutPurges(events)[1..] == WithoutPurges(events[1..]);
      } else {
        ReferenceIgnoresPurges(r, events[1..]);
      }
    }
  }

  /** Expiry is invisible: purges, snapshots and INFOs put anywhere in a run, on shards of any number, change no reply. */
  lemma PurgesInvisible(hash: Hash, sh: ShardMaps, a: seq<Event>, b: seq<Event>, now: Time)
    requires Routed(hash, sh) && Ordered(a, now) && Ordered(b, now)
    requires WithoutPurges(a) == WithoutPurges(b)
    ensures ShardedReplies(hash, sh, a) == ShardedReplies(hash, sh, b)
  {
    var r := Flat(hash, sh);
    FlatRepresents(hash, sh, now);
    ShardedRunRefines(hash, sh, r, a, now);
    ShardedRunRefines(hash, sh, r, b, now);
    ReferenceIgnoresPurges(r, a);
    ReferenceIgnoresPurges(r, b);
  }

  // ----------------------------------------------------------------- books

  function ShardsAfter(hash: Hash, sh: ShardMaps, e: Event): (r: ShardMaps)
    requires |sh| > 0
    ensures |r| == |sh|
  {
    if e.Tick? then PurgeAll(sh, e.at) else ShardedNext(hash, sh, e.command, e.at)
  }

  function EventLedger(hash: Hash, sh: ShardMaps, e: Event): Ledger
    requires |sh| > 0
  {
    if e.Tick? then PurgeLedger(sh, e.at) else CommandLedger(hash, sh, e.command, e.at)
  }

  function RunShards(hash: Hash, sh: ShardMaps, events: seq<Event>): (r: ShardMaps)
    requires |sh| > 0
    ensures |r| == |sh|
    decreases |events|
  {
    if |events| == 0 then sh else RunShards(hash, ShardsAfter(hash, sh, events[0]), events[1..])
  }

  function RunLedger(hash: Hash, sh: ShardMaps, events: seq<Event>): Ledger
    requires |sh| > 0
    decreases |events|
  {
    if |events| == 0 then NOTHING
    else EventLedger(hash, sh, events[0]).Plus(RunLedger(hash, ShardsAfter(hash, sh, events[0]), events[1..]))
  }

  /** Over any run the books balance: entries at the end, plus all that expired, was deleted,
      displaced or flushed, are the entries at the start plus all that were stored. */
  lemma {:induction false} RunConserves(hash: Hash, sh: ShardMaps, events: seq<Event>)
    requires Routed(hash, sh)
    ensures Routed(hash, RunShards(hash, sh, events))
    ensures Total(RunShards(hash, sh, events)) + RunLedger(hash, sh, events).Left()
         == Total(sh) + RunLedger(hash, sh, events).inserted
    decreases |events|
  {
    hide CommandLedger, PurgeLedger, ShardedNext, PurgeAll, Total;
    if |events| == 0 {
    } else {
      EventConserves(hash, sh, events[0]);
      RunConserves(hash, ShardsAfter(hash, sh, events[0]), events[1..]);
    }
  }

  lemma EventConserves(hash: Hash, sh: ShardMaps, e: Event)
    requires Routed(hash, sh)
    ensures Routed(hash, ShardsAfter(hash, sh, e))
    ensures Total(ShardsAfter(hash, sh, e)) + EventLedger(hash, sh, e).Left()
         == Total(sh) + EventLedger(hash, sh, e).inserted
  {
    hide CommandLedger, Total, ShardedNext;
    var r := Flat(hash, sh);
    FlatRepresents(hash, sh, e.at);
    if e.Tick? {
      PurgeAllRefines(hash, sh, r, e.at);
    } else {
      ShardedRefines(hash, sh, r, e.command, e.at);
      CommandConserves(hash, sh, e.command, e.at);
    }
  }
}
