/** What a client sees over a whole run on the shards, whatever the other clients and the purges do in between. */
module RunLaws {
  import opened Bytes
  import opened Resp
  import opened Clock
  import opened Commands
  import opened Reference
  import opened Shards
  import opened Runs
  import Laws

  function LastTime(events: seq<Event>, from: Time): Time {
    if |events| == 0 then from else events[|events| - 1].at
  }

  /** What an event is answered. */
  ghost function Given(hash: Hash, sh: ShardMaps, e: Event): seq<Reply>
    requires |sh| > 0
  {
    if Answers(e) then [ReplyTo(Flat(hash, sh), e.command, e.at)] else []
  }

  lemma FirstReply(hash: Hash, sh: ShardMaps, events: seq<Event>)
    requires |sh| > 0 && |events| > 0
    ensures ShardedReplies(hash, sh, events)
         == Given(hash, sh, events[0]) + ShardedReplies(hash, ShardsAfter(hash, sh, events[0]), events[1..])
  {
    hide ReplyTo, Flat, ShardedNext, PurgeAll;
  }

  lemma NoReplies(hash: Hash, sh: ShardMaps)
    requires |sh| > 0
    ensures ShardedReplies(hash, sh, []) == []
  {
  }

  /** One more command adds its reply, given on the shards the run has left, and nothing else. */
  lemma {:induction false} RunReply(hash: Hash, sh: ShardMaps, events: seq<Event>, c: Command, at: Time)
    requires |sh| > 0 && !c.Info?
    ensures ShardedReplies(hash, sh, events + [Do(c, at)])
         == ShardedReplies(hash, sh, events) + [ReplyTo(Flat(hash, RunShards(hash, sh, events)), c, at)]
    decreases |events|
  {
    hide ReplyTo, Flat, ShardedReplies, ShardsAfter;
    FirstReply(hash, sh, events + [Do(c, at)]);
    if |events| == 0 {
      NoReplies(hash, sh);
      assert events + [Do(c, at)] == [Do(c, at)] && [Do(c, at)][1..] == [];
      NoReplies(hash, ShardsAfter(hash, sh, Do(c, at)));
    } else {
      hide Given;
      FirstReply(hash, sh, events);
      RunReply(hash, ShardsAfter(hash, sh, events[0]), events[1..], c, at);
      assert (events + [Do(c, at)])[0] == events[0] && (events + [Do(c, at)])[1..] == events[1..] + [Do(c, at)];
    }
  }

  ghost predicate LeavesAlone(events: seq<Event>, key: Key) {
    forall i :: 0 <= i < |events| && events[i].Do? ==> !Laws.Touches(events[i].command, key)
  }

  /** Purges, and commands on other keys, leave a key as it is. */
  lemma {:induction false} RunKeeps(hash: Hash, sh: ShardMaps, events: seq<Event>, key: Key, from: Time, later: Time)
    requires Routed(hash, sh) && Ordered(events, from) && LastTime(events, from) <= later && LeavesAlone(events, key)
    ensures LookIn(hash, RunShards(hash, sh, events), key, later) == LookIn(hash, sh, key, later)
    decreases |events|
  {
    if |events| == 0 {
    } else {
      OrderedEnds(events[1..], events[0].at);
      StepKeeps(hash, sh, events[0], key, later);
      RunKeeps(hash, ShardsAfter(hash, sh, events[0]), events[1..], key, events[0].at, later);
    }
  }

  lemma {:induction false} OrderedEnds(events: seq<Event>, from: Time)
    requires Ordered(events, from)
    ensures from <= LastTime(events, from)
  {
    if |events| == 0 {
    } else {
      OrderedEnds(events[1..], events[0].at);
    }
  }

  lemma StepKeeps(hash: Hash, sh: ShardMaps, e: Event, key: Key, later: Time)
    requires Routed(hash, sh) && e.at <= later && (e.Do? ==> !Laws.Touches(e.command, key))
    ensures Routed(hash, ShardsAfter(hash, sh, e))
    ensures LookIn(hash, ShardsAfter(hash, sh, e), key, later) == LookIn(hash, sh, key, later)
  {
    hide Next, Look, LookIn, Flat, ShardedNext, PurgeAll;
    var r := Flat(hash, sh);
    FlatRepresents(hash, sh, e.at);
    RepresentsLater(hash, sh, r, e.at, later);
    if e.Tick? {
      PurgeAllRefines(hash, sh, r, e.at);
      RepresentsLater(hash, ShardsAfter(hash, sh, e), r, e.at, later);
    } else {
      ShardedRefines(hash, sh, r, e.command, e.at);
      RepresentsLater(hash, ShardsAfter(hash, sh, e), Next(r, e.command, e.at), e.at, later);
      Laws.OtherEffects(r, e.command, key, e.at, later);
    }
  }

  /** Whatever a run did before, and whatever it does to other keys after: the value a SET puts at a key is what
      a GET answers until the deadline, and Null from then on. */
  lemma SetSeenInRun(hash: Hash, sh: ShardMaps, before: seq<Event>, key: Key, value: Bytes, expire: Option<nat>,
                     now: Time, between: seq<Event>, later: Time, from: Time)
    requires Routed(hash, sh) && Ordered(before, from) && LastTime(before, from) <= now
    requires Ordered(between, now) && LastTime(between, now) <= later && LeavesAlone(between, key)
    ensures var run := before + [Do(Set(key, value, expire), now)] + between;
            ShardedReplies(hash, sh, run + [Do(Get(key), later)])
            == ShardedReplies(hash, sh, run)
               + [Answer(if expire.None? || later < now + expire.value * 1_000_000 then BulkString(value) else Null)]
  {
    hide Look, LookIn, Next, ShardedNext, Flat, ReplyTo, LeavesAlone, RunShards, RunLedger, Total, ShardedReplies, Ordered;
    var c := Set(key, value, expire);
    var run := before + [Do(c, now)] + between;
    RunReply(hash, sh, run, Get(key), later);
    var a := RunShards(hash, sh, before);
    RunConserves(hash, sh, before);
    RunTwice(hash, sh, before + [Do(c, now)], between);
    RunTwice(hash, sh, before, [Do(c, now)]);
    OneEvent(hash, a, Do(c, now));
    var b := ShardedNext(hash, a, c, now);
    OrderedEnds(between, now);
    SetOnShards(hash, a, c, now, later);
    RunKeeps(hash, b, between, key, now, later);
    var z := RunShards(hash, b, between);
    FlatRepresents(hash, z, later);
    assert LookIn(hash, z, key, later) == Look(Flat(hash, z), key, later);
    Laws.ReplyAnswers(Flat(hash, z), Get(key), later);
  }

  lemma SetOnShards(hash: Hash, a: ShardMaps, c: Command, now: Time, later: Time)
    requires Routed(hash, a) && c.Set? && now <= later
    ensures var b := ShardedNext(hash, a, c, now);
            && Routed(hash, b)
            && LookIn(hash, b, c.key, later)
               == Laws.While(c.value, if c.expire.Some? then Some(now + c.expire.value * 1_000_000) else None, later)
  {
    hide Look, LookIn, Next, ShardedNext, Flat;
    var r := Flat(hash, a);
    FlatRepresents(hash, a, now);
    ShardedRefines(hash, a, r, c, now);
    RepresentsLater(hash, ShardedNext(hash, a, c, now), Next(r, c, now), now, later);
    Laws.RelativeEffects(r, c.key, c.value, if c.expire.Some? then c.expire.value else 0, 0, now, later);
  }

  lemma {:induction false} RunTwice(hash: Hash, sh: ShardMaps, a: seq<Event>, b: seq<Event>)
    requires |sh| > 0
    ensures RunShards(hash, sh, a + b) == RunShards(hash, RunShards(hash, sh, a), b)
    decreases |a|
  {
    hide ShardsAfter;
    if |a| == 0 {
      assert a + b == b;
    } else {
      RunTwice(hash, ShardsAfter(hash, sh, a[0]), a[1..], b);
      assert (a + b)[1..] == a[1..] + b;
    }
  }

  lemma OneEvent(hash: Hash, sh: ShardMaps, e: Event)
    requires |sh| > 0
    ensures RunShards(hash, sh, [e]) == ShardsAfter(hash, sh, e)
  {
    assert [e][1..] == [];
  }
}
