/**
 * The append-only file: appending, rewriting by a temporary file and two
 * renames, and replay at startup, over a file system in which any call may
 * fail without effect.
 */
module Aof {
  import opened Bytes
  import opened Clock
  import opened Parser
  import opened Commands
  import opened Reference
  import opened Shards
  import opened Sharded
  import opened Snapshots
  import opened LogCodec
  import opened LogText
  import opened Replay

  // ------------------------------------------------------------ file system

  /** The log at its path, the rewrite's temporary file, the backup of the old log. */
  datatype File = Main | Temp | Backup

  type Files = map<File, Bytes>

  datatype Call =
    | Remove(file: File)
    | Rename(from: File, to: File)
    | Create(file: File)
    | Write(file: File)
    | Sync(file: File)
    | Open(file: File)
    | Read(file: File)

  datatype Outcome = Done | NotFound | Failed

  /** `faults` says which calls fail, counting from the first; a failing call changes nothing. */
  class FileSystem {
    const faults: nat -> bool
    var calls: nat
    var files: Files
    ghost var failed: seq<Call>
    ghost var trace: seq<Files>

    constructor (faults: nat -> bool)
      ensures this.faults == faults && files == map[] && failed == [] && trace == [] && calls == 0
    {
      this.faults := faults;
      calls, files := 0, map[];
      failed, trace := [], [];
    }

    /** Every call fails if its number says so, adds itself to `failed` or not, and the files it left to `trace`. */
    twostate predicate Recorded(call: Call, outcome: Outcome)
      reads this
    {
      && failed == old(failed) + (if outcome == Failed then [call] else [])
      && trace == old(trace) + [files]
      && calls == old(calls) + 1 && (outcome == Failed <==> faults(old(calls)))
      && (outcome != Done ==> files == old(files))
    }

    method Step(ghost call: Call) returns (fails: bool)
      modifies this`calls, this`failed
      ensures failed == old(failed) + if fails then [call] else []
      ensures calls == old(calls) + 1 && fails == faults(old(calls))
    {
      fails := faults(calls);
      calls := calls + 1;
      failed := failed + if fails then [call] else [];
    }

    method RemoveFile(f: File) returns (outcome: Outcome)
      modifies this
      ensures Recorded(Remove(f), outcome)
      ensures outcome == NotFound ==> f !in old(files)
      ensures outcome == Done ==> f in old(files) && files == old(files) - {f}
    {
      var fails := Step(Remove(f));
      outcome := if fails then Failed else if f in files then Done else NotFound;
      if outcome == Done {
        files := files - {f};
      }
      trace := trace + [files];
    }

    method RenameFile(from: File, to: File) returns (outcome: Outcome)
      requires from != to
      modifies this
      ensures Recorded(Rename(from, to), outcome)
      ensures outcome == NotFound ==> from !in old(files)
      ensures outcome == Done ==> from in old(files) && files == (old(files) - {from})[to := old(files)[from]]
    {
      var fails := Step(Rename(from, to));
      outcome := if fails then Failed else if from in files then Done else NotFound;
      if outcome == Done {
        files := (files - {from})[to := files[from]];
      }
      trace := trace + [files];
    }

    /** Open for writing from scratch. */
    method CreateFile(f: File) returns (outcome: Outcome)
      modifies this
      ensures Recorded(Create(f), outcome) && outcome != NotFound
      ensures outcome == Done ==> files == old(files)[f := []]
    {
      var fails := Step(Create(f));
      outcome := if fails then Failed else Done;
      if outcome == Done {
        files := files[f := []];
      }
      trace := trace + [files];
    }

    /** Open for appending, creating an empty file when there is none. */
    method OpenAppend(f: File) returns (outcome: Outcome)
      modifies this
      ensures Recorded(Open(f), outcome) && outcome != NotFound
      ensures outcome == Done ==> files == if f in old(files) then old(files) else old(files)[f := []]
    {
      var fails := Step(Open(f));
      outcome := if fails then Failed else Done;
      if outcome == Done && f !in files {
        files := files[f := []];
      }
      trace := trace + [files];
    }

    /** All the bytes at the end of the file, or none. */
    method WriteAll(f: File, bytes: Bytes) returns (outcome: Outcome)
      requires f in files
      modifies this
      ensures Recorded(Write(f), outcome) && outcome != NotFound
      ensures outcome == Done ==> files == old(files)[f := old(files)[f] + bytes]
    {
      var fails := Step(Write(f));
      outcome := if fails then Failed else Done;
      if outcome == Done {
        files := files[f := files[f] + bytes];
      }
      trace := trace + [files];
    }

    method ReadFile(f: File) returns (outcome: Outcome, bytes: Bytes)
      modifies this
      ensures Recorded(Read(f), outcome)
      ensures files == old(files)
      ensures outcome == NotFound ==> f !in files
      ensures outcome == Done ==> f in files && bytes == files[f]
    {
      var fails := Step(Read(f));
      outcome := if fails then Failed else if f in files then Done else NotFound;
      bytes := if outcome == Done then files[f] else [];
      trace := trace + [files];
    }

    /** Flush and sync: nothing to see in the model but the failure. */
    method SyncFile(f: File) returns (outcome: Outcome)
      modifies this
      ensures Recorded(Sync(f), outcome) && outcome != NotFound
      ensures files == old(files)
    {
      var fails := Step(Sync(f));
      outcome := if fails then Failed else Done;
      trace := trace + [files];
    }
  }

  // ------------------------------------------------------------ what is safe

  /** `f` holds the complete old log or the complete new one. */
  predicate Holds(files: Files, f: File, was: Bytes, next: Bytes) {
    f in files && (files[f] == was || files[f] == next)
  }

  /** The log path or the backup holds a complete log. */
  predicate Safe(files: Files, was: Bytes, next: Bytes) {
    Holds(files, Main, was, next) || Holds(files, Backup, was, next)
  }

  ghost predicate AllSafe(trace: seq<Files>, from: nat, was: Bytes, next: Bytes) {
    forall i :: from <= i < |trace| ==> Safe(trace[i], was, next)
  }

  lemma OneMoreSafe(trace: seq<Files>, from: nat, files: Files, was: Bytes, next: Bytes)
    requires AllSafe(trace, from, was, next) && Safe(files, was, next)
    ensures AllSafe(trace + [files], from, was, next)
  {
  }

  function Content(files: Files, f: File): Option<Bytes> {
    if f in files then Some(files[f]) else None
  }

  /** Every step since `from` left the log path as it was. */
  ghost predicate AllKept(trace: seq<Files>, from: nat, was: Option<Bytes>) {
    forall i :: from <= i < |trace| ==> Content(trace[i], Main) == was
  }

  lemma OneMoreKept(trace: seq<Files>, from: nat, files: Files, was: Option<Bytes>)
    requires AllKept(trace, from, was) && Content(files, Main) == was
    ensures AllKept(trace + [files], from, was)
  {
  }

  lemma KeptIsSafe(trace: seq<Files>, from: nat, was: Bytes, next: Bytes)
    requires AllKept(trace, from, Some(was))
    ensures AllSafe(trace, from, was, next)
  {
  }

  /** Both the swap and its rollback failed. */
  ghost predicate SwapLost(failures: seq<Call>) {
    Rename(Temp, Main) in failures && Rename(Backup, Main) in failures
  }

  /** None of these calls fails. */
  ghost predicate NoFault(faults: nat -> bool, from: nat, until: nat) {
    forall i :: from <= i < until ==> !faults(i)
  }

  lemma NoFaultStep(faults: nat -> bool, from: nat, until: nat)
    requires from <= until
    ensures NoFault(faults, from, until + 1) <==> NoFault(faults, from, until) && !faults(until)
    ensures NoFault(faults, until, until)
  {
  }

  lemma NoFaultJoin(faults: nat -> bool, from: nat, mid: nat, until: nat)
    requires from <= mid <= until
    ensures NoFault(faults, from, until) <==> NoFault(faults, from, mid) && NoFault(faults, mid, until)
  {
  }

  function Appended(files: Files, bytes: Bytes): Files
    requires Main in files
  {
    files[Main := files[Main] + bytes]
  }

  // ----------------------------------------------------------------- engine

  class AofEngine {
    const fs: FileSystem
    var open: bool

    /** While the file is open there is one at the path. */
    ghost predicate Valid()
      reads this, fs
    {
      open ==> Main in fs.files
    }

    constructor (fs: FileSystem)
      modifies fs
      ensures this.fs == fs && Valid()
      ensures Main in old(fs.files) ==> fs.files == old(fs.files)
      ensures open <==> !fs.faults(old(fs.calls))
      ensures open ==> fs.files == if Main in old(fs.files) then old(fs.files) else old(fs.files)[Main := []]
      ensures fs.calls == old(fs.calls) + 1
    {
      this.fs := fs;
      open := false;
      new;
      var first := fs.OpenAppend(Main);
      open := first == Done;
    }

    /** Adds the record of a write command, whole or not at all; other commands are not logged. */
    method Append(c: Command, now: Time) returns (ok: bool)
      requires Valid()
      modifies fs
      ensures Valid() && open == old(open)
      ensures !IsWrite(c) ==> ok && fs.files == old(fs.files)
      ensures IsWrite(c) ==> CommandBytes(c, now).Some?
      ensures IsWrite(c) && ok ==> Main in old(fs.files)
      ensures IsWrite(c) && ok ==> fs.files == Appended(old(fs.files), CommandBytes(c, now).value)
      ensures IsWrite(c) && !open ==> !ok
      ensures IsWrite(c) && open ==> (ok <==> !fs.faults(old(fs.calls))) && fs.calls == old(fs.calls) + 1
      ensures !ok ==> fs.files == old(fs.files)
    {
      LoggedExactlyWrites(c, now);
      var bytes := CommandBytes(c, now);
      if bytes.None? {
        return true;
      }
      if !open {
        return false;
      }
      var written := fs.WriteAll(Main, bytes.value);
      ok := written == Done;
    }

    /** The new log in the temporary file. */
    method WriteRewriteFile(entries: seq<SnapshotEntry>, ghost was: Option<Bytes>, ghost from: nat)
      returns (ok: bool, ghost failures: seq<Call>)
      requires Content(fs.files, Main) == was && AllKept(fs.trace, from, was)
      requires AbsoluteRecords(SnapshotLog(entries))
      modifies fs
      ensures Content(fs.files, Main) == was && AllKept(fs.trace, from, was)
      ensures old(fs.trace) <= fs.trace
      ensures ok ==> Temp in fs.files && fs.files[Temp] == LogBytes(SnapshotLog(entries))
      ensures fs.failed == old(fs.failed) + failures && (ok <==> failures == [])
      ensures Rename(Temp, Main) !in failures
      ensures ok <==> NoFault(fs.faults, old(fs.calls), old(fs.calls) + |entries| + 2)
      ensures ok ==> fs.calls == old(fs.calls) + |entries| + 2
    {
      hide AllKept, AbsoluteRecords, CommandBytes, RecordBytes, SnapshotCommand, LogBytes, NoFault;
      ghost var start, end := fs.calls, fs.calls + |entries| + 2;
      NoFaultStep(fs.faults, start, start);
      failures := [];
      OneMoreKept(fs.trace, from, fs.files, was);
      OneMoreKept(fs.trace, from, fs.files[Temp := []], was);
      var created := fs.CreateFile(Temp);
      if created != Done {
        failures := [Create(Temp)];
        NoFaultJoin(fs.faults, start, start + 1, end);
        return false, failures;
      }
      EmptySnapshotLog(entries);
      for i := 0 to |entries|
        invariant Content(fs.files, Main) == was && AllKept(fs.trace, from, was)
        invariant old(fs.trace) <= fs.trace && old(fs.failed) == fs.failed
        invariant fs.calls == start + i + 1 && NoFault(fs.faults, start, fs.calls)
        invariant AbsoluteRecords(SnapshotLog(entries[..i]))
        invariant Temp in fs.files && fs.files[Temp] == LogBytes(SnapshotLog(entries[..i]))
      {
        SnapshotLogSnoc(entries, i);
        var bytes := CommandBytes(SnapshotCommand(entries[i]), 0);
        OneMoreKept(fs.trace, from, fs.files, was);
        OneMoreKept(fs.trace, from, fs.files[Temp := fs.files[Temp] + bytes.value], was);
        NoFaultStep(fs.faults, start, fs.calls);
        var written := fs.WriteAll(Temp, bytes.value);
        if written != Done {
          failures := [Write(Temp)];
          NoFaultJoin(fs.faults, start, fs.calls, end);
          return false, failures;
        }
      }
      assert entries[..|entries|] == entries;
      OneMoreKept(fs.trace, from, fs.files, was);
      NoFaultStep(fs.faults, start, fs.calls);
      var synced := fs.SyncFile(Temp);
      failures := if synced == Done then [] else [Sync(Temp)];
      ok := synced == Done;
    }

    /** The second rename, and the rollback when it fails. */
    method SwapOrRestore(ghost was: Bytes, ghost next: Bytes, ghost from: nat) returns (ok: bool, ghost failures: seq<Call>)
      requires Main !in fs.files && Backup in fs.files && fs.files[Backup] == was
      requires Temp in fs.files && fs.files[Temp] == next
      requires AllSafe(fs.trace, from, was, next)
      modifies fs
      ensures old(fs.trace) <= fs.trace && AllSafe(fs.trace, from, was, next)
      ensures fs.failed == old(fs.failed) + failures
      ensures ok ==> failures == [] && Main in fs.files && fs.files[Main] == next && Safe(fs.files, was, next)
      ensures !ok ==> Safe(fs.files, was, next) && failures != []
      ensures !ok ==> if SwapLost(failures) then Main !in fs.files && Backup in fs.files && fs.files[Backup] == was && |failures| >= 2
                      else Main in fs.files && fs.files[Main] == was
      ensures SwapLost(failures) <==> fs.faults(old(fs.calls)) && fs.faults(old(fs.calls) + 1)
      ensures SwapLost(failures) ==> fs.calls == old(fs.calls) + 2
    {
      hide AllSafe, SwapLost;
      SwapLostCases();
      failures := [];
      ghost var before := fs.trace;
      var swapped := fs.RenameFile(Temp, Main);
      OneMoreSafe(before, from, fs.files, was, next);
      if swapped != Done {
        failures := [Rename(Temp, Main)];
        before := fs.trace;
        var restored := fs.RenameFile(Backup, Main);
        OneMoreSafe(before, from, fs.files, was, next);
        if restored == Failed {
          failures := [Rename(Temp, Main), Rename(Backup, Main)];
        }
        return false, failures;
      }
      return true, failures;
    }

    /** `replace_aof_file`: backup, swap, rollback when the swap fails, clean up. The log is lost exactly when
        of its four calls up to the rollback the first two work and the last two fail. */
    method ReplaceFile(ghost was: Bytes, ghost next: Bytes, ghost from: nat) returns (ok: bool, ghost failures: seq<Call>)
      requires Main in fs.files && fs.files[Main] == was
      requires Temp in fs.files && fs.files[Temp] == next
      requires AllSafe(fs.trace, from, was, next)
      modifies fs
      ensures old(fs.trace) <= fs.trace && AllSafe(fs.trace, from, was, next)
      ensures fs.failed == old(fs.failed) + failures
      ensures Safe(fs.files, was, next)
      ensures Main in fs.files <==> !SwapLost(failures)
      ensures Main in fs.files ==> Holds(fs.files, Main, was, next)
      ensures ok ==> Main in fs.files && fs.files[Main] == next
      ensures ok <==> failures == []
      ensures SwapLost(failures) ==> |failures| >= 2 && Backup in fs.files && fs.files[Backup] == was
      ensures SwapLost(failures) ==> fs.calls == old(fs.calls) + 4
      ensures SwapLost(failures) <==>
                && !fs.faults(old(fs.calls)) && !fs.faults(old(fs.calls) + 1)
                && fs.faults(old(fs.calls) + 2) && fs.faults(old(fs.calls) + 3)
    {
      hide AllSafe, SwapLost;
      SwapLostCases();
      failures := [];
      ghost var before := fs.trace;
      var removed := fs.RemoveFile(Backup);
      OneMoreSafe(before, from, fs.files, was, next);
      if removed == Failed {
        failures := [Remove(Backup)];
        return false, failures;
      }
      before := fs.trace;
      var backedUp := fs.RenameFile(Main, Backup);
      OneMoreSafe(before, from, fs.files, was, next);
      if backedUp == Failed {
        failures := [Rename(Main, Backup)];
        return false, failures;
      }
      var swapped;
      swapped, failures := SwapOrRestore(was, next, from);
      if !swapped {
        return false, failures;
      }
      before := fs.trace;
      var cleaned := fs.RemoveFile(Backup);
      OneMoreSafe(before, from, fs.files, was, next);
      if cleaned == Failed {
        failures := [Remove(Backup)];
        return false, failures;
      }
      ok := true;
    }

    /** Replaces the log by one that holds the snapshot. Whatever fails, the path or the backup holds a
        complete log at every step; on return the path does, exactly unless both the swap and its rollback failed;
        then it is missing or empty and the backup holds the old log. With the file closed nothing is replaced. */
    method Rewrite(entries: seq<SnapshotEntry>) returns (ok: bool, ghost failures: seq<Call>)
      requires Valid() && AbsoluteRecords(SnapshotLog(entries))
      modifies this, fs
      ensures Valid()
      ensures old(fs.trace) <= fs.trace
      ensures Main in old(fs.files)
          ==> AllSafe(fs.trace, |old(fs.trace)|, old(fs.files)[Main], LogBytes(SnapshotLog(entries)))
      ensures fs.failed == old(fs.failed) + failures
      ensures SwapLost(failures) ==> |failures| >= 2 && (Main in fs.files ==> fs.files[Main] == [])
      ensures SwapLost(failures) ==> Content(fs.files, Backup) == Content(old(fs.files), Main)
      ensures var swap := old(fs.calls) + |entries| + 6;
              SwapLost(failures) <==>
                old(open) && NoFault(fs.faults, old(fs.calls), swap) && fs.faults(swap) && fs.faults(swap + 1)
      ensures SwapLost(failures) ==> (open <==> !fs.faults(old(fs.calls) + |entries| + 8))
      ensures Main in old(fs.files) && !SwapLost(failures)
          ==> Holds(fs.files, Main, old(fs.files)[Main], LogBytes(SnapshotLog(entries)))
      ensures !old(open) ==> Content(fs.files, Main) == Content(old(fs.files), Main)
      ensures ok ==> Main in fs.files && fs.files[Main] == LogBytes(SnapshotLog(entries)) && open
      ensures ok <==> old(open) && failures == []
    {
      hide AllSafe, AllKept, AbsoluteRecords, LogBytes, SwapLost, NoFault;
      ghost var start, swap := fs.calls, fs.calls + |entries| + 6;
      NoFaultStep(fs.faults, start, start);
      NoFaultJoin(fs.faults, start, start + 1, swap);
      NoFaultJoin(fs.faults, start + 1, swap - 3, swap);
      LastThree(fs.faults, swap);
      ghost var was, from := Content(fs.files, Main), |fs.trace|;
      failures := [];
      ghost var before := fs.trace;
      NoneYetKept(before, was);
      var removed := fs.RemoveFile(Temp);
      OneMoreKept(before, from, fs.files, was);
      var written := false;
      if removed == Failed {
        failures := [Remove(Temp)];
      } else {
        written, failures := WriteRewriteFile(entries, was, from);
      }
      NotLost(failures);
      if was.Some? {
        KeptIsSafe(fs.trace, from, was.value, LogBytes(SnapshotLog(entries)));
      }
      if !written || !open {
        return false, failures;
      }
      ok, failures := FlushAndReplace(was.value, LogBytes(SnapshotLog(entries)), from);
    }

    /** The rest of a rewrite once the temporary file is complete. */
    method FlushAndReplace(ghost was: Bytes, ghost next: Bytes, ghost from: nat) returns (ok: bool, ghost failures: seq<Call>)
      requires open && Main in fs.files && fs.files[Main] == was
      requires Temp in fs.files && fs.files[Temp] == next
      requires AllSafe(fs.trace, from, was, next)
      modifies this, fs
      ensures Valid() && old(fs.trace) <= fs.trace && AllSafe(fs.trace, from, was, next)
      ensures fs.failed == old(fs.failed) + failures
      ensures SwapLost(failures) ==> |failures| >= 2 && (Main in fs.files ==> fs.files[Main] == [])
      ensures SwapLost(failures) ==> Backup in fs.files && fs.files[Backup] == was
      ensures SwapLost(failures) <==>
                && !fs.faults(old(fs.calls)) && !fs.faults(old(fs.calls) + 1) && !fs.faults(old(fs.calls) + 2)
                && fs.faults(old(fs.calls) + 3) && fs.faults(old(fs.calls) + 4)
      ensures SwapLost(failures) ==> (open <==> !fs.faults(old(fs.calls) + 5))
      ensures !SwapLost(failures) ==> Holds(fs.files, Main, was, next)
      ensures ok ==> Main in fs.files && fs.files[Main] == next && open
      ensures ok <==> failures == []
    {
      hide AllSafe, SwapLost;
      ghost var before := fs.trace;
      var flushed := fs.SyncFile(Main);
      OneMoreSafe(before, from, fs.files, was, next);
      if flushed != Done {
        failures := [Sync(Main)];
        NotLost(failures);
        return false, failures;
      }
      open := false;
      var replaced;
      replaced, failures := ReplaceFile(was, next, from);
      before := fs.trace;
      var reopened := fs.OpenAppend(Main);
      OneMoreSafe(before, from, fs.files, was, next);
      if reopened == Failed {
        LostSame(failures, Open(Main));
        failures := failures + [Open(Main)];
      }
      open := reopened == Done;
      ok := replaced && open;
    }
  }

  lemma LastThree(faults: nat -> bool, until: nat)
    requires until >= 3
    ensures NoFault(faults, until - 3, until) <==> !faults(until - 3) && !faults(until - 2) && !faults(until - 1)
  {
  }

  /** The case is real: a SET is logged, a rewrite follows, and its two renames of the tenth and eleventh call fail;
      the engine goes on with an empty log, and the SET is in the backup alone, which nothing reads. */
  method LostLog(key: Key, value: Bytes) returns (engine: AofEngine)
    requires ValidUtf8(key)
    ensures engine.open && Content(engine.fs.files, Main) == Some([])
    ensures IsAbsolute(Set(key, value, None)) && Content(engine.fs.files, Backup) == Some(RecordBytes(Set(key, value, None)))
    ensures |RecordBytes(Set(key, value, None))| > 0
  {
    var fs := new FileSystem(n => n == 9 || n == 10);
    engine := new AofEngine(fs);
    var c := Set(key, value, None);
    var ok := engine.Append(c, 0);
    AppendedRecord(c, 0);
    NotEmpty(c);
    assert [] + RecordBytes(c) == RecordBytes(c);
    ghost var failures;
    ok, failures := engine.Rewrite([SnapshotEntry(key, value, None)]);
  }

  lemma NotEmpty(c: Command)
    requires IsAbsolute(c)
    ensures |RecordBytes(c)| > 0
  {
  }

  lemma NoneYetKept(trace: seq<Files>, was: Option<Bytes>)
    ensures AllKept(trace, |trace|, was)
  {
  }

  lemma NotLost(failures: seq<Call>)
    ensures Rename(Temp, Main) !in failures ==> !SwapLost(failures)
  {
  }

  lemma SwapLostCases()
    ensures SwapLost([Rename(Temp, Main), Rename(Backup, Main)])
    ensures !SwapLost([]) && !SwapLost([Remove(Backup)]) && !SwapLost([Rename(Main, Backup)])
    ensures !SwapLost([Rename(Temp, Main)])
  {
  }

  lemma LostSame(failures: seq<Call>, call: Call)
    requires !call.Rename?
    ensures SwapLost(failures + [call]) == SwapLost(failures)
  {
  }

  lemma EmptySnapshotLog(entries: seq<SnapshotEntry>)
    ensures AbsoluteRecords(SnapshotLog(entries[..0])) && LogBytes(SnapshotLog(entries[..0])) == []
  {
  }

  lemma SnapshotLogSnoc(entries: seq<SnapshotEntry>, i: nat)
    requires i < |entries| && AbsoluteRecords(SnapshotLog(entries))
    ensures AbsoluteRecords(SnapshotLog(entries[..i])) && AbsoluteRecords(SnapshotLog(entries[..i + 1]))
    ensures LogBytes(SnapshotLog(entries[..i + 1]))
         == LogBytes(SnapshotLog(entries[..i])) + RecordBytes(SnapshotCommand(entries[i]))
    ensures CommandBytes(SnapshotCommand(entries[i]), 0) == Some(RecordBytes(SnapshotCommand(entries[i])))
  {
    hide RecordBytes, Decodable, SnapshotCommand, CommandBytes;
    var c := SnapshotCommand(entries[i]);
    assert SnapshotLog(entries)[i] == c;
    var init := SnapshotLog(entries[..i]);
    forall j | 0 <= j < i ensures init[j] == SnapshotLog(entries)[j] {
      assert entries[..i][j] == entries[j];
    }
    assert SnapshotLog(entries[..i + 1]) == init + [c];
    LogBytesAppend(init, [c]);
    OneRecord(c);
    RecordIsBytes(c);
  }

  lemma RecordIsBytes(c: Command)
    requires IsAbsolute(c)
    ensures CommandBytes(c, 0) == Some(RecordBytes(c))
  {
    LoggedExactlyWrites(c, 0);
  }

  // ----------------------------------------------------------------- replay

  /** Replay runs the write commands of a log and passes over any other. */
  function ReplayOne(hash: Hash, sh: ShardMaps, c: Command, now: Time): (r: ShardMaps)
    requires |sh| > 0
    ensures |r| == |sh|
  {
    if IsWrite(c) then ShardedNext(hash, sh, c, now) else sh
  }

  function ReplayShards(hash: Hash, sh: ShardMaps, log: Log, clock: nat -> Time): (r: ShardMaps)
    requires |sh| > 0
    ensures |r| == |sh|
  {
    if |log| == 0 then sh
    else
      var n := |log| - 1;
      ReplayOne(hash, ReplayShards(hash, sh, log[..n], clock), log[n], clock(n))
  }

  lemma HasShards(db: ShardedDatabase)
    requires db.Valid()
    ensures |db.View()| > 0
  {
  }

  lemma ReplayNothing(hash: Hash, sh: ShardMaps, clock: nat -> Time)
    requires |sh| > 0
    ensures ReplayShards(hash, sh, [], clock) == sh
  {
  }

  lemma ReplaySnoc(hash: Hash, sh: ShardMaps, log: Log, c: Command, clock: nat -> Time)
    requires |sh| > 0
    ensures ReplayShards(hash, sh, log + [c], clock)
         == ReplayOne(hash, ReplayShards(hash, sh, log, clock), c, clock(|log|))
  {
    hide ReplayOne;
    assert (log + [c])[..|log|] == log;
  }

  method ReplayCommand(c: Command, db: ShardedDatabase, now: Time)
    requires db.Valid()
    modifies db, db.shards
    ensures db.Valid() && db.View() == ReplayOne(db.hash, old(db.View()), c, now)
  {
    hide Visit, VisitAll, Flat, Look, LookIn, Route, Routed, Total;
    ghost var start := db.View();
    if IsKeyed(c) && !c.Del? {
      OneVisit(db.hash, start, c, KeysOf(c)[0], now);
    }
    match c {
      case Set(key, value, expire) =>
        var _ := db.Set(key, value, expire, now);
      case SetPxAt(key, value, stamp) =>
        var _ := db.SetAtMs(key, value, stamp, now);
      case Del(keys) =>
        var _, _ := db.Del(keys, now);
      case Expire(key, seconds) =>
        var _, _ := db.Expire(key, seconds, now);
      case ExpireAt(key, stamp) =>
        var _, _ := db.ExpireAtMs(key, stamp, now);
      case FlushDb =>
        db.FlushDb();
      case _ =>
    }
  }

  /** Reading on from `offset`, with `done` read before it, is reading the whole. */
  ghost predicate ReadSoFar(bytes: Bytes, offset: nat, done: Log)
    requires offset <= |bytes|
  {
    var rest := DecodeLog(bytes[offset..]);
    DecodeLog(bytes) == Decoded(done + rest.commands, rest.complete)
  }

  lemma ReadStops(bytes: Bytes, offset: nat, done: Log)
    requires offset < |bytes| && ReadSoFar(bytes, offset, done)
    requires var p := ParseResp(bytes[offset..]); p.Err? || FromResp(p.value.value).Err?
    ensures DecodeLog(bytes) == Decoded(done, false)
  {
    hide ParseResp, FromResp;
    assert done + [] == done;
  }

  lemma ReadEnds(bytes: Bytes, done: Log)
    requires ReadSoFar(bytes, |bytes|, done)
    ensures DecodeLog(bytes) == Decoded(done, true)
  {
    hide ParseResp, FromResp;
    assert bytes[|bytes|..] == [];
    assert done + [] == done;
  }

  lemma ReadContinues(bytes: Bytes, offset: nat, done: Log, next: nat, c: Command)
    requires offset < |bytes| && ReadSoFar(bytes, offset, done)
    requires var p := ParseResp(bytes[offset..]); p.Ok? && p.value.next == next && FromResp(p.value.value) == Ok(c)
    ensures offset + next <= |bytes| && ReadSoFar(bytes, offset + next, done + [c])
  {
    hide ParseResp, FromResp;
    var suffix := bytes[offset..];
    assert suffix[next..] == bytes[offset + next..];
    var rest := DecodeLog(bytes[offset + next..]).commands;
    assert DecodeLog(suffix).commands == [c] + rest;
    assert done + ([c] + rest) == done + [c] + rest;
  }

  /** The replay loop: commands one after the other up to the first record that does not parse or decode. */
  method ReplayBytes(bytes: Bytes, db: ShardedDatabase, clock: nat -> Time) returns (ok: bool)
    requires db.Valid()
    modifies db, db.shards
    ensures db.Valid()
    ensures ok == DecodeLog(bytes).complete
    ensures db.View() == ReplayShards(db.hash, old(db.View()), DecodeLog(bytes).commands, clock)
  {
    hide ParseResp, FromResp, ReplayOne, ReplayShards, DecodeLog, ReadSoFar, ShardedDatabase.Valid, ShardedDatabase.View;
    HasShards(db);
    ReplayNothing(db.hash, db.View(), clock);
    var offset, i := 0, 0;
    ghost var done: Log := [];
    ReadStart(bytes);
    while offset < |bytes|
      invariant offset <= |bytes| && i == |done| && db.Valid()
      invariant ReadSoFar(bytes, offset, done)
      invariant db.View() == ReplayShards(db.hash, old(db.View()), done, clock)
    {
      var parsed := ParseRespBytes(bytes[offset..]);
      if parsed.Err? {
        ReadStops(bytes, offset, done);
        return false;
      }
      var decoded := FromResp(parsed.value.value);
      if decoded.Err? {
        ReadStops(bytes, offset, done);
        return false;
      }
      var c := decoded.value;
      ReplayCommand(c, db, clock(i));
      ReadContinues(bytes, offset, done, parsed.value.next, c);
      ReplaySnoc(db.hash, old(db.View()), done, c, clock);
      done := done + [c];
      offset := offset + parsed.value.next;
      i := i + 1;
    }
    ReadEnds(bytes, done);
    return true;
  }

  lemma ReadStart(bytes: Bytes)
    ensures ReadSoFar(bytes, 0, [])
  {
    assert bytes[0..] == bytes;
    assert [] + DecodeLog(bytes).commands == DecodeLog(bytes).commands;
  }

  /** Startup: the log at the path, and only that, is replayed; a missing log is an empty one. */
  method LoadAndReplay(fs: FileSystem, db: ShardedDatabase, clock: nat -> Time) returns (ok: bool, ghost outcome: Outcome)
    requires db.Valid()
    modifies fs, db, db.shards
    ensures db.Valid() && fs.files == old(fs.files)
    ensures outcome == NotFound ==> Main !in fs.files && ok && db.View() == old(db.View())
    ensures outcome == Failed ==> !ok && db.View() == old(db.View())
    ensures outcome == Done ==> Main in fs.files && ok == DecodeLog(fs.files[Main]).complete
    ensures outcome == Done ==>
              db.View() == ReplayShards(db.hash, old(db.View()), DecodeLog(fs.files[Main]).commands, clock)
  {
    hide DecodeLog, ReplayShards;
    var read, bytes := fs.ReadFile(Main);
    outcome := read;
    if read != Done {
      return read == NotFound, outcome;
    }
    ok := ReplayBytes(bytes, db, clock);
  }

  /** Replay into empty shards of any number represents the replayed reference store. */
  lemma {:induction false} ReplayShardsRefine(hash: Hash, count: nat, log: Log, clock: nat -> Time, clocks: seq<Time>, from: Time, until: Time)
    requires count > 0 && AbsoluteLog(log) && |clocks| == |log| && Clocks(clocks, from, until)
    requires forall i :: 0 <= i < |log| ==> clocks[i] == clock(i)
    ensures Routed(hash, ReplayShards(hash, EmptyShards(count), log, clock))
    ensures Represents(hash, ReplayShards(hash, EmptyShards(count), log, clock), ReplayStore(log, clocks), until)
  {
    hide ShardedNext, Next, Look, LookIn;
    if |log| == 0 {
      FlushRepresents(hash, count, until);
    } else {
      var n := |log| - 1;
      var before := ReplayShards(hash, EmptyShards(count), log[..n], clock);
      ReplayShardsRefine(hash, count, log[..n], clock, clocks[..n], from, clocks[n]);
      ShardedRefines(hash, before, ReplayStore(log[..n], clocks[..n]), log[n], clocks[n]);
      RepresentsLater(hash, ReplayShards(hash, EmptyShards(count), log, clock), ReplayStore(log, clocks), clocks[n], until);
    }
  }
}
