/** The log file as bytes: what reading it back gives, whole or cut off anywhere. */
module LogText {
  import opened Bytes
  import Decimal
  import opened Clock
  import opened Parser
  import Codec
  import opened Commands
  import opened LogCodec
  import opened Replay

  /** The bytes of one absolute record; the clock plays no part in them. */
  function RecordBytes(c: Command): Bytes
    requires IsAbsolute(c)
  {
    CommandBytes(c, 0).value
  }

  function LogBytes(log: Log): Bytes
    requires AbsoluteRecords(log)
  {
    if |log| == 0 then [] else RecordBytes(log[0]) + LogBytes(log[1..])
  }

  /** Absolute records of decodable commands: what the server writes. */
  predicate AbsoluteRecords(log: Log) {
    forall i :: 0 <= i < |log| ==> IsAbsolute(log[i]) && Decodable(log[i])
  }

  datatype Decoded = Decoded(commands: Log, complete: bool)

  /** The parse loop over a log file: commands up to the end, or to the first place that does not parse or decode. */
  function DecodeLog(bytes: Bytes): Decoded
    decreases |bytes|
  {
    if |bytes| == 0 then Decoded([], true)
    else
      match ParseResp(bytes)
      case Err(_) => Decoded([], false)
      case Ok(p) =>
        match FromResp(p.value)
        case Err(_) => Decoded([], false)
        case Ok(c) =>
          var rest := DecodeLog(bytes[p.next..]);
          Decoded([c] + rest.commands, rest.complete)
  }

  lemma {:induction false} LogBytesAppend(a: Log, b: Log)
    requires AbsoluteRecords(a) && AbsoluteRecords(b)
    ensures AbsoluteRecords(a + b) && LogBytes(a + b) == LogBytes(a) + LogBytes(b)
  {
    hide RecordBytes, IsAbsolute, Decodable;
    if |a| == 0 {
      assert a + b == b;
    } else {
      LogBytesAppend(a[1..], b);
      assert (a + b)[1..] == a[1..] + b;
    }
  }

  lemma OneRecord(c: Command)
    requires IsAbsolute(c) && Decodable(c)
    ensures LogBytes([c]) == RecordBytes(c)
  {
    assert RecordBytes(c) + LogBytes([c][1..]) == RecordBytes(c);
  }

  /** What appending a command adds to the file is the record of its absolute form. */
  lemma AppendedRecord(c: Command, now: Time)
    requires IsWrite(c) && Decodable(c)
    ensures IsAbsolute(Absolute(c, now)) && Decodable(Absolute(c, now))
    ensures CommandBytes(c, now) == Some(RecordBytes(Absolute(c, now)))
  {
    hide ValidUtf8, EncodeArgs, StampFromNow;
    if c.Set? && c.expire.Some? {
      var stamp := Decimal.Print(StampFromNow(c.expire.value, now));
      assert [SET, c.key, c.value] + [PXAT, stamp] == [SET, c.key, c.value, PXAT, stamp];
    }
  }

  /** A record followed by anything parses to its command and ends where it ends. */
  lemma RecordReads(c: Command, rest: Bytes)
    requires IsAbsolute(c) && Decodable(c) && |RecordBytes(c) + rest| <= ISIZE_MAX
    ensures |RecordBytes(c)| > 0
    ensures var parsed := ParseResp(RecordBytes(c) + rest);
            && parsed.Ok? && parsed.value.next == |RecordBytes(c)|
            && FromResp(parsed.value.value) == Ok(c)
  {
    hide ParseResp, FromResp, EncodeArgs;
    LoggedExactlyWrites(c, 0);
    LoggedCommandRoundTrip(c, 0, rest);
    AbsoluteBytesTimeless(c, 0, 0);
  }

  /** Reading a whole log gives its commands and succeeds. */
  lemma {:induction false} DecodeWhole(log: Log)
    requires AbsoluteRecords(log) && |LogBytes(log)| <= ISIZE_MAX
    ensures DecodeLog(LogBytes(log)) == Decoded(log, true)
  {
    hide ParseResp, FromResp, RecordBytes, IsAbsolute, Decodable;
    if |log| == 0 {
    } else {
      RecordReads(log[0], LogBytes(log[1..]));
      assert LogBytes(log)[|RecordBytes(log[0])|..] == LogBytes(log[1..]);
      DecodeWhole(log[1..]);
      assert log == [log[0]] + log[1..];
    }
  }

  /** The number of records that lie wholly before a cut. */
  function WholeBefore(log: Log, cut: nat): (n: nat)
    requires AbsoluteRecords(log)
    ensures n <= |log|
  {
    if |log| == 0 || |RecordBytes(log[0])| > cut then 0
    else 1 + WholeBefore(log[1..], cut - |RecordBytes(log[0])|)
  }

  /** `WholeBefore` is the largest number of records whose bytes fit before the cut. */
  lemma {:induction false} WholeBeforeFits(log: Log, cut: nat)
    requires AbsoluteRecords(log)
    ensures |LogBytes(log[..WholeBefore(log, cut)])| <= cut
    ensures WholeBefore(log, cut) < |log| ==> cut < |LogBytes(log[..WholeBefore(log, cut) + 1])|
  {
    hide RecordBytes, IsAbsolute, Decodable;
    var n := WholeBefore(log, cut);
    if |log| == 0 {
    } else {
      if n > 0 {
        WholeBeforeFits(log[1..], cut - |RecordBytes(log[0])|);
        assert log[..n][1..] == log[1..][..n - 1];
      }
      if n < |log| {
        assert log[..n + 1][1..] == log[1..][..n];
      }
    }
  }

  /** The cut falls between two records, or at an end of the log. */
  ghost predicate AtBoundary(log: Log, cut: nat)
    requires AbsoluteRecords(log)
  {
    exists n :: 0 <= n <= |log| && cut == |LogBytes(log[..n])|
  }

  /** A log cut at any byte: exactly the commands wholly before the cut are read; reading succeeds
      if and only if the cut is between records. A torn record is an error, never another command. */
  lemma {:induction false} TruncatedLog(log: Log, cut: nat)
    requires AbsoluteRecords(log) && cut <= |LogBytes(log)| <= ISIZE_MAX
    ensures var n := WholeBefore(log, cut);
            && DecodeLog(LogBytes(log)[..cut]).commands == log[..n]
            && DecodeLog(LogBytes(log)[..cut]).complete == (cut == |LogBytes(log[..n])|)
  {
    hide ParseResp, FromResp, RecordBytes, IsAbsolute, Decodable, DecodeLog;
    var bytes := LogBytes(log);
    if |log| == 0 {
      DecodeNothing();
      assert bytes[..cut] == [];
    } else {
      var record, rest := RecordBytes(log[0]), LogBytes(log[1..]);
      var n := WholeBefore(log, cut);
      RecordReads(log[0], rest);
      if |record| <= cut {
        assert bytes[..cut] == record + rest[..cut - |record|];
        RecordReads(log[0], rest[..cut - |record|]);
        DecodeOne(log[0], rest[..cut - |record|]);
        TruncatedLog(log[1..], cut - |record|);
        assert log[..n] == [log[0]] + log[1..][..n - 1];
        assert log[..n][1..] == log[1..][..n - 1];
      } else {
        assert log[..n] == [];
        if cut == 0 {
          DecodeNothing();
          assert bytes[..cut] == [];
        } else {
          assert record + rest == bytes;
          TornRecord(bytes, cut);
        }
      }
    }
  }

  lemma DecodeNothing()
    ensures DecodeLog([]) == Decoded([], true)
  {
  }

  lemma DecodeOne(c: Command, rest: Bytes)
    requires IsAbsolute(c) && Decodable(c) && |RecordBytes(c) + rest| <= ISIZE_MAX
    ensures DecodeLog(RecordBytes(c) + rest)
         == Decoded([c] + DecodeLog(rest).commands, DecodeLog(rest).complete)
  {
    hide ParseResp, FromResp, RecordBytes, IsAbsolute, Decodable;
    RecordReads(c, rest);
    assert (RecordBytes(c) + rest)[|RecordBytes(c)|..] == rest;
  }

  lemma TornRecord(bytes: Bytes, cut: nat)
    requires ParseResp(bytes).Ok? && 0 < cut < ParseResp(bytes).value.next
    ensures DecodeLog(bytes[..cut]) == Decoded([], false)
  {
    hide ParseResp;
    Codec.PrefixFree(bytes, cut);
  }

  /** The same with the boundary said without counting records. */
  lemma TruncationExactly(log: Log, cut: nat)
    requires AbsoluteRecords(log) && cut <= |LogBytes(log)| <= ISIZE_MAX
    ensures DecodeLog(LogBytes(log)[..cut]).complete <==> AtBoundary(log, cut)
  {
    hide RecordBytes, IsAbsolute, Decodable, DecodeLog, LogBytes, WholeBefore;
    TruncatedLog(log, cut);
    WholeBeforeFits(log, cut);
    var n := WholeBefore(log, cut);
    if AtBoundary(log, cut) {
      var k :| 0 <= k <= |log| && cut == |LogBytes(log[..k])|;
      if k < n {
        LongerLog(log, k, n);
      } else if k > n {
        LongerLog(log, n + 1, k);
      }
    }
  }

  lemma LongerLog(log: Log, a: nat, b: nat)
    requires AbsoluteRecords(log) && a <= b <= |log| && |LogBytes(log)| <= ISIZE_MAX
    ensures |LogBytes(log[..a])| <= |LogBytes(log[..b])|
    ensures a < b ==> |LogBytes(log[..a])| < |LogBytes(log[..b])|
  {
    hide RecordBytes, IsAbsolute, Decodable;
    var more := log[a..b];
    LogBytesAppend(log[..a], more);
    assert log[..a] + more == log[..b];
    LogBytesAppend(log[..b], log[b..]);
    assert log[..b] + log[b..] == log;
    if a < b {
      RecordReads(more[0], LogBytes(more[1..]));
    }
  }

  /** These commands one after the other, each from where the one before ended, and then the rest. */
  ghost predicate Reads(bytes: Bytes, commands: Log, rest: Bytes)
    decreases |commands|
  {
    if |commands| == 0 then bytes == rest
    else
      var p := ParseResp(bytes);
      && p.Ok? && FromResp(p.value.value) == Ok(commands[0])
      && Reads(bytes[p.value.next..], commands[1..], rest)
  }

  /** Reading stops at the end, and then it is complete, or at the first frame that does not parse or is no command. */
  ghost predicate StopsAt(rest: Bytes, complete: bool) {
    if complete then rest == []
    else rest != [] && (ParseResp(rest).Err? || FromResp(ParseResp(rest).value.value).Err?)
  }

  /** Any bytes: the commands read are all up to where reading stops. */
  lemma {:induction false} DecodeExactly(bytes: Bytes)
    ensures exists rest :: Reads(bytes, DecodeLog(bytes).commands, rest) && StopsAt(rest, DecodeLog(bytes).complete)
    decreases |bytes|
  {
    hide ParseResp, FromResp, StopsAt;
    var read := DecodeLog(bytes);
    if |bytes| == 0 || ParseResp(bytes).Err? || FromResp(ParseResp(bytes).value.value).Err? {
      assert Reads(bytes, [], bytes);
      StopsHere(bytes);
    } else {
      var next := bytes[ParseResp(bytes).value.next..];
      DecodeExactly(next);
      var rest :| Reads(next, DecodeLog(next).commands, rest) && StopsAt(rest, DecodeLog(next).complete);
      assert read.commands[1..] == DecodeLog(next).commands;
      assert Reads(bytes, read.commands, rest);
    }
  }

  lemma StopsHere(bytes: Bytes)
    ensures bytes == [] ==> StopsAt(bytes, true)
    ensures bytes != [] && (ParseResp(bytes).Err? || FromResp(ParseResp(bytes).value.value).Err?) ==> StopsAt(bytes, false)
  {
    hide ParseResp, FromResp;
  }
}
