/** The log's text: write commands with every expiry made absolute, one RESP array each. */
module LogCodec {
  import opened Bytes
  import opened Decimal
  import opened Clock
  import opened Resp
  import opened Parser
  import opened Encoder
  import opened Codec
  import opened Commands

  /** The arguments logged for a command at `now`; commands that change nothing are not logged. */
  function LoggedArgs(c: Command, now: Time): Option<seq<Bytes>> {
    match c
    case Set(key, value, expire) =>
      Some([SET, key, value] + if expire.Some? then [PXAT, Print(StampFromNow(expire.value, now))] else [])
    case SetPxAt(key, value, timestampMs) => Some([SET, key, value, PXAT, Print(timestampMs)])
    case Del(keys) => Some([DEL] + keys)
    case Expire(key, seconds) => Some([EXPIREAT, key, Print(StampFromNow(1000 * seconds, now))])
    case ExpireAt(key, timestampMs) => Some([EXPIREAT, key, Print(timestampMs)])
    case FlushDb => Some([FLUSHDB])
    case _ => None
  }

  function EncodeArgs(args: seq<Bytes>): Bytes {
    Encode(Array(Bulks(args)))
  }

  /** `command_to_resp_bytes`. */
  function CommandBytes(c: Command, now: Time): Option<Bytes> {
    match LoggedArgs(c, now)
    case None => None
    case Some(args) => Some(EncodeArgs(args))
  }

  /** The same command with a relative expiry replaced by the stamp it has at `now`. */
  function Absolute(c: Command, now: Time): Command {
    match c
    case Set(key, value, Some(ms)) => SetPxAt(key, value, StampFromNow(ms, now))
    case Expire(key, seconds) => ExpireAt(key, StampFromNow(1000 * seconds, now))
    case _ => c
  }

  /** Write commands without a relative expiry: all that a log written by the server holds. */
  predicate IsAbsolute(c: Command) {
    IsWrite(c) && !c.Expire? && !(c.Set? && c.expire.Some?)
  }

  // ------------------------------------------------------------- round trip

  lemma {:induction false} BulksSafe(args: seq<Bytes>)
    ensures AllStrings(Bulks(args)) && AllLineSafe(Bulks(args))
    ensures ArrayArgs(Bulks(args)) == Ok(args)
  {
    if |args| == 0 {
    } else {
      BulksSafe(args[1..]);
      assert Bulks(args)[1..] == Bulks(args[1..]);
      assert args == [args[0]] + args[1..];
    }
  }

  lemma ArgsRoundTrip(args: seq<Bytes>, rest: Bytes)
    requires |EncodeArgs(args) + rest| <= ISIZE_MAX
    ensures ParseResp(EncodeArgs(args) + rest) == Ok(Parsed(Array(Bulks(args)), |EncodeArgs(args)|))
    ensures FromResp(Array(Bulks(args))) == ParseArgs(args)
  {
    hide ParseArgs;
    BulksSafe(args);
    RoundTrip(Array(Bulks(args)), rest);
  }

  lemma UpperConstants()
    ensures Upper(SET) == SET && Upper(DEL) == DEL && Upper(EXPIREAT) == EXPIREAT && Upper(FLUSHDB) == FLUSHDB
    ensures Upper(PXAT) == PXAT
  {
  }

  lemma AsciiConstants()
    ensures ValidUtf8(SET) && ValidUtf8(DEL) && ValidUtf8(EXPIREAT) && ValidUtf8(FLUSHDB) && ValidUtf8(PXAT)
  {
    hide ValidUtf8;
    AsciiIsUtf8(SET);
    AsciiIsUtf8(DEL);
    AsciiIsUtf8(EXPIREAT);
    AsciiIsUtf8(FLUSHDB);
    AsciiIsUtf8(PXAT);
  }

  lemma NumberArgPrinted(n: u64, what: string)
    ensures NumberArg(Print(n), what) == Ok(n)
  {
    AsciiIsUtf8(Print(n));
    PrintParseU64(n);
  }

  lemma {:induction false} TextArgsValid(args: seq<Bytes>, what: string)
    requires forall i :: 0 <= i < |args| ==> ValidUtf8(args[i])
    ensures TextArgs(args, what) == Ok(args)
  {
    hide ValidUtf8;
    if |args| == 0 {
    } else {
      TextArgsValid(args[1..], what);
      assert args == [args[0]] + args[1..];
    }
  }

  lemma SetArgsDecode(key: Key, value: Bytes)
    requires ValidUtf8(key)
    ensures ParseArgs([SET, key, value]) == Ok(Set(key, value, None))
  {
    hide ValidUtf8, Upper;
    UpperConstants();
    AsciiConstants();
  }

  lemma SetPxAtArgsDecode(key: Key, value: Bytes, stamp: u64)
    requires ValidUtf8(key)
    ensures ParseArgs([SET, key, value, PXAT, Print(stamp)]) == Ok(SetPxAt(key, value, stamp))
  {
    hide ValidUtf8, Upper, NumberArg, Print;
    UpperConstants();
    AsciiConstants();
    NumberArgPrinted(stamp, "SET expire duration");
  }

  lemma DelArgsDecode(keys: seq<Key>)
    requires |keys| > 0 && forall i :: 0 <= i < |keys| ==> ValidUtf8(keys[i])
    ensures ParseArgs([DEL] + keys) == Ok(Del(keys))
  {
    hide ValidUtf8, Upper, TextArgs;
    UpperConstants();
    AsciiConstants();
    TextArgsValid(keys, "DEL key");
    assert ([DEL] + keys)[1..] == keys;
  }

  lemma ExpireAtArgsDecode(key: Key, stamp: u64)
    requires ValidUtf8(key)
    ensures ParseArgs([EXPIREAT, key, Print(stamp)]) == Ok(ExpireAt(key, stamp))
  {
    hide ValidUtf8, Upper, NumberArg, Print;
    UpperConstants();
    AsciiConstants();
    NumberArgPrinted(stamp, "EXPIREAT timestamp_ms");
  }

  lemma FlushArgsDecode()
    ensures ParseArgs([FLUSHDB]) == Ok(FlushDb)
  {
    hide ValidUtf8, Upper;
    UpperConstants();
    AsciiConstants();
  }

  lemma LoggedArgsDecode(c: Command, now: Time)
    requires IsWrite(c) && Decodable(c)
    ensures LoggedArgs(c, now).Some? && ParseArgs(LoggedArgs(c, now).value) == Ok(Absolute(c, now))
  {
    hide ParseArgs, ValidUtf8, Print, StampFromNow;
    match c {
      case Set(key, value, expire) =>
        if expire.None? {
          SetArgsDecode(key, value);
          assert [SET, key, value] + [] == [SET, key, value];
        } else {
          var stamp := StampFromNow(expire.value, now);
          SetPxAtArgsDecode(key, value, stamp);
          assert [SET, key, value] + [PXAT, Print(stamp)] == [SET, key, value, PXAT, Print(stamp)];
        }
      case SetPxAt(key, value, stamp) => SetPxAtArgsDecode(key, value, stamp);
      case Del(keys) => DelArgsDecode(keys);
      case Expire(key, seconds) => ExpireAtArgsDecode(key, StampFromNow(1000 * seconds, now));
      case ExpireAt(key, stamp) => ExpireAtArgsDecode(key, stamp);
      case FlushDb => FlushArgsDecode();
    }
  }

  /** Logging, parsing and decoding a write command gives it back with its expiry made absolute, whatever follows in the log. */
  lemma LoggedCommandRoundTrip(c: Command, now: Time, rest: Bytes)
    requires IsWrite(c) && Decodable(c)
    requires CommandBytes(c, now).Some? ==> |CommandBytes(c, now).value + rest| <= ISIZE_MAX
    ensures CommandBytes(c, now).Some?
    ensures var bytes := CommandBytes(c, now).value;
            var parsed := ParseResp(bytes + rest);
            && parsed.Ok? && parsed.value.next == |bytes|
            && FromResp(parsed.value.value) == Ok(Absolute(c, now))
    ensures IsAbsolute(Absolute(c, now)) && Decodable(Absolute(c, now))
  {
    hide ParseArgs, ParseResp, EncodeArgs, FromResp, ValidUtf8;
    LoggedArgsDecode(c, now);
    ArgsRoundTrip(LoggedArgs(c, now).value, rest);
  }

  /** Exactly the write commands are logged. */
  lemma LoggedExactlyWrites(c: Command, now: Time)
    ensures CommandBytes(c, now).Some? <==> IsWrite(c)
  {
  }

  /** An absolute command's text does not depend on the clock. */
  lemma AbsoluteBytesTimeless(c: Command, now: Time, later: Time)
    requires IsAbsolute(c)
    ensures CommandBytes(c, now) == CommandBytes(c, later) && Absolute(c, now) == c
  {
  }

  /** The command is logged as these arguments: an array of bulk strings. */
  predicate LoggedAs(c: Command, now: Time, args: seq<Bytes>) {
    CommandBytes(c, now) == Some(Encode(Array(Bulks(args))))
  }

  lemma ArgsLogged(c: Command, now: Time, args: seq<Bytes>)
    requires LoggedArgs(c, now) == Some(args)
    ensures LoggedAs(c, now, args)
  {
    hide Encode, Bulks, LoggedArgs;
  }

  /** Records on disk: the command's name and arguments. */
  lemma AbsoluteForms(key: Key, value: Bytes, keys: seq<Key>, stamp: u64, now: Time)
    ensures LoggedAs(Set(key, value, None), now, [[83, 69, 84], key, value])
    ensures LoggedAs(SetPxAt(key, value, stamp), now, [[83, 69, 84], key, value, [80, 88, 65, 84], Print(stamp)])
    ensures LoggedAs(Del(keys), now, [[68, 69, 76]] + keys)
    ensures LoggedAs(ExpireAt(key, stamp), now, [[69, 88, 80, 73, 82, 69, 65, 84], key, Print(stamp)])
    ensures LoggedAs(FlushDb, now, [[70, 76, 85, 83, 72, 68, 66]])
  {
    hide LoggedAs, Print;
    assert [SET, key, value] + [] == [SET, key, value];
    ArgsLogged(Set(key, value, None), now, [SET, key, value]);
    ArgsLogged(SetPxAt(key, value, stamp), now, [SET, key, value, PXAT, Print(stamp)]);
    ArgsLogged(Del(keys), now, [DEL] + keys);
    ArgsLogged(ExpireAt(key, stamp), now, [EXPIREAT, key, Print(stamp)]);
    ArgsLogged(FlushDb, now, [FLUSHDB]);
  }

  /** A relative expiry is logged as the millisecond it ends in. */
  lemma RelativeForms(key: Key, value: Bytes, ms: nat, seconds: u64, now: Time)
    ensures LoggedAs(Set(key, value, Some(ms)), now, [[83, 69, 84], key, value, [80, 88, 65, 84], Print(Ends(now, ms))])
    ensures LoggedAs(Expire(key, seconds), now, [[69, 88, 80, 73, 82, 69, 65, 84], key, Print(Ends(now, 1000 * seconds))])
  {
    assert StampFromNow(ms, now) == Ends(now, ms) && StampFromNow(1000 * seconds, now) == Ends(now, 1000 * seconds);
    hide LoggedAs, Print, StampFromNow, Ends;
    assert [SET, key, value] + [PXAT, Print(Ends(now, ms))] == [SET, key, value, PXAT, Print(Ends(now, ms))];
    ArgsLogged(Set(key, value, Some(ms)), now, [SET, key, value, PXAT, Print(Ends(now, ms))]);
    ArgsLogged(Expire(key, seconds), now, [EXPIREAT, key, Print(Ends(now, 1000 * seconds))]);
  }

  /** The millisecond `ms` milliseconds on; saturates at the largest unsigned number. */
  function Ends(now: Time, ms: nat): u64 {
    var end := now / 1_000_000 + ms;
    if end <= 0xFFFF_FFFF_FFFF_FFFF then end else 0xFFFF_FFFF_FFFF_FFFF
  }
}
