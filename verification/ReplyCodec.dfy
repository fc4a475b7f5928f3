/** Replies on the wire: which of them the codec carries. */
module ReplyCodec {
  import opened Bytes
  import opened Clock
  import opened Resp
  import opened Parser
  import opened Encoder
  import opened Codec
  import opened Commands
  import opened Reference
  import LogCodec

  lemma {:induction false} Utf8Joins(a: Bytes, b: Bytes)
    requires ValidUtf8(a) && ValidUtf8(b)
    ensures ValidUtf8(a + b)
  {
    if |a| == 0 {
      assert a + b == b;
    } else {
      var n := CodePointLength(a);
      assert CodePointLength(a + b) == n;
      Utf8Joins(a[n..], b);
      assert (a + b)[n..] == a[n..] + b;
    }
  }

  /** The text of the reply to an unknown command is a Rust string, and holds a CR LF pair if and only if the name does. */
  lemma UnknownText(name: Bytes)
    requires ValidUtf8(name)
    ensures ValidUtf8(UNKNOWN + name + [39])
    ensures NoCrlf(UNKNOWN + name + [39]) <==> NoCrlf(name)
  {
    hide ValidUtf8;
    AsciiIsUtf8(UNKNOWN);
    AsciiIsUtf8([39]);
    Utf8Joins(UNKNOWN, name);
    Utf8Joins(UNKNOWN + name, [39]);
    var text, skip := UNKNOWN + name + [39], |UNKNOWN|;
    assert forall i :: 0 <= i < |name| ==> text[skip + i] == name[i];
    if NoCrlf(text) {
      forall i | 0 <= i < |name| - 1 ensures !(name[i] == CR && name[i + 1] == LF) {
        assert text[skip + i] == name[i] && text[skip + i + 1] == name[i + 1];
      }
    }
    if NoCrlf(name) {
      forall i | 0 <= i < |text| - 1 ensures !(text[i] == CR && text[i + 1] == LF) {
        if skip <= i < skip + |name| - 1 {
          assert text[i] == name[i - skip] && text[i + 1] == name[i - skip + 1];
        }
      }
    }
  }

  lemma ReplyText(m: Store, c: Command, now: Time)
    requires Decodable(c) && ReplyTo(m, c, now).Answer?
    ensures Strings(ReplyTo(m, c, now).resp)
    ensures LineSafe(ReplyTo(m, c, now).resp) <==> (c.Unknown? ==> NoCrlf(c.name))
  {
    hide LiveAmong, TtlOf, Look, ValidUtf8;
    if c.Keys? {
      LogCodec.BulksSafe(SortedList(LiveKeys(m, now)));
    } else if c.Unknown? {
      UnknownText(c.name);
    } else {
      AsciiIsUtf8(OK);
      AsciiIsUtf8(PONG);
    }
  }

  /** The reply to a command a client can send arrives as it was given if and only if the command is not an
      unknown one with a CR LF pair in its name. */
  lemma ReplyCarried(m: Store, c: Command, now: Time)
    requires Decodable(c) && ReplyTo(m, c, now).Answer? && |Encode(ReplyTo(m, c, now).resp)| <= ISIZE_MAX
    ensures var reply := ReplyTo(m, c, now).resp;
            ParseResp(Encode(reply)) == Ok(Parsed(reply, |Encode(reply)|)) <==> (c.Unknown? ==> NoCrlf(c.name))
  {
    hide ReplyTo, Encode, ParseResp, Strings, LineSafe, NoCrlf;
    ReplyText(m, c, now);
    RoundTripExactly(ReplyTo(m, c, now).resp);
  }

  /** The case is real: a name with the pair in it can be sent, as a bulk string, and decodes. */
  lemma ReplyLost(m: Store, now: Time)
    ensures var name: Bytes := [97, CR, LF, 98];
            && LineSafe(Array([BulkString(name)]))
            && FromResp(Array([BulkString(name)])) == Ok(Unknown(name))
            && !LineSafe(ReplyTo(m, Unknown(name), now).resp)
  {
    var name: Bytes := [97, CR, LF, 98];
    assert ValidUtf8(name) by { AsciiIsUtf8(name); }
    assert !NoCrlf(name) by { assert name[1] == CR && name[2] == LF; }
    hide NoCrlf, ValidUtf8, ParseArgs, ArrayArgs;
    ReplyText(m, Unknown(name), now);
    OneBulk(name);
    UnknownName(name);
    hide ReplyTo;
  }

  lemma OneBulk(name: Bytes)
    ensures LineSafe(Array([BulkString(name)])) && FromResp(Array([BulkString(name)])) == ParseArgs([name])
  {
    hide ParseArgs;
    LogCodec.BulksSafe([name]);
    assert Bulks([name]) == [BulkString(name)];
  }

  lemma UnknownName(name: Bytes)
    requires ValidUtf8(name) && |name| > 1 && name[1] == CR
    ensures ParseArgs([name]) == Ok(Unknown(name))
  {
    assert Upper(name)[1] == CR;
    OtherName(Upper(name), [name]);
    hide ValidUtf8, Upper, Dispatch;
  }

  /** No command's name has a CR. */
  lemma OtherName(name: Bytes, args: seq<Bytes>)
    requires |name| > 1 && name[1] == CR && |args| > 0
    ensures Dispatch(name, args) == Ok(Unknown(args[0]))
  {
    hide ParseSet, ParseDel, ParseKeys, ParseExpire, ParseExpireAt, OneKey, Bare;
  }
}
