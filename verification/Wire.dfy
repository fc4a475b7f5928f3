/** The bytes on the wire: what every value is encoded as and what every input is answered with, byte for byte. */
module Wire {
  import opened Bytes
  import opened Decimal
  import opened Resp
  import opened Parser
  import opened Encoder
  import Codec
  import Connections

  // --------------------------------------------------------------- encoding

  function Encodings(items: seq<Resp>): (r: seq<Bytes>)
    ensures |r| == |items| && forall i :: 0 <= i < |r| ==> r[i] == Encode(items[i])
  {
    seq(|items|, i requires 0 <= i < |items| => Encode(items[i]))
  }

  lemma {:induction false} ItemsJoined(items: seq<Resp>)
    ensures EncodeAll(items) == Connections.Flatten(Encodings(items))
  {
    hide Encode;
    if |items| == 0 {
    } else {
      ItemsJoined(items[1..]);
      assert Encodings(items)[1..] == Encodings(items[1..]);
    }
  }

  /** A simple string is `+`, an error `-`, an integer `:`, a bulk string `$` with its length, an array `*` with its
      count; each line ends in CR LF, and Null is `$-1`. */
  lemma WireForms(text: Bytes, number: i64, items: seq<Resp>)
    ensures Encode(SimpleString(text)) == [43] + text + [13, 10]
    ensures Encode(Error(text)) == [45] + text + [13, 10]
    ensures Encode(Integer(number)) == [58] + Print(number) + [13, 10]
    ensures Encode(BulkString(text)) == [36] + Print(|text|) + [13, 10] + text + [13, 10]
    ensures Encode(Array(items)) == [42] + Print(|items|) + [13, 10] + Connections.Flatten(Encodings(items))
    ensures Encode(Null) == [36, 45, 49, 13, 10]
  {
    hide Print;
    ItemsJoined(items);
    PrintMinusOne();
  }

  // ---------------------------------------------------------------- parsing

  /** The first CR LF from `from` on stands at `end`. */
  ghost predicate LineEnd(s: Bytes, from: nat, end: nat) {
    && from <= end && end + 1 < |s| && s[end] == 13 && s[end + 1] == 10
    && forall i :: from <= i < end ==> !(s[i] == 13 && s[i + 1] == 10)
  }

  ghost predicate NoLineEnd(s: Bytes, from: nat) {
    forall i :: from <= i < |s| - 1 ==> !(s[i] == 13 && s[i + 1] == 10)
  }

  lemma LineRead(s: Bytes, from: nat, end: nat)
    requires LineEnd(s, from, end)
    ensures ReadLine(s, from) == Ok(Parsed(s[from..end], end + 2))
  {
    FirstPair(s, from);
    if FindCrlf(s, from).Some? {
      assert !(FindCrlf(s, from).value < end) && !(end < FindCrlf(s, from).value) by {
        assert CrlfAt(s, end) && CrlfAt(s, FindCrlf(s, from).value);
      }
    } else {
      assert CrlfAt(s, end);
    }
  }

  lemma NoLineRead(s: Bytes, from: nat)
    requires from <= |s| && NoLineEnd(s, from)
    ensures ReadLine(s, from) == Err(Incomplete)
  {
    FirstPair(s, from);
  }

  /** No input is incomplete, a byte that opens no value is named in the error, and a value whose first line is
      not closed is incomplete. */
  lemma Openings(s: Bytes, pos: nat)
    requires pos <= |s|
    ensures pos == |s| ==> ParseValue(s, pos) == Err(Incomplete)
    ensures pos < |s| && s[pos] != 43 && s[pos] != 45 && s[pos] != 58 && s[pos] != 36 && s[pos] != 42
        ==> ParseValue(s, pos) == Err(InvalidTypeByte(s[pos]))
    ensures pos < |s| && NoLineEnd(s, pos + 1)
            && (s[pos] == 43 || s[pos] == 45 || s[pos] == 58 || s[pos] == 36 || s[pos] == 42)
        ==> ParseValue(s, pos) == Err(Incomplete)
  {
    if pos < |s| && NoLineEnd(s, pos + 1) {
      NoLineRead(s, pos + 1);
    }
    hide ReadLine, ParseItems, ReadBulkBytes;
  }

  function TextAnswer(v: Resp, text: Bytes, next: nat): ParseResult<Resp> {
    if ValidUtf8(text) then Ok(Parsed(v, next)) else Err(InvalidUtf8)
  }

  /** Simple strings and errors: the line, if it is text. */
  lemma TextForms(s: Bytes, pos: nat, end: nat)
    requires pos < |s| && LineEnd(s, pos + 1, end)
    ensures s[pos] == 43 ==> ParseValue(s, pos) == TextAnswer(SimpleString(s[pos + 1..end]), s[pos + 1..end], end + 2)
    ensures s[pos] == 45 ==> ParseValue(s, pos) == TextAnswer(Error(s[pos + 1..end]), s[pos + 1..end], end + 2)
  {
    hide ValidUtf8, ReadLine;
    LineRead(s, pos + 1, end);
  }

  lemma NumberRead(s: Bytes, from: nat, end: nat)
    requires LineEnd(s, from, end)
    ensures ReadNumber(s, from) == match ParseI64(s[from..end])
                                   case None => Err(InvalidInteger)
                                   case Some(n) => Ok(Parsed(n, end + 2))
  {
    LineRead(s, from, end);
    var line := s[from..end];
    ParseI64Exactly(line);
    if ParseI64(line).Some? {
      assert Ascii(line) by {
        assert line == (if |line| > 0 && (line[0] == 43 || line[0] == 45) then [line[0]] else []) + Unsigned(line);
      }
      AsciiIsUtf8(line);
    }
    hide ValidUtf8, ParseI64, ReadLine;
  }

  /** Integers: the line, if it is one. */
  lemma IntegerForm(s: Bytes, pos: nat, end: nat)
    requires pos < |s| && LineEnd(s, pos + 1, end) && s[pos] == 58
    ensures ParseValue(s, pos) == match ParseI64(s[pos + 1..end])
                                  case None => Err(InvalidInteger)
                                  case Some(n) => Ok(Parsed(Integer(n), end + 2))
  {
    NumberRead(s, pos + 1, end);
    hide ReadNumber, ParseI64, ParseText, ParseBulk, ParseArray;
  }

  /** So many bytes and CR LF, once they are there. */
  function BulkAnswer(s: Bytes, from: nat, n: nat): ParseResult<Resp> {
    if from + n + 2 > 0xFFFF_FFFF_FFFF_FFFF then Err(InvalidFormat(BulkOverflow))
    else if from + n + 2 > |s| then Err(Incomplete)
    else if s[from + n] != 13 || s[from + n + 1] != 10 then Err(InvalidFormat(BulkTerminator))
    else Ok(Parsed(BulkString(s[from..from + n]), from + n + 2))
  }

  lemma BulkRead(s: Bytes, pos: nat, from: nat, n: i64)
    requires pos <= |s| && from <= |s| && ReadNumber(s, pos) == Ok(Parsed(n, from))
    ensures n == -1 ==> ParseBulk(s, pos) == Ok(Parsed(Null, from))
    ensures n < -1 ==> ParseBulk(s, pos) == Err(InvalidFormat(BulkLength))
    ensures n >= 0 ==> ParseBulk(s, pos) == BulkAnswer(s, from, n)
  {
    hide ReadNumber;
  }

  /** A bulk string opens with `$`. */
  lemma BulkOpens(s: Bytes, pos: nat)
    requires pos < |s| && s[pos] == 36
    ensures ParseValue(s, pos) == ParseBulk(s, pos + 1)
  {
    hide ParseBulk;
  }

  /** Bulk strings: -1 is Null and less is an error; otherwise the counted bytes. */
  lemma BulkForm(s: Bytes, pos: nat, end: nat)
    requires pos < |s| && LineEnd(s, pos + 1, end) && s[pos] == 36
    ensures match ParseI64(s[pos + 1..end])
            case None => ParseValue(s, pos) == Err(InvalidInteger)
            case Some(n) =>
              && (n == -1 ==> ParseValue(s, pos) == Ok(Parsed(Null, end + 2)))
              && (n < -1 ==> ParseValue(s, pos) == Err(InvalidFormat(BulkLength)))
              && (n >= 0 ==> ParseValue(s, pos) == BulkAnswer(s, end + 2, n))
  {
    hide ParseValue, ReadNumber, ParseI64, BulkAnswer;
    NumberRead(s, pos + 1, end);
    BulkOpens(s, pos);
    var line := ParseI64(s[pos + 1..end]);
    if line.Some? {
      hide ParseBulk;
      BulkRead(s, pos + 1, end + 2, line.value);
    }
  }

  /** Arrays: -1 is Null and less is an error; otherwise so many values. */
  lemma ArrayForm(s: Bytes, pos: nat, end: nat)
    requires pos < |s| && LineEnd(s, pos + 1, end) && s[pos] == 42
    ensures ParseI64(s[pos + 1..end]).None? ==> ParseValue(s, pos) == Err(InvalidInteger)
    ensures ParseI64(s[pos + 1..end]).Some? ==>
              var n, from := ParseI64(s[pos + 1..end]).value, end + 2;
              && (n == -1 ==> ParseValue(s, pos) == Ok(Parsed(Null, from)))
              && (n < -1 ==> ParseValue(s, pos) == Err(InvalidFormat(ArrayLength)))
              && (n >= 0 ==> match ParseItems(s, from, n)
                             case Ok(p) => ParseValue(s, pos) == Ok(Parsed(Array(p.value), p.next))
                             case Err(e) => ParseValue(s, pos) == Err(e))
  {
    NumberRead(s, pos + 1, end);
    hide ReadNumber, ParseI64, ParseItems, ParseText, ParseNumber, ParseBulk;
  }

  /** The items stand one after the other, each from its place to the next. */
  ghost predicate ItemsAt(s: Bytes, items: seq<Resp>, places: seq<nat>) {
    && |places| == |items| + 1
    && (forall i :: 0 <= i < |places| ==> places[i] <= |s|)
    && forall i :: 0 <= i < |items| ==> ParseValue(s, places[i]) == Ok(Parsed(items[i], places[i + 1]))
  }

  /** Values in a row: all of them, in order; or the first error among them. */
  lemma {:induction false} ItemsForm(s: Bytes, items: seq<Resp>, places: seq<nat>, count: nat)
    requires ItemsAt(s, items, places) && |items| <= count
    ensures |items| == count ==> ParseItems(s, places[0], count) == Ok(Parsed(items, places[count]))
    ensures |items| < count && ParseValue(s, places[|items|]).Err?
        ==> ParseItems(s, places[0], count) == Err(ParseValue(s, places[|items|]).error)
    decreases |items|
  {
    hide ParseValue;
    if |items| == 0 {
    } else {
      ItemsForm(s, items[1..], places[1..], count - 1);
      assert items == [items[0]] + items[1..];
    }
  }

  lemma OneItem(bytes: Bytes)
    ensures Encode(Array([BulkString(bytes)])) == [42, 49, 13, 10] + Encode(BulkString(bytes))
    ensures Strings(Array([BulkString(bytes)])) && LineSafe(Array([BulkString(bytes)]))
  {
    var item := BulkString(bytes);
    WireForms([], 0, [item]);
    assert Encodings([item]) == [Encode(item)];
    assert [Encode(item)][1..] == [] && [item][1..] == [];
    assert AllStrings([]) && AllLineSafe([]);
    assert Connections.Flatten([Encode(item)]) == Encode(item) + Connections.Flatten([]);
    assert Print(1) == [49];
  }

  /** A request as a client sends it: `*1`, `$4`, PING. */
  lemma PingRequest()
    ensures var request: Bytes := [42, 49, 13, 10, 36, 52, 13, 10, 80, 73, 78, 71, 13, 10];
            ParseResp(request) == Ok(Parsed(Array([BulkString([80, 73, 78, 71])]), 14))
  {
    var request: Bytes := [42, 49, 13, 10, 36, 52, 13, 10, 80, 73, 78, 71, 13, 10];
    var ping: Bytes := [80, 73, 78, 71];
    OneItem(ping);
    WireForms(ping, 0, []);
    assert Print(4) == [52];
    hide ParseResp, Encode, Print, Strings, LineSafe;
    assert Encode(Array([BulkString(ping)])) == request;
    Codec.RoundTripExactly(Array([BulkString(ping)]));
  }
}
