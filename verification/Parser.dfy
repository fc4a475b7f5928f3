/**
 * The RESP parser: `ParseValue` says what a cursor at `pos` reads, and the
 * class `RespParser` moves that cursor step by step as the source does.
 */
module Parser {
  import opened Bytes
  import opened Decimal
  import opened Resp

  datatype Parsed<+T> = Parsed(value: T, next: nat)

  type ParseResult<+T> = Result<Parsed<T>, ProtocolError>

  // ---------------------------------------------------------- specification

  /** Position of the first CR LF pair at or after `from`. */
  function FindCrlf(s: Bytes, from: nat): (r: Option<nat>)
    requires from <= |s|
    ensures r.Some? ==> from <= r.value && r.value + 2 <= |s|
    decreases |s| - from
  {
    if from + 1 >= |s| then None
    else if s[from] == CR && s[from + 1] == LF then Some(from)
    else FindCrlf(s, from + 1)
  }

  predicate CrlfAt(s: Bytes, i: nat) {
    i + 1 < |s| && s[i] == CR && s[i + 1] == LF
  }

  /** What is found is a pair and none comes before it; nothing is found exactly when there is none. */
  lemma {:induction false} FirstPair(s: Bytes, from: nat)
    requires from <= |s|
    ensures FindCrlf(s, from).None? <==> forall i :: from <= i < |s| ==> !CrlfAt(s, i)
    ensures FindCrlf(s, from).Some? ==>
              && CrlfAt(s, FindCrlf(s, from).value)
              && forall i :: from <= i < FindCrlf(s, from).value ==> !CrlfAt(s, i)
    decreases |s| - from
  {
    if from + 1 >= |s| {
    } else if CrlfAt(s, from) {
      assert FindCrlf(s, from) == Some(from);
    } else {
      FirstPair(s, from + 1);
    }
  }

  function ReadLine(s: Bytes, pos: nat): (r: ParseResult<Bytes>)
    requires pos <= |s|
    ensures r.Ok? ==> pos + 2 <= r.value.next <= |s| && r.value.value == s[pos..r.value.next - 2]
  {
    match FindCrlf(s, pos)
    case None => Err(Incomplete)
    case Some(end) => Ok(Parsed(s[pos..end], end + 2))
  }

  function ParseInteger(line: Bytes): Result<i64, ProtocolError> {
    if !ValidUtf8(line) then Err(InvalidInteger)
    else match ParseI64(line)
      case None => Err(InvalidInteger)
      case Some(n) => Ok(n)
  }

  /** A line holding a decimal integer. */
  function ReadNumber(s: Bytes, pos: nat): (r: ParseResult<i64>)
    requires pos <= |s|
    ensures r.Ok? ==> pos + 2 <= r.value.next <= |s|
  {
    match ReadLine(s, pos)
    case Err(e) => Err(e)
    case Ok(line) =>
      match ParseInteger(line.value)
      case Err(e) => Err(e)
      case Ok(n) => Ok(Parsed(n, line.next))
  }

  /** A line holding text. */
  function ReadText(s: Bytes, pos: nat): (r: ParseResult<Bytes>)
    requires pos <= |s|
    ensures r.Ok? ==> pos + 2 <= r.value.next <= |s|
  {
    match ReadLine(s, pos)
    case Err(e) => Err(e)
    case Ok(line) => if ValidUtf8(line.value) then Ok(line) else Err(InvalidUtf8)
  }

  function ReadBulkBytes(s: Bytes, pos: nat, len: nat): (r: ParseResult<Bytes>)
    requires pos <= |s|
    ensures r.Ok? ==> pos + 2 <= r.value.next <= |s|
  {
    var end := pos + len;
    if end + 2 > USIZE_MAX then Err(InvalidFormat(BulkOverflow))
    else if end + 2 > |s| then Err(Incomplete)
    else if s[end] != CR || s[end + 1] != LF then Err(InvalidFormat(BulkTerminator))
    else Ok(Parsed(s[pos..end], end + 2))
  }

  function ParseText(s: Bytes, pos: nat, tag: byte): (r: ParseResult<Resp>)
    requires pos <= |s|
    ensures r.Ok? ==> pos + 2 <= r.value.next <= |s|
  {
    match ReadText(s, pos)
    case Err(e) => Err(e)
    case Ok(p) => Ok(Parsed(if tag == SIMPLE then SimpleString(p.value) else Error(p.value), p.next))
  }

  function ParseNumber(s: Bytes, pos: nat): (r: ParseResult<Resp>)
    requires pos <= |s|
    ensures r.Ok? ==> pos + 2 <= r.value.next <= |s|
  {
    match ReadNumber(s, pos)
    case Err(e) => Err(e)
    case Ok(p) => Ok(Parsed(Integer(p.value), p.next))
  }

  function ParseBulk(s: Bytes, pos: nat): (r: ParseResult<Resp>)
    requires pos <= |s|
    ensures r.Ok? ==> pos + 2 <= r.value.next <= |s|
  {
    match ReadNumber(s, pos)
    case Err(e) => Err(e)
    case Ok(len) =>
      if len.value == -1 then Ok(Parsed(Null, len.next))
      else if len.value < -1 then Err(InvalidFormat(BulkLength))
      else
        match ReadBulkBytes(s, len.next, len.value)
        case Err(e) => Err(e)
        case Ok(p) => Ok(Parsed(BulkString(p.value), p.next))
  }

  function ParseArray(s: Bytes, pos: nat): (r: ParseResult<Resp>)
    requires pos <= |s|
    ensures r.Ok? ==> pos + 2 <= r.value.next <= |s|
    decreases |s| - pos, 0
  {
    match ReadNumber(s, pos)
    case Err(e) => Err(e)
    case Ok(len) =>
      if len.value == -1 then Ok(Parsed(Null, len.next))
      else if len.value < -1 then Err(InvalidFormat(ArrayLength))
      else
        match ParseItems(s, len.next, len.value)
        case Err(e) => Err(e)
        case Ok(p) => Ok(Parsed(Array(p.value), p.next))
  }

  /** One value whose type byte is at `pos`. */
  function ParseValue(s: Bytes, pos: nat): (r: ParseResult<Resp>)
    requires pos <= |s|
    ensures r.Ok? ==> pos + 3 <= r.value.next <= |s|
    decreases |s| - pos, 0
  {
    if pos == |s| then Err(Incomplete)
    else if s[pos] == SIMPLE || s[pos] == ERROR then ParseText(s, pos + 1, s[pos])
    else if s[pos] == INTEGER then ParseNumber(s, pos + 1)
    else if s[pos] == BULK then ParseBulk(s, pos + 1)
    else if s[pos] == ARRAY then ParseArray(s, pos + 1)
    else Err(InvalidTypeByte(s[pos]))
  }

  /** `count` values in a row; terminates for every declared count because each value takes input. */
  function ParseItems(s: Bytes, pos: nat, count: nat): (r: ParseResult<seq<Resp>>)
    requires pos <= |s|
    ensures r.Ok? ==> pos <= r.value.next <= |s| && |r.value.value| == count
    decreases |s| - pos, 1
  {
    if count == 0 then Ok(Parsed([], pos))
    else
      match ParseValue(s, pos)
      case Err(e) => Err(e)
      case Ok(first) =>
        match ParseItems(s, first.next, count - 1)
        case Err(e) => Err(e)
        case Ok(rest) => Ok(Parsed([first.value] + rest.value, rest.next))
  }

  /** `parse_resp`: one frame from the start of `s`, with the number of bytes it took. */
  function ParseResp(s: Bytes): (r: ParseResult<Resp>)
    ensures r.Ok? ==> 3 <= r.value.next <= |s|
  {
    ParseValue(s, 0)
  }

  // --------------------------------------------------------- the cursor class

  /** What a successful or failed read leaves behind: the spec's answer, the cursor after it. */
  ghost predicate Matches<T>(r: Result<T, ProtocolError>, pos: nat, spec: ParseResult<T>) {
    match spec
    case Ok(p) => r == Ok(p.value) && pos == p.next
    case Err(e) => r == Err(e)
  }

  class RespParser {
    const input: Bytes
    var pos: nat

    ghost predicate Valid()
      reads this
    {
      pos <= |input|
    }

    constructor (input: Bytes)
      ensures Valid() && this.input == input && pos == 0
    {
      this.input := input;
      pos := 0;
    }

    method ReadLineAtCursor() returns (r: Result<Bytes, ProtocolError>)
      requires Valid()
      modifies this
      ensures Valid() && old(pos) <= pos
      ensures Matches(r, pos, ReadLine(input, old(pos)))
    {
      var start := pos;
      var end := pos;
      while end + 1 < |input|
        invariant start <= end <= |input|
        invariant pos == start
        invariant FindCrlf(input, start) == FindCrlf(input, end)
      {
        if input[end] == CR && input[end + 1] == LF {
          pos := end + 2;
          return Ok(input[start..end]);
        }
        end := end + 1;
      }
      return Err(Incomplete);
    }

    method ReadBulkAtCursor(len: nat) returns (r: Result<Bytes, ProtocolError>)
      requires Valid()
      modifies this
      ensures Valid() && old(pos) <= pos
      ensures Matches(r, pos, ReadBulkBytes(input, old(pos), len))
    {
      var start := pos;
      var end := start + len;
      if end > USIZE_MAX {
        return Err(InvalidFormat(BulkOverflow));
      }
      var crlfEnd := end + 2;
      if crlfEnd > USIZE_MAX {
        return Err(InvalidFormat(BulkOverflow));
      }
      if crlfEnd > |input| {
        return Err(Incomplete);
      }
      if input[end] != CR || input[end + 1] != LF {
        return Err(InvalidFormat(BulkTerminator));
      }
      pos := crlfEnd;
      return Ok(input[start..end]);
    }

    method ReadNumberAtCursor() returns (r: Result<i64, ProtocolError>)
      requires Valid()
      modifies this
      ensures Valid() && old(pos) <= pos
      ensures Matches(r, pos, ReadNumber(input, old(pos)))
    {
      var line := ReadLineAtCursor();
      match line {
        case Err(e) => r := Err(e);
        case Ok(bytes) => r := ParseInteger(bytes);
      }
    }

    method ParseTextAtCursor(tag: byte) returns (r: Result<Resp, ProtocolError>)
      requires Valid()
      modifies this
      ensures Valid() && old(pos) <= pos
      ensures Matches(r, pos, ParseText(input, old(pos), tag))
    {
      var line := ReadLineAtCursor();
      match line {
        case Err(e) => r := Err(e);
        case Ok(text) =>
          if !ValidUtf8(text) {
            r := Err(InvalidUtf8);
          } else {
            r := Ok(if tag == SIMPLE then SimpleString(text) else Error(text));
          }
      }
    }

    method ParseIntegerAtCursor() returns (r: Result<Resp, ProtocolError>)
      requires Valid()
      modifies this
      ensures Valid() && old(pos) <= pos
      ensures Matches(r, pos, ParseNumber(input, old(pos)))
    {
      var number := ReadNumberAtCursor();
      match number {
        case Err(e) => r := Err(e);
        case Ok(n) => r := Ok(Integer(n));
      }
    }

    method ParseBulkString() returns (r: Result<Resp, ProtocolError>)
      requires Valid()
      modifies this
      ensures Valid() && old(pos) <= pos
      ensures Matches(r, pos, ParseBulk(input, old(pos)))
    {
      var len := ReadNumberAtCursor();
      match len {
        case Err(e) => r := Err(e);
        case Ok(n) =>
          if n == -1 {
            return Ok(Null);
          }
          if n < -1 {
            return Err(InvalidFormat(BulkLength));
          }
          var bytes := ReadBulkAtCursor(n);
          match bytes {
            case Err(e) => r := Err(e);
            case Ok(b) => r := Ok(BulkString(b));
          }
      }
    }

    method ParseArrayAtCursor() returns (r: Result<Resp, ProtocolError>)
      requires Valid()
      modifies this
      ensures Valid() && old(pos) <= pos
      ensures Matches(r, pos, ParseArray(input, old(pos)))
      decreases |input| - pos, 0
    {
      var len := ReadNumberAtCursor();
      match len {
        case Err(e) => r := Err(e);
        case Ok(n) =>
          if n == -1 {
            return Ok(Null);
          }
          if n < -1 {
            return Err(InvalidFormat(ArrayLength));
          }
          ghost var start := pos;
          var values: seq<Resp> := [];
          PrependNil(ParseItems(input, pos, n));
          for i := 0 to n
            invariant Valid() && start <= pos && |values| == i
            invariant ParseItems(input, start, n) == Prepend(values, ParseItems(input, pos, n - i))
          {
            ghost var before := pos;
            var value := ParseNext();
            match value {
              case Err(e) =>
                return Err(e);
              case Ok(v) =>
                PrependCons(values, v, ParseItems(input, pos, n - i - 1));
                values := values + [v];
            }
          }
          r := Ok(Array(values));
          assert values + [] == values;
      }
    }

    method ParseNext() returns (r: Result<Resp, ProtocolError>)
      requires Valid()
      modifies this
      ensures Valid() && old(pos) <= pos
      ensures Matches(r, pos, ParseValue(input, old(pos)))
      decreases |input| - pos, 1
    {
      if pos >= |input| {
        return Err(Incomplete);
      }
      var typeByte := input[pos];
      pos := pos + 1;
      if typeByte == SIMPLE || typeByte == ERROR {
        r := ParseTextAtCursor(typeByte);
      } else if typeByte == INTEGER {
        r := ParseIntegerAtCursor();
      } else if typeByte == BULK {
        r := ParseBulkString();
      } else if typeByte == ARRAY {
        r := ParseArrayAtCursor();
      } else {
        r := Err(InvalidTypeByte(typeByte));
      }
    }
  }

  /** A list read so far in front of what the rest of the list gives. */
  ghost function Prepend(values: seq<Resp>, rest: ParseResult<seq<Resp>>): ParseResult<seq<Resp>> {
    match rest
    case Err(e) => Err(e)
    case Ok(p) => Ok(Parsed(values + p.value, p.next))
  }

  lemma PrependNil(rest: ParseResult<seq<Resp>>)
    ensures Prepend([], rest) == rest
  {
    if rest.Ok? {
      assert [] + rest.value.value == rest.value.value;
    }
  }

  lemma PrependCons(values: seq<Resp>, v: Resp, rest: ParseResult<seq<Resp>>)
    ensures Prepend(values, Prepend([v], rest)) == Prepend(values + [v], rest)
  {
    if rest.Ok? {
      assert values + ([v] + rest.value.value) == values + [v] + rest.value.value;
    }
  }

  method ParseRespBytes(input: Bytes) returns (r: Result<Parsed<Resp>, ProtocolError>)
    ensures r == ParseResp(input)
  {
    var parser := new RespParser(input);
    var value := parser.ParseNext();
    match value {
      case Err(e) => r := Err(e);
      case Ok(v) => r := Ok(Parsed(v, parser.pos));
    }
  }
}
