/** The RESP encoder: `Encode` is the text of a value, `EncodeInto` appends it to a buffer. */
module Encoder {
  import opened Bytes
  import opened Decimal
  import opened Resp

  /** Text closed by CR LF. */
  function Line(text: Bytes): Bytes {
    text + CRLF
  }

  function Encode(v: Resp): (r: Bytes)
    ensures |r| >= 3
    decreases v, 1
  {
    match v
    case SimpleString(text) => [SIMPLE] + Line(text)
    case Error(text) => [ERROR] + Line(text)
    case Integer(number) => [INTEGER] + Line(Print(number))
    case BulkString(bytes) => [BULK] + (Line(Print(|bytes|)) + Line(bytes))
    case Array(items) => [ARRAY] + (Line(Print(|items|)) + EncodeAll(items))
    case Null => [BULK] + Line(Print(-1))
  }

  function EncodeAll(items: seq<Resp>): (r: Bytes)
    ensures |r| >= 3 * |items|
    decreases items, 0
  {
    if |items| == 0 then [] else Encode(items[0]) + EncodeAll(items[1..])
  }

  lemma {:induction false} EncodeAllSnoc(items: seq<Resp>, last: Resp)
    ensures EncodeAll(items + [last]) == EncodeAll(items) + Encode(last)
  {
    hide Encode;
    if |items| == 0 {
      assert EncodeAll([last][1..]) == [];
      assert [] + [last] == [last];
    } else {
      EncodeAllSnoc(items[1..], last);
      assert (items + [last])[1..] == items[1..] + [last];
    }
  }

  /** The growing output vector of the encoder. */
  class Output {
    var bytes: Bytes

    constructor ()
      ensures bytes == []
    {
      bytes := [];
    }

    method Push(b: byte)
      modifies this
      ensures bytes == old(bytes) + [b]
    {
      bytes := bytes + [b];
    }

    method Extend(more: Bytes)
      modifies this
      ensures bytes == old(bytes) + more
    {
      bytes := bytes + more;
    }
  }

  lemma PrintMinusOne()
    ensures Print(-1) == [MINUS, 49]
  {
  }

  method EncodeInto(value: Resp, output: Output)
    modifies output
    ensures output.bytes == old(output.bytes) + Encode(value)
    decreases value, 1
  {
    hide Print, EncodeAll;
    ghost var before := output.bytes;
    match value {
      case SimpleString(text) =>
        output.Push(SIMPLE);
        output.Extend(text);
        output.Extend(CRLF);
        assert output.bytes == before + ([SIMPLE] + Line(text));
      case Error(text) =>
        output.Push(ERROR);
        output.Extend(text);
        output.Extend(CRLF);
        assert output.bytes == before + ([ERROR] + Line(text));
      case Integer(number) =>
        output.Push(INTEGER);
        output.Extend(Print(number));
        output.Extend(CRLF);
        assert output.bytes == before + ([INTEGER] + Line(Print(number)));
      case BulkString(bytes) =>
        output.Push(BULK);
        output.Extend(Print(|bytes|));
        output.Extend(CRLF);
        output.Extend(bytes);
        output.Extend(CRLF);
        assert output.bytes == before + ([BULK] + (Line(Print(|bytes|)) + Line(bytes)));
      case Array(items) =>
        output.Push(ARRAY);
        output.Extend(Print(|items|));
        output.Extend(CRLF);
        EncodeItems(items, output);
        assert output.bytes == before + ([ARRAY] + (Line(Print(|items|)) + EncodeAll(items)));
      case Null =>
        output.Extend([BULK, MINUS, 49, CR, LF]);
        PrintMinusOne();
        assert [BULK] + Line(Print(-1)) == [BULK, MINUS, 49, CR, LF];
    }
  }

  /** The loop over the elements of an array. */
  method EncodeItems(items: seq<Resp>, output: Output)
    modifies output
    ensures output.bytes == old(output.bytes) + EncodeAll(items)
    decreases items, 0
  {
    ghost var before := output.bytes;
    for i := 0 to |items|
      invariant output.bytes == before + EncodeAll(items[..i])
    {
      EncodeInto(items[i], output);
      EncodeAllSnoc(items[..i], items[i]);
      assert items[..i + 1] == items[..i] + [items[i]];
    }
    assert items[..|items|] == items;
  }

  method EncodeResp(value: Resp) returns (r: Bytes)
    ensures r == Encode(value)
  {
    var output := new Output();
    EncodeInto(value, output);
    r := output.bytes;
  }
}
