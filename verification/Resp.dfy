/** RESP values and protocol errors. */
module Resp {
  import opened Bytes
  import opened Decimal

  /** `RespFrame` (borrowed) and `RespValue` (owned) differ in ownership only; one type stands for both. */
  datatype Resp =
    | SimpleString(text: Bytes)
    | Error(text: Bytes)
    | Integer(number: i64)
    | BulkString(bytes: Bytes)
    | Array(items: seq<Resp>)
    | Null

  datatype FormatError = BulkLength | ArrayLength | BulkOverflow | BulkTerminator

  datatype ProtocolError =
    | Incomplete
    | InvalidTypeByte(byte: byte)
    | InvalidInteger
    | InvalidUtf8
    | InvalidFormat(reason: FormatError)

  const SIMPLE: byte := 43   // '+'
  const ERROR: byte := 45    // '-'
  const INTEGER: byte := 58  // ':'
  const BULK: byte := 36     // '$'
  const ARRAY: byte := 42    // '*'

  /** A bulk string for every text. */
  function Bulks(texts: seq<Bytes>): (r: seq<Resp>)
    ensures |r| == |texts|
  {
    if |texts| == 0 then [] else [BulkString(texts[0])] + Bulks(texts[1..])
  }

  /** Number of RESP nodes in a value. */
  function Nodes(v: Resp): (n: nat)
    ensures n >= 1
    decreases v, 1
  {
    match v
    case Array(items) => 1 + NodesOfAll(items)
    case _ => 1
  }

  function NodesOfAll(items: seq<Resp>): nat
    decreases items, 0
  {
    if |items| == 0 then 0 else Nodes(items[0]) + NodesOfAll(items[1..])
  }

  /** No CR LF pair; a lone CR, also at the end, is fine. */
  predicate NoCrlf(text: Bytes) {
    forall i :: 0 <= i < |text| - 1 ==> !(text[i] == CR && text[i + 1] == LF)
  }

  /** Every text in the value is a Rust string. */
  predicate Strings(v: Resp)
    decreases v, 1
  {
    match v
    case SimpleString(text) => ValidUtf8(text)
    case Error(text) => ValidUtf8(text)
    case Array(items) => AllStrings(items)
    case _ => true
  }

  predicate AllStrings(items: seq<Resp>)
    decreases items, 0
  {
    |items| == 0 || (Strings(items[0]) && AllStrings(items[1..]))
  }

  /** Values the line-based forms can carry: their texts hold no CR LF pair. */
  predicate LineSafe(v: Resp)
    decreases v, 1
  {
    match v
    case SimpleString(text) => NoCrlf(text)
    case Error(text) => NoCrlf(text)
    case Array(items) => AllLineSafe(items)
    case _ => true
  }

  predicate AllLineSafe(items: seq<Resp>)
    decreases items, 0
  {
    |items| == 0 || (LineSafe(items[0]) && AllLineSafe(items[1..]))
  }
}
