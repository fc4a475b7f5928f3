/**
 * Properties of the codec: round trips with arbitrary nesting, stability of a
 * parse under more input, prefix-freeness, canonical form and size bounds.
 */
module Codec {
  import opened Bytes
  import opened Decimal
  import opened Resp
  import opened Parser
  import opened Encoder

  // ------------------------------------------------- more input, less input

  /** `w` starts with `p`. */
  ghost predicate Extends(p: Bytes, w: Bytes) {
    |p| <= |w| && w[..|p|] == p
  }

  lemma SamePrefix(p: Bytes, w: Bytes)
    requires Extends(p, w)
    ensures forall i :: 0 <= i < |p| ==> p[i] == w[i]
    ensures forall i, j :: 0 <= i <= j <= |p| ==> p[i..j] == w[i..j]
  {
    assert forall i :: 0 <= i < |p| ==> w[..|p|][i] == w[i];
  }

  /** The first line end does not move when input is added, and needs no input after itself. */
  lemma {:induction false} FindCrlfStable(p: Bytes, w: Bytes, from: nat)
    requires Extends(p, w) && from <= |p|
    ensures FindCrlf(p, from).Some? ==> FindCrlf(w, from) == FindCrlf(p, from)
    ensures FindCrlf(w, from).Some? && FindCrlf(w, from).value + 2 <= |p| ==> FindCrlf(p, from) == FindCrlf(w, from)
    decreases |p| - from
  {
    SamePrefix(p, w);
    if from + 1 >= |p| || (p[from] == CR && p[from + 1] == LF) {
    } else {
      FindCrlfStable(p, w, from + 1);
    }
  }

  lemma ReadLineStable(p: Bytes, w: Bytes, pos: nat)
    requires Extends(p, w) && pos <= |p|
    ensures ReadLine(p, pos).Ok? ==> ReadLine(w, pos) == ReadLine(p, pos)
    ensures ReadLine(w, pos).Ok? && ReadLine(w, pos).value.next <= |p| ==> ReadLine(p, pos) == ReadLine(w, pos)
  {
    FindCrlfStable(p, w, pos);
    SamePrefix(p, w);
  }

  /** A settled answer: a frame, or an error that more input cannot repair. */
  ghost predicate Settled<T>(r: ParseResult<T>) {
    r != Err(Incomplete)
  }

  /** Everything `p` says about input it is a prefix of: settled answers stay, and a
      frame of `w` that ends within `p` is a frame of `p`, otherwise `p` is incomplete. */
  ghost predicate Agree<T>(onPrefix: ParseResult<T>, onWhole: ParseResult<T>, prefixLength: nat) {
    && (Settled(onPrefix) ==> onWhole == onPrefix)
    && (onWhole.Ok? ==>
          onPrefix == if onWhole.value.next <= prefixLength then onWhole else Err(Incomplete))
  }

  lemma ReadNumberAgrees(p: Bytes, w: Bytes, pos: nat)
    requires Extends(p, w) && pos <= |p|
    ensures Agree(ReadNumber(p, pos), ReadNumber(w, pos), |p|)
  {
    ReadLineStable(p, w, pos);
  }

  lemma ReadTextAgrees(p: Bytes, w: Bytes, pos: nat)
    requires Extends(p, w) && pos <= |p|
    ensures Agree(ReadText(p, pos), ReadText(w, pos), |p|)
  {
    ReadLineStable(p, w, pos);
  }

  lemma ReadBulkAgrees(p: Bytes, w: Bytes, pos: nat, len: nat)
    requires Extends(p, w) && pos <= |p|
    ensures Agree(ReadBulkBytes(p, pos, len), ReadBulkBytes(w, pos, len), |p|)
  {
    SamePrefix(p, w);
  }

  lemma {:induction false} ParseValueAgrees(p: Bytes, w: Bytes, pos: nat)
    requires Extends(p, w) && pos <= |p|
    ensures Agree(ParseValue(p, pos), ParseValue(w, pos), |p|)
    decreases |p| - pos, 0
  {
    SamePrefix(p, w);
    hide ReadText, ReadNumber, ParseBulk, ParseArray;
    if pos >= |p| {
    } else {
      if p[pos] == SIMPLE || p[pos] == ERROR {
        ReadTextAgrees(p, w, pos + 1);
      } else if p[pos] == INTEGER {
        ReadNumberAgrees(p, w, pos + 1);
      } else if p[pos] == BULK {
        ParseBulkAgrees(p, w, pos + 1);
      } else if p[pos] == ARRAY {
        ParseArrayAgrees(p, w, pos + 1);
      }
    }
  }

  lemma ParseBulkAgrees(p: Bytes, w: Bytes, pos: nat)
    requires Extends(p, w) && pos <= |p|
    ensures Agree(ParseBulk(p, pos), ParseBulk(w, pos), |p|)
  {
    ReadNumberAgrees(p, w, pos);
    var len := ReadNumber(p, pos);
    if len.Ok? && len.value.value >= 0 {
      ReadBulkAgrees(p, w, len.value.next, len.value.value);
    }
  }

  lemma {:induction false} ParseArrayAgrees(p: Bytes, w: Bytes, pos: nat)
    requires Extends(p, w) && pos <= |p|
    ensures Agree(ParseArray(p, pos), ParseArray(w, pos), |p|)
    decreases |p| - pos, 0
  {
    ReadNumberAgrees(p, w, pos);
    var len := ReadNumber(p, pos);
    if len.Ok? && len.value.value >= 0 {
      ParseItemsAgrees(p, w, len.value.next, len.value.value);
    }
  }

  lemma {:induction false} ParseItemsAgrees(p: Bytes, w: Bytes, pos: nat, count: nat)
    requires Extends(p, w) && pos <= |p|
    ensures Agree(ParseItems(p, pos, count), ParseItems(w, pos, count), |p|)
    decreases |p| - pos, 1
  {
    if count == 0 {
    } else {
      ParseValueAgrees(p, w, pos);
      var first := ParseValue(p, pos);
      if first.Ok? {
        ParseItemsAgrees(p, w, first.value.next, count - 1);
      }
    }
  }

  /** Prefix stability: a frame, or any error but Incomplete, is the answer on every longer input. */
  lemma PrefixStability(p: Bytes, q: Bytes)
    requires ParseResp(p) != Err(Incomplete)
    ensures ParseResp(p + q) == ParseResp(p)
  {
    assert (p + q)[..|p|] == p;
    ParseValueAgrees(p, p + q, 0);
  }

  /** Locality and prefix-freeness: a frame depends only on its own bytes, and no strict prefix of them is settled. */
  lemma PrefixFree(p: Bytes, k: nat)
    requires ParseResp(p).Ok? && k <= |p|
    ensures ParseResp(p[..k]) == if ParseResp(p).value.next <= k then ParseResp(p) else Err(Incomplete)
  {
    ParseValueAgrees(p[..k], p, 0);
  }

  // ------------------------------------------------------------- round trip

  /** `part` stands in `s` at `pos`. */
  ghost predicate Occurs(part: Bytes, s: Bytes, pos: nat) {
    pos + |part| <= |s| && s[pos..pos + |part|] == part
  }

  lemma OccursSplit(a: Bytes, b: Bytes, s: Bytes, pos: nat)
    requires Occurs(a + b, s, pos)
    ensures Occurs(a, s, pos) && Occurs(b, s, pos + |a|)
  {
    var whole := s[pos..pos + |a + b|];
    assert whole[..|a|] == a && whole[|a|..] == b;
    assert s[pos..pos + |a|] == whole[..|a|];
    assert s[pos + |a|..pos + |a| + |b|] == whole[|a|..];
  }

  lemma {:induction false} FindCrlfAt(text: Bytes, s: Bytes, pos: nat, skip: nat)
    requires NoCrlf(text) && Occurs(Line(text), s, pos) && skip <= |text|
    ensures FindCrlf(s, pos + skip) == Some(pos + |text|)
    decreases |text| - skip
  {
    var line := Line(text);
    var window := s[pos..pos + |line|];
    assert s[pos + skip] == window[skip] && s[pos + skip + 1] == window[skip + 1];
    if skip >= |text| {
    } else {
      assert !(line[skip] == CR && line[skip + 1] == LF);
      FindCrlfAt(text, s, pos, skip + 1);
    }
  }

  lemma ReadLineAt(text: Bytes, s: Bytes, pos: nat)
    requires NoCrlf(text) && Occurs(Line(text), s, pos)
    ensures ReadLine(s, pos) == Ok(Parsed(text, pos + |text| + 2))
  {
    FindCrlfAt(text, s, pos, 0);
    OccursSplit(text, CRLF, s, pos);
  }

  lemma PrintIsLine(n: int)
    ensures NoCrlf(Print(n)) && ValidUtf8(Print(n))
  {
    AsciiIsUtf8(Print(n));
    assert n < 0 ==> Print(n)[1..] == Digits(-n);
  }

  lemma ReadNumberAt(n: i64, s: Bytes, pos: nat)
    requires Occurs(Line(Print(n)), s, pos)
    ensures ReadNumber(s, pos) == Ok(Parsed(n, pos + |Print(n)| + 2))
  {
    PrintIsLine(n);
    PrintParseI64(n);
    ReadLineAt(Print(n), s, pos);
  }

  /** The head byte of a value, then the rest of its encoding. */
  lemma HeadByte(b: byte, tail: Bytes, s: Bytes, pos: nat)
    requires Occurs([b] + tail, s, pos)
    ensures pos < |s| && s[pos] == b && Occurs(tail, s, pos + 1)
  {
    OccursSplit([b], tail, s, pos);
    assert s[pos..pos + 1][0] == b;
  }

  lemma {:induction false} ValueRoundTrip(v: Resp, s: Bytes, pos: nat)
    requires Strings(v) && LineSafe(v) && |s| <= ISIZE_MAX && Occurs(Encode(v), s, pos)
    ensures ParseValue(s, pos) == Ok(Parsed(v, pos + |Encode(v)|))
    decreases v, 1
  {
    hide ParseValue, Print, ValidUtf8, NoCrlf;
    match v {
      case SimpleString(text) => SimpleRoundTrip(text, s, pos);
      case Error(text) => ErrorRoundTrip(text, s, pos);
      case Integer(number) => IntegerRoundTrip(number, s, pos);
      case BulkString(bytes) => BulkRoundTrip(bytes, s, pos);
      case Array(items) => ArrayRoundTrip(items, s, pos);
      case Null => NullRoundTrip(s, pos);
    }
  }

  lemma ReadTextAt(text: Bytes, s: Bytes, pos: nat)
    requires ValidUtf8(text) && NoCrlf(text) && Occurs(Line(text), s, pos)
    ensures ReadText(s, pos) == Ok(Parsed(text, pos + |text| + 2))
  {
    ReadLineAt(text, s, pos);
  }

  lemma SimpleRoundTrip(text: Bytes, s: Bytes, pos: nat)
    requires ValidUtf8(text) && NoCrlf(text) && Occurs([SIMPLE] + Line(text), s, pos)
    ensures ParseValue(s, pos) == Ok(Parsed(SimpleString(text), pos + |text| + 3))
  {
    hide ValidUtf8, NoCrlf, ParseArray, ParseBulk, ParseNumber;
    HeadByte(SIMPLE, Line(text), s, pos);
    ReadTextAt(text, s, pos + 1);
  }

  lemma ErrorRoundTrip(text: Bytes, s: Bytes, pos: nat)
    requires ValidUtf8(text) && NoCrlf(text) && Occurs([ERROR] + Line(text), s, pos)
    ensures ParseValue(s, pos) == Ok(Parsed(Error(text), pos + |text| + 3))
  {
    hide ValidUtf8, NoCrlf, ParseArray, ParseBulk, ParseNumber;
    HeadByte(ERROR, Line(text), s, pos);
    ReadTextAt(text, s, pos + 1);
  }

  lemma IntegerRoundTrip(number: i64, s: Bytes, pos: nat)
    requires Occurs([INTEGER] + Line(Print(number)), s, pos)
    ensures ParseValue(s, pos) == Ok(Parsed(Integer(number), pos + |Print(number)| + 3))
  {
    HeadByte(INTEGER, Line(Print(number)), s, pos);
    ReadNumberAt(number, s, pos + 1);
  }

  lemma NullRoundTrip(s: Bytes, pos: nat)
    requires Occurs([BULK] + Line(Print(-1)), s, pos)
    ensures ParseValue(s, pos) == Ok(Parsed(Null, pos + |Print(-1)| + 3))
  {
    HeadByte(BULK, Line(Print(-1)), s, pos);
    ReadNumberAt(-1, s, pos + 1);
  }

  lemma BulkRoundTrip(bytes: Bytes, s: Bytes, pos: nat)
    requires |s| <= ISIZE_MAX && Occurs([BULK] + (Line(Print(|bytes|)) + Line(bytes)), s, pos)
    ensures ParseValue(s, pos) == Ok(Parsed(BulkString(bytes), pos + |Print(|bytes|)| + |bytes| + 5))
  {
    var header := Line(Print(|bytes|));
    hide Print, ReadNumber, ReadBulkBytes, ParseArray, ParseText, ParseNumber;
    HeadByte(BULK, header + Line(bytes), s, pos);
    OccursSplit(header, Line(bytes), s, pos + 1);
    ReadNumberAt(|bytes|, s, pos + 1);
    BulkBytesAt(bytes, s, pos + 1 + |header|);
  }

  lemma BulkBytesAt(bytes: Bytes, s: Bytes, pos: nat)
    requires |s| <= ISIZE_MAX && Occurs(Line(bytes), s, pos)
    ensures ReadBulkBytes(s, pos, |bytes|) == Ok(Parsed(bytes, pos + |bytes| + 2))
  {
    OccursSplit(bytes, CRLF, s, pos);
    var end := s[pos + |bytes|..pos + |bytes| + 2];
    assert end[0] == CR && end[1] == LF;
  }

  lemma {:induction false} ArrayRoundTrip(items: seq<Resp>, s: Bytes, pos: nat)
    requires AllStrings(items) && AllLineSafe(items) && |s| <= ISIZE_MAX
    requires Occurs([ARRAY] + (Line(Print(|items|)) + EncodeAll(items)), s, pos)
    ensures ParseValue(s, pos)
         == Ok(Parsed(Array(items), pos + |Print(|items|)| + |EncodeAll(items)| + 3))
    decreases items, 1
  {
    var header := Line(Print(|items|));
    hide Print, Encode, EncodeAll, Strings, LineSafe, ParseItems, ReadNumber, ParseBulk, ParseText, ParseNumber;
    HeadByte(ARRAY, header + EncodeAll(items), s, pos);
    OccursSplit(header, EncodeAll(items), s, pos + 1);
    ReadNumberAt(|items|, s, pos + 1);
    ItemsRoundTrip(items, s, pos + 1 + |header|);
  }

  lemma {:induction false} ItemsRoundTrip(items: seq<Resp>, s: Bytes, pos: nat)
    requires AllStrings(items) && AllLineSafe(items) && |s| <= ISIZE_MAX && Occurs(EncodeAll(items), s, pos)
    ensures ParseItems(s, pos, |items|) == Ok(Parsed(items, pos + |EncodeAll(items)|))
    decreases items, 0
  {
    hide ParseValue, ParseArray, ParseBulk, Encode, Print, Strings, LineSafe;
    if |items| == 0 {
    } else {
      var first, rest := items[0], items[1..];
      OccursSplit(Encode(first), EncodeAll(rest), s, pos);
      ValueRoundTrip(first, s, pos);
      ItemsRoundTrip(rest, s, pos + |Encode(first)|);
      ItemsStep(s, pos, |items|, Parsed(first, pos + |Encode(first)|));
      assert items == [first] + rest;
    }
  }

  /** One unfolding of a list parse. */
  lemma ItemsStep(s: Bytes, pos: nat, count: nat, first: Parsed<Resp>)
    requires pos <= |s| && count > 0 && ParseValue(s, pos) == Ok(first)
    ensures ParseItems(s, pos, count) == Prepend([first.value], ParseItems(s, first.next, count - 1))
  {
  }

  /** Round trip at any nesting depth, whatever follows the encoding. */
  lemma RoundTrip(v: Resp, rest: Bytes)
    requires Strings(v) && LineSafe(v) && |Encode(v) + rest| <= ISIZE_MAX
    ensures ParseResp(Encode(v) + rest) == Ok(Parsed(v, |Encode(v)|))
  {
    hide Encode, ParseValue;
    var s := Encode(v) + rest;
    assert s[0..0 + |Encode(v)|] == Encode(v);
    ValueRoundTrip(v, s, 0);
  }

  // --------------------------------------------------------- canonical form

  lemma FirstCrlf(s: Bytes, from: nat)
    requires from <= |s| && FindCrlf(s, from).Some?
    ensures NoCrlf(s[from..FindCrlf(s, from).value])
  {
    FirstPair(s, from);
    var line := s[from..FindCrlf(s, from).value];
    forall i | 0 <= i < |line| - 1 ensures !(line[i] == CR && line[i + 1] == LF) {
      assert !CrlfAt(s, from + i);
    }
  }

  lemma AcceptedText(s: Bytes, pos: nat)
    requires pos <= |s| && ReadText(s, pos).Ok?
    ensures var p := ReadText(s, pos).value;
            ValidUtf8(p.value) && NoCrlf(p.value) && |p.value| + 2 == p.next - pos
  {
    FirstCrlf(s, pos);
  }

  lemma AcceptedNumber(s: Bytes, pos: nat)
    requires pos <= |s| && ReadNumber(s, pos).Ok?
    ensures |Print(ReadNumber(s, pos).value.value)| + 2 <= ReadNumber(s, pos).value.next - pos
  {
    PrintShortest(ReadLine(s, pos).value.value);
  }

  /** What acceptance of a value says about it: Rust strings, no CR LF pair in a line,
      and an encoding and a node count bounded by the bytes it was read from. */
  ghost predicate Accepted(v: Resp, consumed: int) {
    Strings(v) && LineSafe(v) && |Encode(v)| <= consumed && 3 * Nodes(v) <= consumed
  }

  lemma {:induction false} AcceptedValue(s: Bytes, pos: nat)
    requires pos <= |s| && ParseValue(s, pos).Ok?
    ensures Accepted(ParseValue(s, pos).value.value, ParseValue(s, pos).value.next - pos)
    decreases |s| - pos, 0
  {
    hide ReadText, ReadNumber, ReadBulkBytes, ParseItems, Print;
    if s[pos] == SIMPLE || s[pos] == ERROR {
      AcceptedText(s, pos + 1);
    } else if s[pos] == INTEGER {
      AcceptedNumber(s, pos + 1);
    } else if s[pos] == BULK {
      AcceptedBulk(s, pos + 1);
    } else {
      AcceptedArray(s, pos + 1);
    }
  }

  lemma AcceptedBulk(s: Bytes, pos: nat)
    requires pos <= |s| && ParseBulk(s, pos).Ok?
    ensures Accepted(ParseBulk(s, pos).value.value, ParseBulk(s, pos).value.next - pos + 1)
  {
    hide ReadNumber, Print;
    AcceptedNumber(s, pos);
  }

  lemma {:induction false} AcceptedArray(s: Bytes, pos: nat)
    requires pos <= |s| && ParseArray(s, pos).Ok?
    ensures Accepted(ParseArray(s, pos).value.value, ParseArray(s, pos).value.next - pos + 1)
    decreases |s| - pos, 0
  {
    hide ReadNumber, Print, ParseItems;
    AcceptedNumber(s, pos);
    var len := ReadNumber(s, pos).value;
    if len.value >= 0 {
      AcceptedItems(s, len.next, len.value);
    }
  }

  lemma {:induction false} AcceptedItems(s: Bytes, pos: nat, count: nat)
    requires pos <= |s| && ParseItems(s, pos, count).Ok?
    ensures var p := ParseItems(s, pos, count).value;
            && AllStrings(p.value) && AllLineSafe(p.value)
            && |EncodeAll(p.value)| <= p.next - pos
            && 3 * NodesOfAll(p.value) <= p.next - pos
    decreases |s| - pos, 1
  {
    hide ParseValue, Encode, Nodes, Strings, LineSafe;
    if count == 0 {
    } else {
      AcceptedValue(s, pos);
      var first := ParseValue(s, pos).value;
      AcceptedItems(s, first.next, count - 1);
      var p := ParseItems(s, pos, count).value;
      ItemsStep(s, pos, count, first);
      assert p.value[0] == first.value;
      assert p.value[1..] == ParseItems(s, first.next, count - 1).value.value;
    }
  }

  /** Re-encoding an accepted frame and parsing it again is the identity, and never grows. */
  lemma Canonicalisation(s: Bytes, rest: Bytes)
    requires ParseResp(s).Ok? && |s| + |rest| <= ISIZE_MAX
    ensures var p := ParseResp(s).value;
            && |Encode(p.value)| <= p.next
            && ParseResp(Encode(p.value) + rest) == Ok(Parsed(p.value, |Encode(p.value)|))
  {
    AcceptedValue(s, 0);
    RoundTrip(ParseResp(s).value.value, rest);
  }

  /** A value of Rust strings survives the codec exactly when none of its line texts holds a CR LF pair. */
  lemma RoundTripExactly(v: Resp)
    requires Strings(v) && |Encode(v)| <= ISIZE_MAX
    ensures ParseResp(Encode(v)) == Ok(Parsed(v, |Encode(v)|)) <==> LineSafe(v)
  {
    if LineSafe(v) {
      RoundTrip(v, []);
      assert Encode(v) + [] == Encode(v);
    } else if ParseResp(Encode(v)).Ok? {
      AcceptedValue(Encode(v), 0);
    }
  }

  /** Two different accepted frames have different encodings. */
  lemma EncodeInjective(a: Resp, b: Resp)
    requires Strings(a) && LineSafe(a) && Strings(b) && LineSafe(b)
    requires Encode(a) == Encode(b) && |Encode(a)| <= ISIZE_MAX
    ensures a == b
  {
    RoundTripExactly(a);
    RoundTripExactly(b);
  }

  /** Every node of an accepted frame took at least three bytes of input. */
  lemma SizeBound(s: Bytes)
    requires ParseResp(s).Ok?
    ensures 3 * Nodes(ParseResp(s).value.value) <= ParseResp(s).value.next <= |s|
  {
    AcceptedValue(s, 0);
  }
}
