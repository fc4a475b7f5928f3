/** Pipelined values over a connection: whatever the chunks, what was sent is what arrives. */
module Requests {
  import opened Bytes
  import opened Resp
  import opened Parser
  import opened Encoder
  import opened Codec
  import opened Commands
  import opened LogCodec
  import opened Connections
  import opened Wire

  /** Values the wire can carry. */
  predicate Sendable(values: seq<Resp>) {
    forall i :: 0 <= i < |values| ==> Strings(values[i]) && LineSafe(values[i])
  }

  /** The parse loop cuts a stream of encodings into just these. */
  lemma {:induction false} StreamCut(values: seq<Resp>)
    requires Sendable(values) && |Flatten(Encodings(values))| <= ISIZE_MAX
    ensures OneShot(Flatten(Encodings(values))) == Session(Encodings(values), Closed, [])
  {
    ShortestFrame();
    hide Encode, ParseResp, Strings, LineSafe;
    if |values| == 0 {
    } else {
      var first, rest := Encode(values[0]), Flatten(Encodings(values[1..]));
      assert Encodings(values)[1..] == Encodings(values[1..]);
      assert Flatten(Encodings(values)) == first + rest;
      RoundTrip(values[0], rest);
      StreamCut(values[1..]);
      assert (first + rest)[..|first|] == first && (first + rest)[|first|..] == rest;
      assert Encodings(values) == [first] + Encodings(values[1..]);
    }
  }

  /** Values sent one after the other arrive as frames of their own, in order, under any chunking that keeps within
      the size limit, and each frame parses to the value it was made of. */
  lemma ValuesArrive(values: seq<Resp>, chunks: seq<Bytes>, max: nat)
    requires Sendable(values) && Flatten(chunks) == Flatten(Encodings(values)) && |Flatten(chunks)| <= ISIZE_MAX
    requires !SomeReadOverfills(chunks, max)
    ensures RunSession([], chunks, max).frames == Encodings(values) && RunSession([], chunks, max).end == Closed
    ensures forall i :: 0 <= i < |values|
              ==> ParseResp(Encodings(values)[i]) == Ok(Parsed(values[i], |Encodings(values)[i]|))
  {
    StreamCut(values);
    ChunkingIndependence(chunks, max);
    hide Encode, ParseResp, Strings, LineSafe, SomeReadOverfills;
    forall i | 0 <= i < |values| ensures ParseResp(Encodings(values)[i]) == Ok(Parsed(values[i], |Encodings(values)[i]|)) {
      FlattenPart(Encodings(values), i);
      assert Encode(values[i]) + [] == Encode(values[i]);
      RoundTrip(values[i], []);
    }
  }

  lemma {:induction false} FlattenPart(parts: seq<Bytes>, i: nat)
    requires i < |parts|
    ensures |parts[i]| <= |Flatten(parts)|
  {
    if i > 0 {
      FlattenPart(parts[1..], i - 1);
    }
  }

  function Asked(requests: seq<seq<Bytes>>): (r: seq<Resp>)
    ensures |r| == |requests| && forall i :: 0 <= i < |r| ==> r[i] == Array(Bulks(requests[i]))
  {
    seq(|requests|, i requires 0 <= i < |requests| => Array(Bulks(requests[i])))
  }

  /** Requests of any arguments, sent as arrays of bulk strings, arrive one by one and are decoded from just those
      arguments. */
  lemma RequestsArrive(requests: seq<seq<Bytes>>, chunks: seq<Bytes>, max: nat)
    requires Flatten(chunks) == Flatten(Encodings(Asked(requests))) && |Flatten(chunks)| <= ISIZE_MAX
    requires !SomeReadOverfills(chunks, max)
    ensures var session := RunSession([], chunks, max);
            && session.end == Closed && |session.frames| == |requests|
            && forall i :: 0 <= i < |requests| ==> Decodes(session.frames[i], ParseArgs(requests[i]))
  {
    hide Encode, Strings, LineSafe, SomeReadOverfills, ParseArgs, Decodes;
    var values := Asked(requests);
    forall i | 0 <= i < |values| ensures Strings(values[i]) && LineSafe(values[i]) {
      ArgsAreSendable(requests[i]);
    }
    ValuesArrive(values, chunks, max);
    forall i | 0 <= i < |requests| ensures Decodes(Encodings(values)[i], ParseArgs(requests[i])) {
      ArgsDecode(Encodings(values)[i], requests[i]);
    }
  }

  /** The frame parses whole, and what it holds decodes so. */
  predicate Decodes(frame: Bytes, command: Result<Command, KvError>) {
    var p := ParseResp(frame);
    p.Ok? && p.value.next == |frame| && FromResp(p.value.value) == command
  }

  lemma ArgsAreSendable(args: seq<Bytes>)
    ensures Strings(Array(Bulks(args))) && LineSafe(Array(Bulks(args)))
  {
    BulksSafe(args);
  }

  lemma ArgsDecode(frame: Bytes, args: seq<Bytes>)
    requires ParseResp(frame) == Ok(Parsed(Array(Bulks(args)), |frame|))
    ensures Decodes(frame, ParseArgs(args))
  {
    BulksSafe(args);
    hide ParseResp, ParseArgs;
  }
}
