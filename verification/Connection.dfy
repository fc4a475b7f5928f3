/**
 * Incremental framing: `Connection.ReadValue` cuts frames out of a growing
 * buffer. The chunks a socket will deliver are the sequence `incoming`; an
 * empty sequence is end of stream.
 */
module Connections {
  import opened Bytes
  import opened Resp
  import opened Parser
  import opened Codec

  datatype ReadOutcome =
    | Frame(bytes: Bytes)
    | Closed
    | TooLarge
    | InvalidFrame(error: ProtocolError)
    | UnexpectedEof

  function Flatten(chunks: seq<Bytes>): Bytes {
    if |chunks| == 0 then [] else chunks[0] + Flatten(chunks[1..])
  }

  datatype Read = Read(outcome: ReadOutcome, buffer: Bytes, incoming: seq<Bytes>)

  /** One call of `read_value`: outcome, buffer left, chunks left. */
  function ReadStep(buffer: Bytes, incoming: seq<Bytes>, max: nat): Read
    decreases |incoming|
  {
    match ParseResp(buffer)
    case Ok(p) =>
      if p.next > max then Read(TooLarge, buffer, incoming)
      else Read(Frame(buffer[..p.next]), buffer[p.next..], incoming)
    case Err(e) =>
      if e != Incomplete then Read(InvalidFrame(e), buffer, incoming)
      else if |buffer| > max then Read(TooLarge, buffer, incoming)
      else if |incoming| == 0 then
        Read(if |buffer| == 0 then Closed else UnexpectedEof, buffer, incoming)
      else
        var grown := buffer + incoming[0];
        if |grown| > max then Read(TooLarge, grown, incoming[1..])
        else ReadStep(grown, incoming[1..], max)
  }

  class Connection {
    var buffer: Bytes
    var incoming: seq<Bytes>
    const maxFrameSize: nat

    constructor (incoming: seq<Bytes>, maxFrameSize: nat)
      ensures buffer == [] && this.incoming == incoming && this.maxFrameSize == maxFrameSize
    {
      buffer := [];
      this.incoming := incoming;
      this.maxFrameSize := maxFrameSize;
    }

    method ReadValue() returns (outcome: ReadOutcome)
      modifies this
      ensures Read(outcome, buffer, incoming) == ReadStep(old(buffer), old(incoming), maxFrameSize)
      ensures old(buffer) + Flatten(old(incoming)) == Taken(outcome) + buffer + Flatten(incoming)
    {
      hide ParseValue;
      ReadConserves(buffer, incoming, maxFrameSize);
      while true
        invariant ReadStep(buffer, incoming, maxFrameSize) == ReadStep(old(buffer), old(incoming), maxFrameSize)
        decreases |incoming|
      {
        var parsed := ParseRespBytes(buffer);
        match parsed {
          case Ok(p) =>
            if p.next > maxFrameSize {
              return TooLarge;
            }
            var frame := buffer[..p.next];
            buffer := buffer[p.next..];
            return Frame(frame);
          case Err(e) =>
            if e != Incomplete {
              return InvalidFrame(e);
            }
        }
        if |buffer| > maxFrameSize {
          return TooLarge;
        }
        if |incoming| == 0 {
          return if |buffer| == 0 then Closed else UnexpectedEof;
        }
        buffer, incoming := buffer + incoming[0], incoming[1..];
        if |buffer| > maxFrameSize {
          return TooLarge;
        }
      }
    }
  }

  /** The bytes a read handed to its caller. */
  function Taken(outcome: ReadOutcome): Bytes {
    if outcome.Frame? then outcome.bytes else []
  }

  /** A read moves bytes from the socket to the buffer to the caller; none is lost or reordered. */
  lemma {:induction false} ReadConserves(buffer: Bytes, incoming: seq<Bytes>, max: nat)
    ensures var read := ReadStep(buffer, incoming, max);
            buffer + Flatten(incoming) == Taken(read.outcome) + read.buffer + Flatten(read.incoming)
    decreases |incoming|
  {
    hide ParseValue;
    match ParseResp(buffer) {
      case Ok(p) =>
        assert buffer == buffer[..p.next] + buffer[p.next..];
      case Err(e) =>
        if e == Incomplete && |buffer| <= max && |incoming| > 0 {
          assert buffer + Flatten(incoming) == buffer + incoming[0] + Flatten(incoming[1..]);
          if |buffer + incoming[0]| <= max {
            ReadConserves(buffer + incoming[0], incoming[1..], max);
          }
        }
    }
  }

  // ----------------------------------------------------- whole connections

  /** The frames of a connection, how it ended, and the bytes left unframed. */
  datatype Session = Session(frames: seq<Bytes>, end: ReadOutcome, rest: Bytes)

  function Prefixed(frame: Bytes, s: Session): Session {
    Session([frame] + s.frames, s.end, s.rest)
  }

  /** `read_value` called until it no longer returns a frame. */
  function RunSession(buffer: Bytes, incoming: seq<Bytes>, max: nat): Session
    decreases |incoming|, |buffer|
  {
    match ParseResp(buffer)
    case Ok(p) =>
      if p.next > max then Session([], TooLarge, buffer)
      else Prefixed(buffer[..p.next], RunSession(buffer[p.next..], incoming, max))
    case Err(e) =>
      if e != Incomplete then Session([], InvalidFrame(e), buffer)
      else if |buffer| > max then Session([], TooLarge, buffer)
      else if |incoming| == 0 then
        Session([], if |buffer| == 0 then Closed else UnexpectedEof, buffer)
      else
        var grown := buffer + incoming[0];
        if |grown| > max then Session([], TooLarge, grown)
        else RunSession(grown, incoming[1..], max)
  }

  function SessionAfter(read: Read, max: nat): Session {
    if read.outcome.Frame? then Prefixed(read.outcome.bytes, RunSession(read.buffer, read.incoming, max))
    else Session([], read.outcome, read.buffer)
  }

  /** A session is its first `read_value`, then the session of what that left. */
  lemma {:induction false} SessionIsRepeatedRead(buffer: Bytes, incoming: seq<Bytes>, max: nat)
    ensures RunSession(buffer, incoming, max) == SessionAfter(ReadStep(buffer, incoming, max), max)
    decreases |incoming|
  {
    hide ParseValue;
    if ParseResp(buffer) == Err(Incomplete) && |buffer| <= max && |incoming| > 0
       && |buffer + incoming[0]| <= max {
      SessionIsRepeatedRead(buffer + incoming[0], incoming[1..], max);
    }
  }

  /** The parse loop over a whole stream at once, with no size limit. */
  function OneShot(stream: Bytes): Session
    decreases |stream|
  {
    match ParseResp(stream)
    case Ok(p) => Prefixed(stream[..p.next], OneShot(stream[p.next..]))
    case Err(e) =>
      Session([],
              if e != Incomplete then InvalidFrame(e) else if |stream| == 0 then Closed else UnexpectedEof,
              stream)
  }

  // ---------------------------------------------------------- conservation

  /** Frames and remainder are the stream: nothing lost, duplicated or reordered. */
  lemma {:induction false} OneShotConserves(stream: Bytes)
    ensures Flatten(OneShot(stream).frames) + OneShot(stream).rest == stream
    decreases |stream|
  {
    hide ParseValue;
    match ParseResp(stream) {
      case Ok(p) =>
        var tail := OneShot(stream[p.next..]);
        OneShotConserves(stream[p.next..]);
        PrefixedFlatten(stream[..p.next], tail);
        assert stream == stream[..p.next] + stream[p.next..];
      case Err(_) =>
    }
  }

  lemma PrefixedFlatten(frame: Bytes, s: Session)
    ensures Flatten(Prefixed(frame, s).frames) + Prefixed(frame, s).rest == frame + (Flatten(s.frames) + s.rest)
  {
    assert Prefixed(frame, s).frames[1..] == s.frames;
  }

  // --------------------------------------------------- chunking independence

  /** Whatever the chunking and the limit, a session returns frames of the one-shot loop in
      order; unless the size limit stopped it, it returns all of them and ends the same way. */
  lemma {:induction false} SessionMatchesOneShot(buffer: Bytes, incoming: seq<Bytes>, max: nat)
    ensures var session := RunSession(buffer, incoming, max);
            var whole := OneShot(buffer + Flatten(incoming));
            && |session.frames| <= |whole.frames|
            && session.frames == whole.frames[..|session.frames|]
            && (session.end != TooLarge ==> session.frames == whole.frames && session.end == whole.end)
    decreases |incoming|, |buffer|
  {
    hide ParseValue;
    var stream := buffer + Flatten(incoming);
    match ParseResp(buffer) {
      case Ok(p) =>
        PrefixStability(buffer, Flatten(incoming));
        assert stream[..p.next] == buffer[..p.next];
        assert stream[p.next..] == buffer[p.next..] + Flatten(incoming);
        if p.next <= max {
          SessionMatchesOneShot(buffer[p.next..], incoming, max);
          var tail, rest := RunSession(buffer[p.next..], incoming, max), OneShot(stream[p.next..]);
          assert ([buffer[..p.next]] + rest.frames)[..|tail.frames| + 1]
              == [buffer[..p.next]] + rest.frames[..|tail.frames|];
        }
      case Err(e) =>
        if e != Incomplete {
          PrefixStability(buffer, Flatten(incoming));
        } else if |buffer| <= max {
          if |incoming| == 0 {
            assert stream == buffer;
          } else {
            assert stream == buffer + incoming[0] + Flatten(incoming[1..]);
            if |buffer + incoming[0]| <= max {
              SessionMatchesOneShot(buffer + incoming[0], incoming[1..], max);
            }
          }
        }
    }
  }

  /** Every frame a session returns parses on its own, to its last byte: parsing it again cannot fail. */
  lemma {:induction false} FramesParse(buffer: Bytes, incoming: seq<Bytes>, max: nat)
    ensures forall frame :: frame in RunSession(buffer, incoming, max).frames
              ==> ParseResp(frame).Ok? && ParseResp(frame).value.next == |frame| <= max
    decreases |incoming|, |buffer|
  {
    hide ParseValue;
    match ParseResp(buffer) {
      case Ok(p) =>
        PrefixFree(buffer, p.next);
        if p.next <= max {
          FramesParse(buffer[p.next..], incoming, max);
        }
      case Err(e) =>
        if e == Incomplete && |buffer| <= max && |incoming| > 0 && |buffer + incoming[0]| <= max {
          FramesParse(buffer + incoming[0], incoming[1..], max);
          SessionIsRepeatedRead(buffer, incoming, max);
          SessionIsRepeatedRead(buffer + incoming[0], incoming[1..], max);
        }
    }
  }

  // ------------------------------------------------------- the size limit

  /** The bytes a receiver of `stream` holds once every complete frame is cut off. */
  function Pending(stream: Bytes): Bytes {
    OneShot(stream).rest
  }

  predicate StillOpen(stream: Bytes) {
    !OneShot(stream).end.InvalidFrame?
  }

  /** Some read, made while the stream so far is still readable, leaves more than `max` bytes buffered. */
  ghost predicate SomeReadOverfills(chunks: seq<Bytes>, max: nat) {
    exists j :: 0 <= j < |chunks| && ReadOverfills(chunks, j, max)
  }

  ghost predicate ReadOverfills(chunks: seq<Bytes>, j: nat, max: nat)
    requires j < |chunks|
  {
    StillOpen(Flatten(chunks[..j])) && |Pending(Flatten(chunks[..j]))| + |chunks[j]| > max
  }

  lemma {:induction false} OneShotResumes(a: Bytes, b: Bytes)
    ensures StillOpen(a) ==>
              && Pending(a + b) == Pending(Pending(a) + b)
              && StillOpen(a + b) == StillOpen(Pending(a) + b)
    ensures !StillOpen(a) ==> !StillOpen(a + b)
    decreases |a|
  {
    hide ParseValue;
    match ParseResp(a) {
      case Ok(p) =>
        PrefixStability(a, b);
        assert (a + b)[p.next..] == a[p.next..] + b;
        OneShotResumes(a[p.next..], b);
      case Err(e) =>
        if e != Incomplete {
          PrefixStability(a, b);
        }
    }
  }

  lemma {:induction false} FlattenSnoc(chunks: seq<Bytes>, j: nat)
    requires j < |chunks|
    ensures Flatten(chunks[..j + 1]) == Flatten(chunks[..j]) + chunks[j]
  {
    if j == 0 {
      assert chunks[..1][1..] == [];
      assert Flatten(chunks[..1]) == chunks[0] + [];
    } else {
      FlattenSnoc(chunks[1..], j - 1);
      assert chunks[..j + 1][1..] == chunks[1..][..j];
      assert chunks[..j][1..] == chunks[1..][..j - 1];
      assert chunks[0] + (Flatten(chunks[1..][..j - 1]) + chunks[j])
          == chunks[0] + Flatten(chunks[1..][..j - 1]) + chunks[j];
    }
  }

  /** The session after `j` chunks: its buffer, with frames not yet cut off, ends as the stream so far. */
  lemma {:induction false} LimitFrom(buffer: Bytes, chunks: seq<Bytes>, j: nat, max: nat)
    requires j <= |chunks| && |buffer| <= max
    requires StillOpen(buffer) == StillOpen(Flatten(chunks[..j]))
    requires StillOpen(buffer) ==> Pending(buffer) == Pending(Flatten(chunks[..j]))
    ensures RunSession(buffer, chunks[j..], max).end == TooLarge
       <==> exists i :: j <= i < |chunks| && ReadOverfills(chunks, i, max)
    decreases |chunks| - j, |buffer|
  {
    hide ParseValue;
    match ParseResp(buffer) {
      case Ok(p) =>
        LimitFrom(buffer[p.next..], chunks, j, max);
      case Err(e) =>
        if e != Incomplete {
          forall i | j <= i < |chunks| ensures !ReadOverfills(chunks, i, max) {
            ClosedStaysClosed(chunks, j, i);
          }
        } else if j < |chunks| {
          var grown := buffer + chunks[j];
          assert chunks[j..][1..] == chunks[j + 1..];
          FlattenSnoc(chunks, j);
          OneShotResumes(Flatten(chunks[..j]), chunks[j]);
          assert Pending(buffer) == buffer;
          if |grown| > max {
            assert ReadOverfills(chunks, j, max);
          } else {
            LimitFrom(grown, chunks, j + 1, max);
            assert !ReadOverfills(chunks, j, max);
          }
        }
    }
  }

  lemma {:induction false} ClosedStaysClosed(chunks: seq<Bytes>, j: nat, i: nat)
    requires j <= i <= |chunks| && !StillOpen(Flatten(chunks[..j]))
    ensures !StillOpen(Flatten(chunks[..i]))
    decreases i
  {
    if j == i {
    } else {
      ClosedStaysClosed(chunks, j, i - 1);
      FlattenSnoc(chunks, i - 1);
      OneShotResumes(Flatten(chunks[..i - 1]), chunks[i - 1]);
    }
  }

  /** Chunking independence, exactly: a fresh connection reports the frames and the end of the
      one-shot loop over all bytes if and only if no read leaves more than `max` bytes buffered;
      otherwise it ends in the size error. */
  lemma ChunkingIndependence(chunks: seq<Bytes>, max: nat)
    ensures var session := RunSession([], chunks, max);
            var whole := OneShot(Flatten(chunks));
            && (session.end == TooLarge <==> SomeReadOverfills(chunks, max))
            && (!SomeReadOverfills(chunks, max) ==> session.frames == whole.frames && session.end == whole.end)
  {
    assert chunks[0..] == chunks;
    assert chunks[..0] == [];
    LimitFrom([], chunks, 0, max);
    SessionMatchesOneShot([], chunks, max);
    assert [] + Flatten(chunks) == Flatten(chunks);
  }

  /** Two chunkings of one stream that stay within the limit are indistinguishable. */
  lemma ChunkingsAgree(a: seq<Bytes>, b: seq<Bytes>, max: nat)
    requires Flatten(a) == Flatten(b) && !SomeReadOverfills(a, max) && !SomeReadOverfills(b, max)
    ensures RunSession([], a, max).frames == RunSession([], b, max).frames
    ensures RunSession([], a, max).end == RunSession([], b, max).end
  {
    ChunkingIndependence(a, max);
    ChunkingIndependence(b, max);
  }

  /** The shortest frame: an empty simple string. */
  lemma ShortestFrame()
    ensures ParseResp([SIMPLE] + CRLF) == Ok(Parsed(SimpleString([]), 3))
    ensures ParseResp([]) == Err(Incomplete)
  {
    var s := [SIMPLE] + CRLF;
    assert FindCrlf(s, 1) == Some(1);
    assert s[1..1] == [];
    assert ReadLine(s, 1) == Ok(Parsed([], 3));
    assert ValidUtf8([]);
  }

  /** The limit can be seen: two frames of the limit's size arrive in two reads, or in one that is too much. */
  lemma LimitSeen()
    ensures var frame := [SIMPLE] + CRLF;
            && RunSession([], [frame, frame], 3) == Session([frame, frame], Closed, [])
            && RunSession([], [frame + frame], 3) == Session([], TooLarge, frame + frame)
  {
    ShortestFrame();
    hide ParseResp;
    var frame := [SIMPLE] + CRLF;
    assert [] + frame == frame && frame[..3] == frame && frame[3..] == [];
    assert RunSession([], [], 3) == Session([], Closed, []);
    assert [frame, frame][1..] == [frame];
    assert ReadStep([], [frame], 3) == Read(Frame(frame), [], []);
    assert RunSession([], [frame], 3) == Session([frame], Closed, []);
    assert ReadStep([], [frame, frame], 3) == Read(Frame(frame), [], [frame]);
    assert [] + (frame + frame) == frame + frame;
  }

  /** How a stream ends: closed when nothing is left, in an unexpected end when a frame has begun and not ended,
      and in the parser's error otherwise. */
  lemma {:induction false} StreamEnds(stream: Bytes)
    ensures var whole := OneShot(stream);
            && (whole.rest == [] ==> whole.end == Closed)
            && (whole.rest != [] ==> ParseResp(whole.rest).Err?)
            && (whole.rest != [] && ParseResp(whole.rest) == Err(Incomplete) ==> whole.end == UnexpectedEof)
            && (whole.rest != [] && ParseResp(whole.rest) != Err(Incomplete)
                ==> whole.end == InvalidFrame(ParseResp(whole.rest).error))
    ensures forall frame :: frame in OneShot(stream).frames
              ==> ParseResp(frame).Ok? && ParseResp(frame).value.next == |frame|
    decreases |stream|
  {
    ShortestFrame();
    hide ParseResp;
    match ParseResp(stream) {
      case Ok(p) =>
        StreamEnds(stream[p.next..]);
        PrefixFree(stream, p.next);
      case Err(_) =>
    }
  }
}
