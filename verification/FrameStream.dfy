/** Taking decoded frames from a connection whose bytes arrive in any pieces. */
module FrameStream {
  import opened Wrappers
  import opened Bytes
  import opened Leb128
  import opened Framing

  /** How a payload can fail to deserialize: its own input ended, or anything else. */
  datatype Unparsed = PayloadShort | PayloadBad

  /** What deserializing makes of a whole frame, by its identifier. */
  type Parser<!P> = Frame -> Result<P, Unparsed>

  /** `Pdu::decode`, and how many bytes it takes. */
  function DecodePdu<P>(parse: Parser<P>, s: seq<Byte>): (r: Result<(P, nat), Failure>)
    ensures r.Success? ==> 1 <= r.value.1 <= |s|
  {
    match Decode(s, None)
    case Failure(e) => Failure(e)
    case Success((f, n)) =>
      match parse(f)
      case Failure(PayloadShort) => Failure(Eof)
      case Failure(PayloadBad) => Failure(Corrupt)
      case Success(p) => Success((p, n))
  }

  lemma DecodePduStable<P>(parse: Parser<P>, s: seq<Byte>, t: seq<Byte>)
    requires DecodePdu(parse, s) != Failure(Eof)
    ensures DecodePdu(parse, s + t) == DecodePdu(parse, s)
  {
    hide Decode;
    DecodeStable(s, t, None);
  }

  datatype Step<P> = Step(result: Result<Option<P>, Failure>, buffer: seq<Byte>)

  /** Take the frame in front of a buffer, if it is all there. */
  function StreamStep<P>(parse: Parser<P>, buffer: seq<Byte>): Step<P> {
    match DecodePdu(parse, buffer)
    case Success((p, n)) => Step(Success(Some(p)), buffer[n..])
    case Failure(e) => Step(if e == Eof then Success(None) else Failure(e), buffer)
  }

  // ----- The other end -----

  type Chunk = c: seq<Byte> | 1 <= |c| <= 4096 witness [0]

  /** What a read can come to. After the last event the connection is closed. */
  datatype Event = Data(bytes: Chunk) | WouldBlock | Broken

  class Peer {
    var events: seq<Event>

    constructor (pending: seq<Event>)
      ensures events == pending
    {
      events := pending;
    }

    /** The next event; none when the connection is closed. */
    method Read() returns (e: Option<Event>)
      modifies this
      ensures old(events) == [] ==> e == None && events == []
      ensures old(events) != [] ==> e == Some(old(events)[0]) && events == old(events)[1..]
    {
      if events == [] { return None; }
      e := Some(events[0]);
      events := events[1..];
    }
  }

  // ----- The buffer -----

  /** The outcome of one call, the bytes it leaves in the buffer and the events it
      leaves unread. */
  datatype Call<P> = Call(result: Result<Option<P>, Failure>, buffer: seq<Byte>, events: seq<Event>)

  function TryRead<P>(parse: Parser<P>, buffer: seq<Byte>, events: seq<Event>): Call<P>
    decreases |events|
  {
    var step := StreamStep(parse, buffer);
    if step.result != Success(None) then Call(step.result, step.buffer, events)
    else if events == [] then Call(Failure(Eof), buffer, [])
    else
      match events[0]
      case WouldBlock => Call(Success(None), buffer, events[1..])
      case Broken => Call(Failure(Io), buffer, events[1..])
      case Data(bytes) => TryRead(parse, buffer + bytes, events[1..])
  }

  class FrameBuffer {
    var bytes: seq<Byte>

    constructor ()
      ensures bytes == []
    {
      bytes := [];
    }

    /** `stream_decode`: a decoded frame leaves the buffer, anything else leaves the
        buffer as it is. */
    method StreamDecode<P>(parse: Parser<P>) returns (r: Result<Option<P>, Failure>)
      modifies this
      ensures Step(r, bytes) == StreamStep(parse, old(bytes))
    {
      hide Decode;
      var cursor := new Stream(bytes);
      var d := DecodeRaw(cursor);
      if d.Failure? { return if d.error == Eof then Success(None) else Failure(d.error); }
      match parse(d.value)
      case Failure(PayloadShort) => return Success(None);
      case Failure(PayloadBad) => return Failure(Corrupt);
      case Success(p) =>
        var consumed := |bytes| - |cursor.rest|;
        bytes := bytes[consumed..];
        return Success(Some(p));
    }

    /** `try_read_and_decode` */
    method TryReadAndDecode<P>(parse: Parser<P>, r: Peer) returns (result: Result<Option<P>, Failure>)
      modifies this, r
      ensures Call(result, bytes, r.events) == TryRead(parse, old(bytes), old(r.events))
    {
      hide StreamStep, TryRead;
      while true
        invariant TryRead(parse, bytes, r.events) == TryRead(parse, old(bytes), old(r.events))
        decreases |r.events|
      {
        StepWaits(parse, bytes);
        if StreamStep(parse, bytes).result != Success(None) { NotWaiting(parse, bytes, r.events); }
        var decoded := StreamDecode(parse);
        if decoded != Success(None) { return decoded; }
        WaitingReads(parse, bytes, r.events);
        var e := r.Read();
        match e
        case None => return Failure(Eof);
        case Some(WouldBlock) => return Success(None);
        case Some(Broken) => return Failure(Io);
        case Some(Data(more)) => bytes := bytes + more;
      }
    }
  }

  lemma StepWaits<P>(parse: Parser<P>, buffer: seq<Byte>)
    ensures StreamStep(parse, buffer).result == Success(None) ==> StreamStep(parse, buffer).buffer == buffer
  {
  }

  lemma NotWaiting<P>(parse: Parser<P>, buffer: seq<Byte>, events: seq<Event>)
    requires StreamStep(parse, buffer).result != Success(None)
    ensures TryRead(parse, buffer, events) == Call(StreamStep(parse, buffer).result, StreamStep(parse, buffer).buffer, events)
  {
  }

  lemma WaitingReads<P>(parse: Parser<P>, buffer: seq<Byte>, events: seq<Event>)
    requires StreamStep(parse, buffer).result == Success(None)
    ensures TryRead(parse, buffer, events) ==
            if events == [] then Call(Failure(Eof), buffer, [])
            else if events[0].WouldBlock? then Call(Success(None), buffer, events[1..])
            else if events[0].Broken? then Call(Failure(Io), buffer, events[1..])
            else TryRead(parse, buffer + events[0].bytes, events[1..])
  {
  }

  // ----- One call -----

  /** The bytes that reads will bring before one fails. */
  function Arriving(events: seq<Event>): seq<Byte> {
    if events == [] || events[0].Broken? then []
    else (if events[0].Data? then events[0].bytes else []) + Arriving(events[1..])
  }

  /** How reading will end. */
  function Ending(events: seq<Event>): Failure {
    if events == [] then Eof
    else if events[0].Broken? then Io
    else Ending(events[1..])
  }

  /** Everything that is in the buffer or will come into it. */
  function Unread(buffer: seq<Byte>, events: seq<Event>): seq<Byte> {
    buffer + Arriving(events)
  }

  /** A call yields the frame in front of all the bytes still to come, however much
      of them it has; if it yields none, it has lost nothing. */
  lemma {:induction false} OneCall<P>(parse: Parser<P>, buffer: seq<Byte>, events: seq<Event>)
    ensures var c, s := TryRead(parse, buffer, events), Unread(buffer, events);
      var s' := Unread(c.buffer, c.events);
      match c.result
      case Success(Some(p)) =>
        && DecodePdu(parse, s).Success? && DecodePdu(parse, s).value.0 == p
        && s' == s[DecodePdu(parse, s).value.1..]
        && Ending(c.events) == Ending(events)
      case Success(None) =>
        && s' == s && |c.events| < |events| && Ending(c.events) == Ending(events)
        && DecodePdu(parse, c.buffer) == Failure(Eof)
      case Failure(e) =>
        if e == Eof || e == Io then e == Ending(events) && c.buffer == s && DecodePdu(parse, s) == Failure(Eof)
        else s' == s && DecodePdu(parse, s) == Failure(e)
    decreases |events|
  {
    hide DecodePdu;
    var a := Arriving(events);
    Failures(parse, buffer);
    if DecodePdu(parse, buffer) != Failure(Eof) {
      DecodePduStable(parse, buffer, a);
      if DecodePdu(parse, buffer).Success? {
        var n := DecodePdu(parse, buffer).value.1;
        assert buffer[n..] + a == (buffer + a)[n..];
      }
    } else if events == [] {
      assert buffer + a == buffer;
    } else {
      match events[0]
      case WouldBlock => assert a == Arriving(events[1..]);
      case Broken => assert buffer + a == buffer;
      case Data(bytes) =>
        assert buffer + (bytes + Arriving(events[1..])) == buffer + bytes + Arriving(events[1..]);
        OneCall(parse, buffer + bytes, events[1..]);
    }
  }

  lemma Failures<P>(parse: Parser<P>, s: seq<Byte>)
    ensures DecodePdu(parse, s) != Failure(Io)
    ensures DecodePdu(parse, s).Success? ==> 1 <= DecodePdu(parse, s).value.1 <= |s|
  {
    hide ReadU64, Leb;
  }

  // ----- Whole runs -----

  /** What came of a run: the frames, what ended it, and the bytes left over. */
  datatype Outcome<P> = Outcome(pdus: seq<P>, why: Failure, left: seq<Byte>)

  /** Call again and again until a call fails. */
  function RunAll<P>(parse: Parser<P>, buffer: seq<Byte>, events: seq<Event>): Outcome<P>
    decreases |Unread(buffer, events)|, |events|
  {
    var c := TryRead(parse, buffer, events);
    OneCall(parse, buffer, events);
    match c.result
    case Failure(e) => Outcome([], e, c.buffer)
    case Success(None) => RunAll(parse, c.buffer, c.events)
    case Success(Some(p)) =>
      var o := RunAll(parse, c.buffer, c.events);
      o.(pdus := [p] + o.pdus)
  }

  /** The frames of bytes that are all there. */
  function Parsed<P>(parse: Parser<P>, s: seq<Byte>): Outcome<P>
    decreases |s|
  {
    match DecodePdu(parse, s)
    case Failure(e) => Outcome([], e, s)
    case Success((p, n)) =>
      var o := Parsed(parse, s[n..]);
      o.(pdus := [p] + o.pdus)
  }

  /** Any bytes, in any pieces, with any waits between them, give the frames they give
      as a whole. */
  lemma {:induction false} ChunkingDoesNotMatter<P>(parse: Parser<P>, buffer: seq<Byte>, events: seq<Event>)
    ensures var run, whole := RunAll(parse, buffer, events), Parsed(parse, Unread(buffer, events));
      && run.pdus == whole.pdus
      && run.why == (if whole.why == Eof then Ending(events) else whole.why)
      && |run.left| <= |whole.left| && run.left == whole.left[..|run.left|]
      && (whole.why == Eof ==> run.left == whole.left)
    decreases |Unread(buffer, events)|, |events|
  {
    hide TryRead, DecodePdu, Arriving;
    OneCall(parse, buffer, events);
    var c := TryRead(parse, buffer, events);
    Failures(parse, Unread(buffer, events));
    match c.result
    case Failure(e) =>
    case Success(_) => ChunkingDoesNotMatter(parse, c.buffer, c.events);
  }

  function Encodings(frames: seq<Frame>): seq<Byte> {
    if frames == [] then [] else Encoding(frames[0]) + Encodings(frames[1..])
  }

  /** A frame that both ends agree on. */
  predicate Sendable<P(!new)>(parse: Parser<P>, f: Frame) {
    Encodable(f) && |f.data| <= MAX_PDU_SIZE && parse(f).Success?
  }

  lemma {:induction false} FramesParse<P(!new)>(parse: Parser<P>, frames: seq<Frame>, part: seq<Byte>)
    requires forall f :: f in frames ==> Sendable(parse, f)
    requires DecodePdu(parse, part) == Failure(Eof)
    ensures var o := Parsed(parse, Encodings(frames) + part);
      && o.why == Eof && o.left == part && |o.pdus| == |frames|
      && forall i :: 0 <= i < |frames| ==> parse(frames[i]) == Success(o.pdus[i])
  {
    hide Decode, Encoding, Encodable;
    if frames == [] {
      assert Encodings(frames) + part == part;
    } else {
      var f, rest := frames[0], Encodings(frames[1..]) + part;
      var s := Encodings(frames) + part;
      assert f in frames && Sendable(parse, f);
      assert s == Encoding(f) + rest;
      FrameReadsBack(f, rest);
      assert s[|Encoding(f)|..] == rest;
      FramesParse(parse, frames[1..], part);
    }
  }

  /** Frames sent one after the other, and perhaps the beginning of one more, arrive as
      exactly those frames in order, however they are cut up; the beginning stays in
      the buffer. */
  lemma FramesArrive<P(!new)>(parse: Parser<P>, frames: seq<Frame>, next: Frame, k: nat, events: seq<Event>)
    requires forall f :: f in frames ==> Sendable(parse, f)
    requires Sendable(parse, next) && k < |Encoding(next)|
    requires Arriving(events) == Encodings(frames) + Encoding(next)[..k]
    ensures var run := RunAll(parse, [], events);
      && run.why == Ending(events) && run.left == Encoding(next)[..k] && |run.pdus| == |frames|
      && forall i :: 0 <= i < |frames| ==> parse(frames[i]) == Success(run.pdus[i])
  {
    hide RunAll, Parsed, Encoding, Arriving, Encodable, Decode;
    PrefixIsEof(next, k);
    FramesParse(parse, frames, Encoding(next)[..k]);
    ChunkingDoesNotMatter(parse, [], events);
    assert [] + Arriving(events) == Arriving(events);
  }

  // ----- Waiting -----

  /** No frame and no error: the frame in front is incomplete, or it is complete and
      its payload ended early. */
  lemma WaitsExactly<P(!new)>(parse: Parser<P>, buffer: seq<Byte>)
    ensures StreamStep(parse, buffer) == Step(Success(None), buffer) <==>
            || Decode(buffer, None) == Failure(Eof)
            || (Decode(buffer, None).Success? && parse(Decode(buffer, None).value.0) == Failure(PayloadShort))
  {
    hide Decode;
  }

  /** In the second case no more bytes will help: every call waits until reading ends,
      and keeps the frame. */
  lemma ShortPayloadWaitsForever<P(!new)>(parse: Parser<P>, buffer: seq<Byte>, events: seq<Event>)
    requires Decode(buffer, None).Success? && parse(Decode(buffer, None).value.0) == Failure(PayloadShort)
    ensures RunAll(parse, buffer, events) == Outcome([], Ending(events), Unread(buffer, events))
  {
    hide Decode, RunAll, Arriving;
    DecodeStable(buffer, Arriving(events), None);
    ChunkingDoesNotMatter(parse, buffer, events);
  }
}
