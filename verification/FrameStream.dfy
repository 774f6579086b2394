/** Frames as bytes: `encode`, `decode_frame`, and streams of encoded frames read back through the framing loop. */
module FrameStream {
  import opened Wrappers
  import opened TokenMarkers
  import opened FrameCodec
  import opened FrameRoundTrip
  import opened FrameReader

  const CR: Byte := 13

  type Fault = ReadError<Refusal>

  /** A JSON printer and a strict parser (UTF-8 included); neither is modelled further. */
  datatype Text = Text(render: Value -> seq<Byte>, parse: seq<Byte> -> Result<Value, Refusal>)

  function Encode(tables: Tables, text: Text, frame: RpcFrame, max: nat): Result<seq<Byte>, Fault> {
    var wire := ToWire(tables, frame);
    if wire.Err? then Err(Refused(wire.error))
    else
      var encoded := text.render(wire.value);
      if |encoded| > max then Err(FrameTooLarge(|encoded|, max)) else Ok(encoded + [LF])
  }

  function DecodeFrame(tables: Tables, text: Text, max: nat, frame: seq<Byte>): Result<RpcFrame, Fault> {
    if |frame| == 0 then Err(UnexpectedEof)
    else if frame[|frame| - 1] != LF then Err(PartialFrame)
    else
      var payload := frame[..|frame| - 1];
      if |payload| == 0 then Err(Refused(EmptyFrame))
      else if |payload| > max then Err(FrameTooLarge(|payload|, max))
      else if LF in payload || payload[|payload| - 1] == CR then Err(Refused(InvalidEnvelope))
      else
        var value := text.parse(payload);
        if value.Err? then Err(Refused(value.error))
        else
          var decoded := DecodeValue(tables, value.value);
          if decoded.Err? then Err(Refused(decoded.error)) else Ok(decoded.value)
  }

  /** What a JSON library owes for one value: parsing inverts printing, and the text has no LF and no CR at its end. */
  ghost predicate Faithful(text: Text, v: Value) {
    var bytes := text.render(v);
    text.parse(bytes) == Ok(v) && |bytes| > 0 && LF !in bytes && bytes[|bytes| - 1] != CR
  }

  /** A frame within the limit whose wire object, and that object only, the JSON library treats faithfully. */
  ghost predicate Sendable(tables: Tables, text: Text, frame: RpcFrame, max: nat) {
    Encode(tables, text, frame, max).Ok? && Faithful(text, ToWire(tables, frame).value)
  }

  lemma {:induction false} NoLf(line: seq<Byte>)
    requires LF !in line
    ensures FirstLf(line) == |line|
  {
    if |line| > 0 {
      assert line[0] in line;
      NoLf(line[1..]);
    }
  }

  /** An encoded frame is one complete line that decodes to the canonical frame. */
  lemma EncodedDecodes(tables: Tables, text: Text, frame: RpcFrame, max: nat)
    requires Sendable(tables, text, frame, max)
    ensures Framed(Encode(tables, text, frame, max).value, max)
    ensures DecodeFrame(tables, text, max, Encode(tables, text, frame, max).value) == Ok(Canonical(frame))
    ensures WellFormed(frame) ==> Canonical(frame) == frame
  {
    hide ToWire, DecodeValue, Canonical;
    var wire := ToWire(tables, frame).value;
    var payload := text.render(wire);
    assert text.parse(payload) == Ok(wire);
    NoLf(payload);
    FirstLfAfter(payload, [LF]);
    assert (payload + [LF])[..|payload|] == payload;
    WireDecodes(tables, frame);
    if WellFormed(frame) {
      RoundTripIffWellFormed(tables, frame);
    }
  }

  /** What a peer writes for the frames, one encoding after the other. */
  function EncodeAll(tables: Tables, text: Text, frames: seq<RpcFrame>, max: nat): (lines: seq<seq<Byte>>)
    requires forall k :: 0 <= k < |frames| ==> Encode(tables, text, frames[k], max).Ok?
    ensures |lines| == |frames|
    ensures forall k :: 0 <= k < |frames| ==> Encode(tables, text, frames[k], max) == Ok(lines[k])
  {
    if |frames| == 0 then []
    else
      assert forall k :: 0 <= k < |frames[1..]| ==> frames[1..][k] == frames[k + 1];
      [Encode(tables, text, frames[0], max).value] + EncodeAll(tables, text, frames[1..], max)
  }

  ghost predicate AllSendable(tables: Tables, text: Text, frames: seq<RpcFrame>, max: nat)
    ensures AllSendable(tables, text, frames, max) ==>
              forall k :: 0 <= k < |frames| ==> Encode(tables, text, frames[k], max).Ok?
  {
    forall k :: 0 <= k < |frames| ==> Sendable(tables, text, frames[k], max)
  }

  /** How reading a stream of frames ends: without another complete line, or at a line that does not decode. */
  datatype End<E> = NoLine(verdict: Verdict) | BadLine(fault: ReadError<E>)

  /** Reading frame by frame until something other than an acceptable line comes. */
  function ReadAll<F, E>(stream: seq<Byte>, fails: bool, max: nat, decode: seq<Byte> -> Result<F, ReadError<E>>)
    : (seq<F>, End<E>)
    decreases |stream|
  {
    match Split(stream, fails, max)
    case Line(frame) =>
      (match decode(frame)
       case Ok(f) =>
         var (frames, end) := ReadAll(stream[|frame|..], fails, max, decode);
         ([f] + frames, end)
       case Err(fault) => ([], BadLine(fault)))
    case other => ([], NoLine(other))
  }

  /** The fault the reader loop is left with. */
  ghost predicate EndsWith<E>(end: End<E>, fault: ReadError<E>) {
    match end
    case BadLine(f) => fault == f
    case NoLine(AtEof) => fault == UnexpectedEof
    case NoLine(Partial) => fault == PartialFrame
    case NoLine(TooLarge) => fault.FrameTooLarge?
    case NoLine(Failed) => fault == Io
    case NoLine(Line(_)) => false
  }

  /** `reader_loop` on a session that stays open: the frames it dispatches, in order, and the fault that ends it. */
  method ReadStream<F, E>(reader: ChunkReader, max: nat, decode: seq<Byte> -> Result<F, ReadError<E>>)
    returns (frames: seq<F>, fault: ReadError<E>)
    requires reader.Valid()
    modifies reader
    ensures reader.Valid()
    ensures frames == ReadAll(old(reader.Rest()), reader.fails, max, decode).0
    ensures EndsWith(ReadAll(old(reader.Rest()), reader.fails, max, decode).1, fault)
  {
    hide Leaves, Meets, Split, ReadAll, EndsWith, Flatten;
    ghost var stream := reader.Rest();
    frames := [];
    while true
      invariant reader.Valid()
      invariant Continues(stream, frames, reader.Rest(), reader.fails, max, decode)
      decreases |reader.Rest()|
    {
      ghost var rest := reader.Rest();
      var r := ReadFrame(reader, max, Host, decode);
      OneRead(rest, reader.Rest(), reader.fails, max, decode, r);
      if r.Err? {
        return frames, r.error;
      }
      ContinuesOn(stream, frames, rest, reader.Rest(), r.value, reader.fails, max, decode);
      frames := frames + [r.value];
    }
  }

  /** `frames` have been read of `stream`, and `rest` is still to come. */
  ghost predicate Continues<F, E>(stream: seq<Byte>, frames: seq<F>, rest: seq<Byte>, fails: bool, max: nat,
                                  decode: seq<Byte> -> Result<F, ReadError<E>>) {
    var (all, end) := ReadAll(stream, fails, max, decode);
    var (more, last) := ReadAll(rest, fails, max, decode);
    all == frames + more && end == last
  }

  lemma ContinuesOn<F, E>(stream: seq<Byte>, frames: seq<F>, rest: seq<Byte>, after: seq<Byte>, next: F, fails: bool,
                          max: nat, decode: seq<Byte> -> Result<F, ReadError<E>>)
    requires Continues(stream, frames, rest, fails, max, decode)
    requires ReadAll(rest, fails, max, decode).0 == [next] + ReadAll(after, fails, max, decode).0
    requires ReadAll(rest, fails, max, decode).1 == ReadAll(after, fails, max, decode).1
    ensures Continues(stream, frames + [next], after, fails, max, decode)
  {
    hide ReadAll;
    var more := ReadAll(after, fails, max, decode).0;
    assert frames + ([next] + more) == (frames + [next]) + more;
  }

  /** What one read means for the rest of the stream. */
  lemma OneRead<F, E>(rest: seq<Byte>, after: seq<Byte>, fails: bool, max: nat,
                      decode: seq<Byte> -> Result<F, ReadError<E>>, r: Result<F, ReadError<E>>)
    requires Meets(Split(rest, fails, max), Host, max, rest, decode, r)
    requires Leaves(Split(rest, fails, max), max, rest, after)
    ensures r.Ok? ==> |after| < |rest|
    ensures r.Ok? ==> ReadAll(rest, fails, max, decode).0 == [r.value] + ReadAll(after, fails, max, decode).0
    ensures r.Ok? ==> ReadAll(rest, fails, max, decode).1 == ReadAll(after, fails, max, decode).1
    ensures r.Err? ==> ReadAll(rest, fails, max, decode).0 == []
    ensures r.Err? ==> EndsWith(ReadAll(rest, fails, max, decode).1, r.error)
  {
  }

  /** Complete lines that all decode are read as exactly those frames, then end of input. */
  lemma {:induction false} LinesAreRead<F, E>(lines: seq<seq<Byte>>, frames: seq<F>, max: nat,
                                              decode: seq<Byte> -> Result<F, ReadError<E>>)
    requires |lines| == |frames|
    requires forall k :: 0 <= k < |lines| ==> Framed(lines[k], max) && decode(lines[k]) == Ok(frames[k])
    ensures ReadAll(Flatten(lines), false, max, decode) == (frames, NoLine(AtEof))
    decreases |lines|
  {
    if |lines| > 0 {
      var stream := Flatten(lines);
      assert Framed(lines[0], max);
      FirstLfInPrefix(lines[0], Flatten(lines[1..]));
      assert stream[..|lines[0]|] == lines[0] && stream[|lines[0]|..] == Flatten(lines[1..]);
      LinesAreRead(lines[1..], frames[1..], max, decode);
      assert [frames[0]] + frames[1..] == frames;
    }
  }

  function CanonicalAll(frames: seq<RpcFrame>): seq<RpcFrame> {
    seq(|frames|, k requires 0 <= k < |frames| => Canonical(frames[k]))
  }

  /**
   * Every frame a peer wrote in one go is read back: same number, same order, each in its canonical form, which for
   * a well-formed frame is the frame itself, then end of input.
   */
  lemma StreamReadsBack(tables: Tables, text: Text, frames: seq<RpcFrame>, max: nat)
    requires AllSendable(tables, text, frames, max)
    ensures ReadAll(Flatten(EncodeAll(tables, text, frames, max)), false, max,
            line => DecodeFrame(tables, text, max, line))
            == (CanonicalAll(frames), NoLine(AtEof))
    ensures (forall k :: 0 <= k < |frames| ==> WellFormed(frames[k])) ==> CanonicalAll(frames) == frames
  {
    hide Encode, DecodeFrame, Canonical, WellFormed, Framed, ReadAll;
    var encoded := EncodeAll(tables, text, frames, max);
    forall k | 0 <= k < |frames|
      ensures Framed(encoded[k], max)
      ensures DecodeFrame(tables, text, max, encoded[k]) == Ok(Canonical(frames[k]))
      ensures WellFormed(frames[k]) ==> Canonical(frames[k]) == frames[k]
    {
      EncodedDecodes(tables, text, frames[k], max);
    }
    LinesAreRead(encoded, CanonicalAll(frames), max, line => DecodeFrame(tables, text, max, line));
  }

  /** The reader loop over any chunks of such a stream dispatches exactly the frames that were written. */
  method ReadBack(tables: Tables, text: Text, reader: ChunkReader, max: nat, ghost frames: seq<RpcFrame>)
    returns (read: seq<RpcFrame>, fault: Fault)
    requires reader.Valid() && !reader.fails
    requires AllSendable(tables, text, frames, max)
    requires reader.Rest() == Flatten(EncodeAll(tables, text, frames, max))
    modifies reader
    ensures reader.Valid()
    ensures read == CanonicalAll(frames) && fault == UnexpectedEof
    ensures (forall k :: 0 <= k < |frames| ==> WellFormed(frames[k])) ==> read == frames
  {
    hide Encode, AllSendable, CanonicalAll, ReadAll;
    StreamReadsBack(tables, text, frames, max);
    read, fault := ReadStream(reader, max, line => DecodeFrame(tables, text, max, line));
  }
}
