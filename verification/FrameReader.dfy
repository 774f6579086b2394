/**
 * The LF framing loops: `read_frame` of `codec.rs` and its counterpart in the protocol spike.
 * Both accumulate buffered chunks, and both refine "split the byte stream at its first LF".
 */
module FrameReader {
  import opened Wrappers

  type Byte = b: int | 0 <= b < 256

  const LF: Byte := 10

  datatype ReadError<E> = UnexpectedEof | PartialFrame | FrameTooLarge(actual: nat, max: nat) | Io | Refused(reason: E)

  // ---- Specification -------------------------------------------------------------------

  /** The position of the first LF, or the length of the stream when there is none. */
  function FirstLf(stream: seq<Byte>): (p: nat)
    ensures p <= |stream|
  {
    if |stream| == 0 || stream[0] == LF then 0 else 1 + FirstLf(stream[1..])
  }

  lemma {:induction false} FirstLfIsFirst(stream: seq<Byte>)
    ensures FirstLf(stream) < |stream| ==> stream[FirstLf(stream)] == LF
    ensures forall k :: 0 <= k < FirstLf(stream) ==> stream[k] != LF
  {
    if |stream| > 0 && stream[0] != LF {
      FirstLfIsFirst(stream[1..]);
      forall k | 0 < k < FirstLf(stream)
        ensures stream[k] != LF
      {
        assert stream[k] == stream[1..][k - 1];
      }
    }
  }

  datatype Verdict = Line(frame: seq<Byte>) | TooLarge | Partial | AtEof | Failed

  /** What a reader of `stream`, which then ends or fails, must report. */
  function Split(stream: seq<Byte>, fails: bool, max: nat): Verdict {
    var p := FirstLf(stream);
    if p < |stream| && p <= max then Line(stream[..p + 1])
    else if p > max then TooLarge
    else if fails then Failed
    else if |stream| == 0 then AtEof
    else Partial
  }

  // ---- Buffered input ------------------------------------------------------------------

  function Flatten(chunks: seq<seq<Byte>>): seq<Byte> {
    if |chunks| == 0 then [] else chunks[0] + Flatten(chunks[1..])
  }

  /** A `BufRead`: nonempty chunks as the operating system happened to deliver them, then end of input or an error. */
  class ChunkReader {
    var chunks: seq<seq<Byte>>
    const fails: bool

    ghost predicate Valid()
      reads this
    {
      forall k :: 0 <= k < |chunks| ==> |chunks[k]| > 0
    }

    ghost function Rest(): seq<Byte>
      reads this
    {
      Flatten(chunks)
    }

    constructor (chunks: seq<seq<Byte>>, fails: bool)
      requires forall k :: 0 <= k < |chunks| ==> |chunks[k]| > 0
      ensures Valid() && Rest() == Flatten(chunks) && this.fails == fails
    {
      this.chunks, this.fails := chunks, fails;
    }

    /** The buffered bytes: empty at end of input, nothing on an input error. */
    method FillBuf() returns (buffer: Option<seq<Byte>>)
      requires Valid()
      ensures buffer == None ==> fails && Rest() == []
      ensures buffer == Some([]) ==> !fails && Rest() == []
      ensures buffer.Some? ==> buffer.value <= Rest() && Rest() == buffer.value + Rest()[|buffer.value|..]
      ensures buffer.Some? && buffer.value != [] ==> |chunks| > 0 && buffer.value == chunks[0]
    {
      if |chunks| > 0 {
        return Some(chunks[0]);
      }
      return if fails then None else Some([]);
    }

    method Consume(n: nat)
      requires Valid() && |chunks| > 0 && n <= |chunks[0]|
      modifies this`chunks
      ensures Valid() && Rest() == old(Rest())[n..]
    {
      if n < |chunks[0]| {
        ghost var before := chunks;
        chunks := [chunks[0][n..]] + chunks[1..];
        assert chunks[1..] == before[1..];
      } else {
        chunks := chunks[1..];
      }
    }
  }

  method Position(buffer: seq<Byte>) returns (p: nat)
    ensures p == FirstLf(buffer)
  {
    p := 0;
    while p < |buffer| && buffer[p] != LF
      invariant p <= |buffer| && FirstLf(buffer) == p + FirstLf(buffer[p..])
    {
      assert buffer[p..][1..] == buffer[p + 1..];
      p := p + 1;
    }
  }

  /** Bytes without an LF in front of a stream only shift the position of its first LF. */
  lemma {:induction false} FirstLfAfter(line: seq<Byte>, rest: seq<Byte>)
    requires FirstLf(line) == |line|
    ensures FirstLf(line + rest) == |line| + FirstLf(rest)
  {
    if |line| == 0 {
      assert line + rest == rest;
    } else {
      assert line[0] != LF;
      FirstLfAfter(line[1..], rest);
      assert (line + rest)[1..] == line[1..] + rest;
    }
  }

  lemma {:induction false} FirstLfInPrefix(buffer: seq<Byte>, rest: seq<Byte>)
    requires FirstLf(buffer) < |buffer|
    ensures FirstLf(buffer + rest) == FirstLf(buffer)
  {
    if buffer[0] != LF {
      FirstLfInPrefix(buffer[1..], rest);
      assert (buffer + rest)[1..] == buffer[1..] + rest;
    }
  }

  /** How the next buffered chunk moves a partially read line along. */
  lemma NextChunk(line: seq<Byte>, buffer: seq<Byte>, rest: seq<Byte>)
    requires FirstLf(line) == |line|
    ensures FirstLf(buffer) < |buffer| ==> FirstLf(line + (buffer + rest)) == |line| + FirstLf(buffer)
    ensures FirstLf(buffer) == |buffer| ==> FirstLf(line + buffer) == |line| + |buffer|
    ensures FirstLf(buffer) == |buffer| ==> FirstLf(line + (buffer + rest)) == |line| + |buffer| + FirstLf(rest)
  {
    FirstLfAfter(line, buffer + rest);
    FirstLfAfter(line, buffer);
    if FirstLf(buffer) < |buffer| {
      FirstLfInPrefix(buffer, rest);
    } else {
      FirstLfAfter(buffer, rest);
    }
  }

  /** Which reader: the host's reports the offending length when it saw the LF, the spike's always `max + 1`. */
  datatype Flavour = Host | Spike

  /** The results allowed for a verdict; only the host's too-large length may depend on the chunking. */
  ghost predicate Meets<F, E>(verdict: Verdict, flavour: Flavour, max: nat, stream: seq<Byte>,
                              decode: seq<Byte> -> Result<F, ReadError<E>>, r: Result<F, ReadError<E>>) {
    match verdict
    case Line(frame) => r == decode(frame)
    case TooLarge =>
      || r == Err(FrameTooLarge(max + 1, max))
      || (flavour == Host && FirstLf(stream) < |stream| && r == Err(FrameTooLarge(FirstLf(stream), max)))
    case Partial => r == Err(PartialFrame)
    case AtEof => r == Err(UnexpectedEof)
    case Failed => r == Err(Io)
  }

  /** What one read may leave behind: a line is consumed exactly, a refusal stays inside the stream. */
  ghost predicate Leaves(verdict: Verdict, max: nat, stream: seq<Byte>, after: seq<Byte>) {
    match verdict
    case Line(frame) => |frame| <= |stream| && after == stream[|frame|..]
    case TooLarge => exists n :: 0 <= n <= max && n <= |stream| && after == stream[n..]
    case _ => after == []
  }

  /** The loop's exits, each judged against the whole stream: `line` was read before, `rest` is still to come. */
  lemma InputEnds(line: seq<Byte>, fails: bool, max: nat)
    requires FirstLf(line) == |line| <= max
    ensures Split(line, fails, max) == if fails then Failed else if line == [] then AtEof else Partial
    ensures Leaves(Split(line, fails, max), max, line, [])
  {
  }

  lemma LineFound(line: seq<Byte>, buffer: seq<Byte>, tail: seq<Byte>, fails: bool, max: nat)
    requires FirstLf(line) == |line| <= max && FirstLf(buffer) < |buffer|
    ensures FirstLf(line + (buffer + tail)) == |line| + FirstLf(buffer) < |line + (buffer + tail)|
    ensures |line| + FirstLf(buffer) <= max ==>
              var frame := line + buffer[..FirstLf(buffer) + 1];
              && Split(line + (buffer + tail), fails, max) == Line(frame)
              && Leaves(Line(frame), max, line + (buffer + tail), (buffer + tail)[FirstLf(buffer) + 1..])
    ensures |line| + FirstLf(buffer) > max ==>
              && Split(line + (buffer + tail), fails, max) == TooLarge
              && Leaves(TooLarge, max, line + (buffer + tail), buffer + tail)
  {
    NextChunk(line, buffer, tail);
    var stream := line + (buffer + tail);
    var p := FirstLf(buffer);
    if |line| + p <= max {
      assert stream[..|line| + p + 1] == line + buffer[..p + 1];
      assert stream[|line| + p + 1..] == (buffer + tail)[p + 1..];
    } else {
      assert stream[|line|..] == buffer + tail;
    }
  }

  lemma TooMuchWithoutLf(line: seq<Byte>, buffer: seq<Byte>, tail: seq<Byte>, fails: bool, max: nat)
    requires FirstLf(line) == |line| <= max && FirstLf(buffer) == |buffer|
    requires |line| + |buffer| > max
    ensures Split(line + (buffer + tail), fails, max) == TooLarge
    ensures Leaves(TooLarge, max, line + (buffer + tail), buffer + tail)
  {
    NextChunk(line, buffer, tail);
    assert (line + (buffer + tail))[|line|..] == buffer + tail;
  }

  lemma StillReading(line: seq<Byte>, buffer: seq<Byte>, tail: seq<Byte>)
    requires FirstLf(line) == |line| && FirstLf(buffer) == |buffer|
    ensures FirstLf(line + buffer) == |line + buffer|
    ensures line + (buffer + tail) == (line + buffer) + tail
    ensures (buffer + tail)[|buffer|..] == tail
  {
    NextChunk(line, buffer, tail);
  }

  /**
   * `read_frame` over any chunking: its verdict is that of the stream, a line is consumed exactly,
   * and a refused frame leaves the reader somewhere inside the stream it was given.
   */
  method ReadFrame<F, E>(reader: ChunkReader, max: nat, flavour: Flavour, decode: seq<Byte> -> Result<F, ReadError<E>>)
    returns (r: Result<F, ReadError<E>>)
    requires reader.Valid()
    modifies reader
    ensures reader.Valid()
    ensures Meets(Split(old(reader.Rest()), reader.fails, max), flavour, max, old(reader.Rest()), decode, r)
    ensures Leaves(Split(old(reader.Rest()), reader.fails, max), max, old(reader.Rest()), reader.Rest())
  {
    hide Split, Leaves, FirstLf, Flatten;
    ghost var stream := reader.Rest();
    var line: seq<Byte> := [];
    while true
      invariant reader.Valid() && stream == line + reader.Rest()
      invariant FirstLf(line) == |line| <= max
      decreases |reader.Rest()|
    {
      ghost var rest := reader.Rest();
      var filled := reader.FillBuf();
      if filled == None || filled == Some([]) {
        assert stream == line;
        InputEnds(line, reader.fails, max);
        return if filled == None then Err(Io) else if line == [] then Err(UnexpectedEof) else Err(PartialFrame);
      }
      var buffer := filled.value;
      ghost var tail := rest[|buffer|..];
      var index := Position(buffer);
      if index < |buffer| {
        LineFound(line, buffer, tail, reader.fails, max);
        if |line| + index > max {
          return Err(FrameTooLarge(if flavour == Host then |line| + index else max + 1, max));
        }
        var frame := line + buffer[..index + 1];
        reader.Consume(index + 1);
        return decode(frame);
      }
      if |line| + |buffer| > max {
        TooMuchWithoutLf(line, buffer, tail, reader.fails, max);
        return Err(FrameTooLarge(max + 1, max));
      }
      StillReading(line, buffer, tail);
      line := line + buffer;
      reader.Consume(|buffer|);
    }
  }

  /** Two chunkings of one stream: same verdict, hence the same result, up to the host's too-large length. */
  lemma ChunkingIsInvisible<F, E>(left: seq<seq<Byte>>, right: seq<seq<Byte>>, fails: bool, max: nat, flavour: Flavour,
                                  decode: seq<Byte> -> Result<F, ReadError<E>>,
                                  a: Result<F, ReadError<E>>, b: Result<F, ReadError<E>>)
    requires Flatten(left) == Flatten(right)
    requires Meets(Split(Flatten(left), fails, max), flavour, max, Flatten(left), decode, a)
    requires Meets(Split(Flatten(right), fails, max), flavour, max, Flatten(right), decode, b)
    ensures a == b || (flavour == Host && a.Err? && b.Err? && a.error.FrameTooLarge? && b.error.FrameTooLarge?
                       && a.error.max == b.error.max == max)
  {
  }

  // ---- Streams of several frames -------------------------------------------------------

  /** A complete frame: one LF, at its end, after at most `max` bytes. */
  ghost predicate Framed(frame: seq<Byte>, max: nat) {
    |frame| > 0 && FirstLf(frame) == |frame| - 1 <= max
  }

  /** Reading a stream frame by frame until something other than a line is found. */
  function SplitAll(stream: seq<Byte>, fails: bool, max: nat): (seq<seq<Byte>>, Verdict)
    decreases |stream|
  {
    match Split(stream, fails, max)
    case Line(frame) =>
      var (frames, last) := SplitAll(stream[|frame|..], fails, max);
      ([frame] + frames, last)
    case other => ([], other)
  }

  /** A concatenation of complete frames is read back as exactly those frames, then end of input. */
  lemma {:induction false} FramesReadBack(frames: seq<seq<Byte>>, max: nat)
    requires forall k :: 0 <= k < |frames| ==> Framed(frames[k], max)
    ensures SplitAll(Flatten(frames), false, max) == (frames, AtEof)
  {
    if |frames| > 0 {
      var stream := Flatten(frames);
      assert Framed(frames[0], max);
      FirstLfInPrefix(frames[0], Flatten(frames[1..]));
      assert stream[..|frames[0]|] == frames[0] && stream[|frames[0]|..] == Flatten(frames[1..]);
      FramesReadBack(frames[1..], max);
      assert [frames[0]] + frames[1..] == frames;
    }
  }
}
