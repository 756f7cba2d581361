/**
  Frames over a byte stream: taking frames off a buffer until `parse` wants more, and the
  theorem that it does not matter how the stream was cut into chunks.
*/
module FrameStream {
  import opened Bytes
  import opened Frames

  /** Frames taken so far, bytes left in the buffer, and the error that stopped the parsing. */
  datatype Receiver = Receiver(frames: seq<Frame>, rest: Data, error: Option<H2Error>)

  function After(fs: seq<Frame>, r: Receiver): Receiver { r.(frames := fs + r.frames) }

  /** Calling `parse` until it returns no frame. */
  function Drain(buf: Data): Receiver
    decreases |buf|
  {
    var p := ParseSpec(buf);
    match p.result
    case Incomplete => Receiver([], buf, None)
    case Failed(e) => Receiver([], p.rest, Some(e))
    case Parsed(f) => After([f], Drain(p.rest))
  }

  method DrainBuffer(buf: BytesMut) returns (frames: seq<Frame>, error: Option<H2Error>)
    modifies buf
    ensures Receiver(frames, buf.bytes, error) == Drain(old(buf.bytes))
  {
    hide ParseSpec;
    frames := [];
    AfterNothing(Drain(buf.bytes));
    while true
      invariant After(frames, Drain(buf.bytes)) == Drain(old(buf.bytes))
      decreases |buf.bytes|
    {
      ghost var before := buf.bytes;
      var r := ParseFrame(buf);
      match r
      case Incomplete =>
        return frames, None;
      case Failed(e) =>
        return frames, Some(e);
      case Parsed(f) =>
        ParsedShrinks(before);
        AfterTwice(frames, [f], Drain(buf.bytes));
        frames := frames + [f];
    }
  }

  lemma AfterNothing(r: Receiver)
    ensures After([], r) == r
  {
    assert [] + r.frames == r.frames;
  }

  lemma AfterTwice(a: seq<Frame>, b: seq<Frame>, r: Receiver)
    ensures After(a, After(b, r)) == After(a + b, r)
  {
    assert a + (b + r.frames) == a + b + r.frames;
  }

  /** A frame takes exactly its header and its announced length off the buffer. */
  lemma ParsedShrinks(buf: Data)
    requires ParseSpec(buf).result.Parsed?
    ensures |buf| >= FRAME_HEADER_SIZE
    ensures |buf| - |ParseSpec(buf).rest| == FRAME_HEADER_SIZE + PayloadLength(buf)
  {
  }

  /** Once `parse` has decided, more bytes change nothing but what is left over. */
  lemma ParseIgnoresSuffix(a: Data, b: Data)
    requires !ParseSpec(a).result.Incomplete?
    ensures ParseSpec(a + b) == Parse(ParseSpec(a).result, ParseSpec(a).rest + b)
  {
    hide FrameOf, TypeOf;
    var ab := a + b;
    assert ab[3] == a[3] && PayloadLength(ab) == PayloadLength(a);
    if TypeOf(a[3]).Known? {
      var total := FRAME_HEADER_SIZE + PayloadLength(a);
      assert ab[4] == a[4];
      assert Field31(ab[5..]) == Field31(a[5..]);
      assert ab[FRAME_HEADER_SIZE..total] == a[FRAME_HEADER_SIZE..total];
      DropConcat(a, b, total);
    }
  }

  /** Draining a longer buffer is draining its front and going on from there. */
  lemma {:induction false} DrainConcat(a: Data, b: Data)
    ensures Drain(a + b) == FeedChunk(Drain(a), b)
    decreases |a|
  {
    hide ParseSpec;
    var p := ParseSpec(a);
    if p.result.Incomplete? {
      assert p.rest == a;
      AfterNothing(Drain(a + b));
    } else {
      ParseIgnoresSuffix(a, b);
      if p.result.Parsed? {
        ParsedShrinks(a);
        DrainConcat(p.rest, b);
        var d := Drain(p.rest);
        if d.error.None? {
          AfterTwice([p.result.frame], d.frames, Drain(d.rest + b));
        }
      }
    }
  }

  /** A chunk arrives: it is appended to the buffer, which is parsed unless parsing has failed. */
  function FeedChunk(r: Receiver, chunk: Data): Receiver
  {
    if r.error.Some? then r.(rest := r.rest + chunk) else After(r.frames, Drain(r.rest + chunk))
  }

  function FeedAll(r: Receiver, chunks: seq<Data>): Receiver
    decreases |chunks|
  {
    if chunks == [] then r else FeedAll(FeedChunk(r, chunks[0]), chunks[1..])
  }

  lemma {:induction false} FeedConcat(seen: Data, chunks: seq<Data>)
    ensures FeedAll(Drain(seen), chunks) == Drain(seen + Concat(chunks))
    decreases |chunks|
  {
    hide Drain, FeedChunk;
    if chunks == [] {
      assert seen + [] == seen;
    } else {
      DrainConcat(seen, chunks[0]);
      FeedConcat(seen + chunks[0], chunks[1..]);
      assert seen + chunks[0] + Concat(chunks[1..]) == seen + (chunks[0] + Concat(chunks[1..]));
    }
  }

  const NOTHING_RECEIVED: Receiver := Receiver([], [], None)

  /** Chunking independence: however a stream is cut, the receiver ends with the same frames, the
      same leftover bytes and the same first error as when it gets the stream whole. */
  lemma ChunkingIndependence(chunks: seq<Data>)
    ensures FeedAll(NOTHING_RECEIVED, chunks) == Drain(Concat(chunks))
  {
    assert Drain([]) == NOTHING_RECEIVED;
    FeedConcat([], chunks);
    assert [] + Concat(chunks) == Concat(chunks);
  }

  lemma SameStreamSameFrames(xs: seq<Data>, ys: seq<Data>)
    requires Concat(xs) == Concat(ys)
    ensures FeedAll(NOTHING_RECEIVED, xs) == FeedAll(NOTHING_RECEIVED, ys)
  {
    ChunkingIndependence(xs);
    ChunkingIndependence(ys);
  }

  function SerializeAll(fs: seq<Frame>): Data
  {
    if fs == [] then [] else SerializeSpec(fs[0]) + SerializeAll(fs[1..])
  }

  /** A list of frames in range, printed back to back, is read back whole; an unfinished frame
      after it is left alone. */
  lemma {:induction false} FrameListRoundTrip(fs: seq<Frame>, rest: Data)
    requires forall i :: 0 <= i < |fs| ==> InRange(fs[i])
    requires ParseSpec(rest).result.Incomplete?
    ensures Drain(SerializeAll(fs) + rest) == Receiver(fs, rest, None)
  {
    hide ParseSpec, SerializeSpec, InRange;
    if fs == [] {
      assert [] + rest == rest;
    } else {
      var tail := SerializeAll(fs[1..]) + rest;
      FrameRoundTrip(fs[0], tail);
      assert SerializeAll(fs) + rest == SerializeSpec(fs[0]) + tail;
      FrameListRoundTrip(fs[1..], rest);
      assert [fs[0]] + fs[1..] == fs;
    }
  }

  /** A frame list arrives intact over a stream cut anywhere. */
  lemma FramesOverChunks(fs: seq<Frame>, chunks: seq<Data>)
    requires forall i :: 0 <= i < |fs| ==> InRange(fs[i])
    requires Concat(chunks) == SerializeAll(fs)
    ensures FeedAll(NOTHING_RECEIVED, chunks) == Receiver(fs, [], None)
  {
    hide InRange, Drain, FeedAll;
    ChunkingIndependence(chunks);
    FrameListRoundTrip(fs, []);
    assert SerializeAll(fs) + [] == SerializeAll(fs);
  }
}
