/**
  End to end: what the send calls on one connection become on the other side of a byte stream.
  The send calls queue frames, the frames are printed, the bytes arrive in any chunks, are parsed
  and processed by a fresh connection that only receives.
*/
module Delivery {
  import opened Bytes
  import opened HpackTable
  import opened HpackStatic
  import opened HpackDecoder
  import opened HpackEncoder
  import opened Frames
  import opened FrameStream
  import opened Streams
  import opened Connection

  datatype Call =
    | CallHeaders(id: u32, headers: seq<Header>, endStream: bool)
    | CallData(id: u32, data: Data, endStream: bool)

  function ApplyCall(c: Conn, call: Call): Conn
  {
    match call
    case CallHeaders(id, headers, endStream) => SendHeadersSpec(c, id, headers, endStream)
    case CallData(id, data, endStream) => SendDataSpec(c, id, data, endStream)
  }

  function ApplyCalls(c: Conn, calls: seq<Call>): Conn
    decreases |calls|
  {
    if calls == [] then c else ApplyCall(ApplyCalls(c, calls[..|calls| - 1]), calls[|calls| - 1])
  }

  /** Processing frames in order, and whether all of them were accepted. */
  function ProcessAll(c: Conn, fs: seq<Frame>): (Conn, bool)
    decreases |fs|
  {
    if fs == [] then (c, true)
    else
      var (c', ok) := ProcessAll(c, fs[..|fs| - 1]);
      var o := Process(c', fs[|fs| - 1]);
      (o.conn, ok && o.result.Done?)
  }

  // ---- what should arrive, said without any connection -------------------------------------------------

  function CallsFor(calls: seq<Call>, id: u32): seq<Call>
    decreases |calls|
  {
    if calls == [] then []
    else
      var last := calls[|calls| - 1];
      CallsFor(calls[..|calls| - 1], id) + if last.id == id then [last] else []
  }

  /** The calls on one stream from its first HEADERS on. */
  function FromFirstHeaders(cs: seq<Call>): seq<Call>
  {
    if cs == [] || cs[0].CallHeaders? then cs else FromFirstHeaders(cs[1..])
  }

  /** Up to and including the first call that ends the stream. */
  function ThroughFirstEnd(cs: seq<Call>): seq<Call>
  {
    if cs == [] then [] else if cs[0].endStream then [cs[0]] else [cs[0]] + ThroughFirstEnd(cs[1..])
  }

  predicate Ends(cs: seq<Call>) { exists i :: 0 <= i < |cs| && cs[i].endStream }

  function BodyOf(cs: seq<Call>): Data
  {
    if cs == [] then [] else (if cs[0].CallData? then cs[0].data else []) + BodyOf(cs[1..])
  }

  function LastHeaders(cs: seq<Call>): Option<seq<Header>>
    decreases |cs|
  {
    if cs == [] then None
    else if cs[|cs| - 1].CallHeaders? then Some(cs[|cs| - 1].headers)
    else LastHeaders(cs[..|cs| - 1])
  }

  /** What a receive-only connection should hold for a stream after these calls on it. */
  predicate DeliveredStream(c: Conn, id: u32, cs: seq<Call>)
  {
    match LastHeaders(cs)
    case None => id !in c.streams
    case Some(headers) =>
      && id in c.streams
      && c.streams[id].requestHeaders == headers
      && c.streams[id].requestBody == BodyOf(ThroughFirstEnd(FromFirstHeaders(cs)))
      && c.streams[id].state == if Ends(FromFirstHeaders(cs)) then HalfClosedRemote else Open
  }

  // ---- the reference definitions, one call later ---------------------------------------------------------

  lemma {:induction false} FromFirstHeadersSnoc(cs: seq<Call>, x: Call)
    ensures FromFirstHeaders(cs + [x]) ==
      if LastHeaders(cs).Some? then FromFirstHeaders(cs) + [x] else if x.CallHeaders? then [x] else []
    ensures LastHeaders(cs).None? ==> FromFirstHeaders(cs) == []
  {
    if cs == [] {
      assert [] + [x] == [x] && [x][1..] == [];
    } else if cs[0].CallHeaders? {
      FirstHeadersGiveLast(cs);
    } else {
      assert (cs + [x])[1..] == cs[1..] + [x];
      FromFirstHeadersSnoc(cs[1..], x);
      DataGivesNoHeaders(cs);
    }
  }

  lemma {:induction false} FirstHeadersGiveLast(cs: seq<Call>)
    requires cs != [] && cs[0].CallHeaders?
    ensures LastHeaders(cs).Some?
    decreases |cs|
  {
    if |cs| > 1 && !cs[|cs| - 1].CallHeaders? {
      FirstHeadersGiveLast(cs[..|cs| - 1]);
    }
  }

  lemma {:induction false} DataGivesNoHeaders(cs: seq<Call>)
    requires cs != [] && cs[0].CallData?
    ensures LastHeaders(cs) == LastHeaders(cs[1..])
    decreases |cs|
  {
    if |cs| > 1 && !cs[|cs| - 1].CallHeaders? {
      DataGivesNoHeaders(cs[..|cs| - 1]);
      assert cs[..|cs| - 1][1..] == cs[1..][..|cs[1..]| - 1];
    }
  }

  lemma {:induction false} ThroughFirstEndSnoc(cs: seq<Call>, x: Call)
    ensures ThroughFirstEnd(cs + [x]) == if Ends(cs) then ThroughFirstEnd(cs) else ThroughFirstEnd(cs) + [x]
    ensures !Ends(cs) ==> ThroughFirstEnd(cs) == cs
  {
    if cs == [] {
      assert [] + [x] == [x] && [x][1..] == [];
    } else {
      assert (cs + [x])[1..] == cs[1..] + [x];
      ThroughFirstEndSnoc(cs[1..], x);
      EndsCons(cs);
      assert [cs[0]] + (cs[1..] + [x]) == cs + [x];
    }
  }

  lemma EndsCons(cs: seq<Call>)
    requires cs != []
    ensures Ends(cs) <==> cs[0].endStream || Ends(cs[1..])
  {
    if Ends(cs) && !cs[0].endStream {
      var i :| 0 <= i < |cs| && cs[i].endStream;
      assert cs[1..][i - 1].endStream;
    }
    if Ends(cs[1..]) {
      var i :| 0 <= i < |cs[1..]| && cs[1..][i].endStream;
      assert cs[i + 1].endStream;
    }
  }

  lemma EndsSnoc(cs: seq<Call>, x: Call)
    ensures Ends(cs + [x]) <==> Ends(cs) || x.endStream
  {
    if Ends(cs) {
      var i :| 0 <= i < |cs| && cs[i].endStream;
      assert (cs + [x])[i].endStream;
    }
    assert (cs + [x])[|cs|] == x;
    if Ends(cs + [x]) && !x.endStream {
      var i :| 0 <= i < |cs + [x]| && (cs + [x])[i].endStream;
      assert cs[i].endStream;
    }
  }

  lemma {:induction false} BodySnoc(cs: seq<Call>, x: Call)
    ensures BodyOf(cs + [x]) == BodyOf(cs) + if x.CallData? then x.data else []
  {
    if cs == [] {
      assert [] + [x] == [x] && [x][1..] == [];
    } else {
      assert (cs + [x])[1..] == cs[1..] + [x];
      BodySnoc(cs[1..], x);
    }
  }

  // ---- one frame ---------------------------------------------------------------------------------------

  function FrameFor(call: Call): Frame
  {
    match call
    case CallHeaders(id, headers, endStream) => Headers(id, endStream, true, EncodeBlock(headers))
    case CallData(id, data, endStream) => DataFrame(id, endStream, data)
  }

  function FramesFor(calls: seq<Call>): (fs: seq<Frame>)
    ensures |fs| == |calls|
    decreases |calls|
  {
    if calls == [] then [] else FramesFor(calls[..|calls| - 1]) + [FrameFor(calls[|calls| - 1])]
  }

  lemma {:induction false} FrameAt(calls: seq<Call>, i: nat)
    requires i < |calls|
    ensures FramesFor(calls)[i] == FrameFor(calls[i])
    decreases |calls|
  {
    hide FrameFor;
    if i < |calls| - 1 {
      FrameAt(calls[..|calls| - 1], i);
    }
  }

  /** Identifiers of 31 bits and payloads of 24-bit length. */
  predicate CallInRange(call: Call)
  {
    && call.id < TWO_31
    && (match call
        case CallHeaders(_, headers, _) => |EncodeBlock(headers)| < 0x100_0000
        case CallData(_, data, _) => |data| < 0x100_0000)
  }

  predicate AllInRange(calls: seq<Call>) { forall i :: 0 <= i < |calls| ==> CallInRange(calls[i]) }

  lemma HeadersArrive(c: Conn, call: Call)
    requires CallInRange(call) && call.CallHeaders?
    ensures var o := Process(c, FrameFor(call));
            && o.result.Done?
            && o.conn.streams == c.streams[call.id := WithHeaders(StreamFor(c, call.id), call.headers, call.endStream)]
  {
    hide EncodeBlock, DecodeBlock, WithHeaders, StreamFor, Insertions;
    BlockRoundTrip(call.headers, c.decoder);
  }

  lemma HeadersStep(c: Conn, id: u32, cs: seq<Call>, x: Call)
    requires CallInRange(x) && x.CallHeaders? && x.id == id && DeliveredStream(c, id, cs)
    ensures DeliveredStream(Process(c, FrameFor(x)).conn, id, cs + [x])
  {
    hide Process, FrameFor, CallInRange, BodyOf, ThroughFirstEnd, Ends, FromFirstHeaders, LastHeaders, WrapI32;
    HeadersArrive(c, x);
    HeadersHistory(cs, x);
  }

  /** What one more HEADERS means for a stream, calls only. */
  lemma HeadersHistory(cs: seq<Call>, x: Call)
    requires x.CallHeaders?
    ensures LastHeaders(cs + [x]) == Some(x.headers)
    ensures var before, after := FromFirstHeaders(cs), FromFirstHeaders(cs + [x]);
            if LastHeaders(cs).Some? then
              && BodyOf(ThroughFirstEnd(after)) == BodyOf(ThroughFirstEnd(before))
              && (Ends(after) <==> Ends(before) || x.endStream)
            else
              BodyOf(ThroughFirstEnd(after)) == [] && (Ends(after) <==> x.endStream)
  {
    hide BodyOf, ThroughFirstEnd, Ends, FromFirstHeaders;
    FromFirstHeadersSnoc(cs, x);
    var before := FromFirstHeaders(cs);
    if LastHeaders(cs).Some? {
      ThroughFirstEndSnoc(before, x);
      EndsSnoc(before, x);
      BodySnoc(ThroughFirstEnd(before), x);
      assert BodyOf(ThroughFirstEnd(before)) + [] == BodyOf(ThroughFirstEnd(before));
    } else {
      JustHeaders(x);
    }
  }

  lemma JustHeaders(x: Call)
    requires x.CallHeaders?
    ensures BodyOf(ThroughFirstEnd([x])) == [] && (Ends([x]) <==> x.endStream)
  {
    assert [x][1..] == [] && [x] + [] == [x];
    EndsCons([x]);
  }

  lemma DataStep(c: Conn, id: u32, cs: seq<Call>, x: Call)
    requires x.CallData? && x.id == id && DeliveredStream(c, id, cs)
    ensures DeliveredStream(Process(c, FrameFor(x)).conn, id, cs + [x])
  {
    hide WrapI32, BodyOf, ThroughFirstEnd, Ends;
    FromFirstHeadersSnoc(cs, x);
    assert (cs + [x])[..|cs|] == cs;
    assert LastHeaders(cs + [x]) == LastHeaders(cs);
    var before := FromFirstHeaders(cs);
    if LastHeaders(cs).Some? {
      ThroughFirstEndSnoc(before, x);
      EndsSnoc(before, x);
      BodySnoc(ThroughFirstEnd(before), x);
    }
  }

  lemma OtherStreamStep(c: Conn, id: u32, cs: seq<Call>, x: Call)
    requires CallInRange(x) && x.id != id && DeliveredStream(c, id, cs)
    ensures DeliveredStream(Process(c, FrameFor(x)).conn, id, cs)
  {
    hide BodyOf, ThroughFirstEnd, FromFirstHeaders, LastHeaders, Ends, WithHeaders, StreamFor, EncodeBlock, WrapI32,
         DecodeBlock;
    if x.CallHeaders? {
      HeadersArrive(c, x);
    }
  }

  /** Frame by frame, every stream holds what the calls say, and no frame is refused. */
  lemma {:induction false} ProcessedDelivers(settings: H2Settings, calls: seq<Call>, id: u32)
    requires AllInRange(calls)
    ensures var (c, ok) := ProcessAll(NewConn(settings), FramesFor(calls));
            ok && DeliveredStream(c, id, CallsFor(calls, id))
    decreases |calls|
  {
    hide Process, DeliveredStream, FrameFor, CallInRange;
    if calls == [] {
      NothingDelivered(settings, id);
    } else {
      var before := calls[..|calls| - 1];
      var x := calls[|calls| - 1];
      ProcessedDelivers(settings, before, id);
      var (c, _) := ProcessAll(NewConn(settings), FramesFor(before));
      assert FramesFor(calls)[..|calls| - 1] == FramesFor(before);
      Accepted(c, x);
      if x.id != id {
        OtherStreamStep(c, id, CallsFor(before, id), x);
        assert CallsFor(before, id) + [] == CallsFor(before, id);
      } else if x.CallHeaders? {
        HeadersStep(c, id, CallsFor(before, id), x);
      } else {
        DataStep(c, id, CallsFor(before, id), x);
      }
    }
  }

  lemma Accepted(c: Conn, x: Call)
    requires CallInRange(x)
    ensures Process(c, FrameFor(x)).result.Done?
  {
    hide EncodeBlock, DecodeBlock;
    if x.CallHeaders? {
      HeadersArrive(c, x);
    }
  }

  lemma NothingDelivered(settings: H2Settings, id: u32)
    ensures DeliveredStream(NewConn(settings), id, [])
  {
  }

  lemma {:induction false} CallsQueueFrames(c: Conn, calls: seq<Call>)
    ensures ApplyCalls(c, calls).outgoing == c.outgoing + FramesFor(calls)
    decreases |calls|
  {
    hide EncodeBlock, InsertAll, Insertions;
    if calls == [] {
      assert c.outgoing + [] == c.outgoing;
    } else {
      CallsQueueFrames(c, calls[..|calls| - 1]);
    }
  }

  lemma {:induction false} FramesInRange(calls: seq<Call>)
    requires AllInRange(calls)
    ensures forall i :: 0 <= i < |calls| ==> InRange(FramesFor(calls)[i])
  {
    hide EncodeBlock, FramesFor;
    forall i | 0 <= i < |calls|
      ensures InRange(FramesFor(calls)[i])
    {
      FrameAt(calls, i);
      assert CallInRange(calls[i]);
    }
  }

  /** End-to-end delivery.  Any sequence of `send_headers` and `send_data` calls on A, its queue
      printed in order, cut into any chunks, parsed and processed by a fresh receive-only B: the
      stream of bytes parses completely, no frame is refused, and each stream on B holds the last
      header list sent on it and exactly the data sent after its first HEADERS up to and
      including its first END_STREAM. */
  lemma EndToEndDelivery(a: Conn, settingsB: H2Settings, calls: seq<Call>, chunks: seq<Data>, id: u32)
    requires a.outgoing == [] && AllInRange(calls)
    requires Concat(chunks) == SerializeAll(ApplyCalls(a, calls).outgoing)
    ensures var r := FeedAll(NOTHING_RECEIVED, chunks);
            var (b, ok) := ProcessAll(NewConn(settingsB), r.frames);
            && r.rest == [] && r.error.None?
            && ok
            && DeliveredStream(b, id, CallsFor(calls, id))
  {
    hide AllInRange, DeliveredStream, FeedAll, SerializeAll, InRange, ApplyCalls;
    CallsQueueFrames(a, calls);
    assert [] + FramesFor(calls) == FramesFor(calls);
    FramesInRange(calls);
    FramesOverChunks(FramesFor(calls), chunks);
    ProcessedDelivers(settingsB, calls, id);
  }
}
