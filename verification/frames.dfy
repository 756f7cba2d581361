/**
  HTTP/2 frames (section 4.1 and section 6 of RFC 7540): the parser that takes one frame off the
  front of a buffer, the printer, and the round trips between them.
*/
module Frames {
  import opened Bytes

  const FRAME_HEADER_SIZE: nat := 9

  datatype H2Error =
    | FrameTooShort
    | InvalidFrameType(code: byte)

  datatype FrameType =
    | DataType | HeadersType | PriorityType | RstStreamType | SettingsType
    | PushPromiseType | PingType | GoAwayType | WindowUpdateType | ContinuationType

  /** Eight bytes of PING payload. */
  type Octet = d: Data | |d| == 8 witness [0, 0, 0, 0, 0, 0, 0, 0]

  datatype Setting = Setting(id: u16, value: u32)

  datatype Frame =
    | DataFrame(streamId: u32, endStream: bool, data: Data)
    | Headers(streamId: u32, endStream: bool, endHeaders: bool, headerBlock: Data)
    | Priority(streamId: u32, exclusive: bool, dependency: u32, weight: byte)
    | RstStream(streamId: u32, errorCode: u32)
    | Settings(ack: bool, settings: seq<Setting>)
    | PushPromise(streamId: u32, promisedStreamId: u32, headerBlock: Data)
    | Ping(ack: bool, opaqueData: Octet)
    | GoAway(lastStreamId: u32, errorCode: u32, debugData: Data)
    | WindowUpdate(streamId: u32, increment: u32)
    | Continuation(streamId: u32, endHeaders: bool, headerBlock: Data)

  // ---- bits ---------------------------------------------------------------------------------------

  /** `b & 0x7f` on the first byte of a 31-bit field. */
  function Low7(b: byte): byte { if b >= 0x80 then b - 0x80 else b }

  /** `v & 0x7fffffff`. */
  function Low31(v: u32): u32 { if v >= TWO_31 then v - TWO_31 else v }

  /** `v | 0x80000000`. */
  function SetTop(v: u32): u32 { if v >= TWO_31 then v else v + TWO_31 }

  /** END_STREAM and ACK, bit 0 of the flags. */
  predicate Bit0(flags: byte) { flags % 2 == 1 }

  /** END_HEADERS, bit 2 of the flags. */
  predicate Bit2(flags: byte) { flags / 4 % 2 == 1 }

  // ---- parsing -----------------------------------------------------------------------------------

  datatype TypeResult = Known(frameType: FrameType) | Unknown(code: byte)

  function TypeOf(code: byte): TypeResult
  {
    match code
    case 0 => Known(DataType)
    case 1 => Known(HeadersType)
    case 2 => Known(PriorityType)
    case 3 => Known(RstStreamType)
    case 4 => Known(SettingsType)
    case 5 => Known(PushPromiseType)
    case 6 => Known(PingType)
    case 7 => Known(GoAwayType)
    case 8 => Known(WindowUpdateType)
    case 9 => Known(ContinuationType)
    case _ => Unknown(code)
  }

  datatype FrameResult = FrameOk(frame: Frame) | FrameErr(error: H2Error)

  /** Whole six-byte entries; a shorter rest is ignored. */
  function SettingsOf(p: Data): seq<Setting>
    decreases |p|
  {
    if |p| < 6 then [] else [Setting(U16Of(p[0], p[1]), U32Of(p[2], p[3], p[4], p[5]))] + SettingsOf(p[6..])
  }

  /** The 31-bit field at the front of a payload. */
  function Field31(p: Data): u32
    requires |p| >= 4
  {
    U32Of(Low7(p[0]), p[1], p[2], p[3])
  }

  function Field32(p: Data): u32
    requires |p| >= 4
  {
    U32Of(p[0], p[1], p[2], p[3])
  }

  function FrameOf(t: FrameType, flags: byte, streamId: u32, p: Data): FrameResult
  {
    match t
    case DataType => FrameOk(DataFrame(streamId, Bit0(flags), p))
    case HeadersType => FrameOk(Headers(streamId, Bit0(flags), Bit2(flags), p))
    case SettingsType => FrameOk(Settings(Bit0(flags), SettingsOf(p)))
    case WindowUpdateType =>
      if |p| < 4 then FrameErr(FrameTooShort) else FrameOk(WindowUpdate(streamId, Field31(p)))
    case PingType =>
      if |p| < 8 then FrameErr(FrameTooShort) else FrameOk(Ping(Bit0(flags), p[..8]))
    case GoAwayType =>
      if |p| < 8 then FrameErr(FrameTooShort) else FrameOk(GoAway(Field31(p), Field32(p[4..]), p[8..]))
    case RstStreamType =>
      if |p| < 4 then FrameErr(FrameTooShort) else FrameOk(RstStream(streamId, Field32(p)))
    case PriorityType =>
      if |p| < 5 then FrameErr(FrameTooShort) else FrameOk(Priority(streamId, p[0] >= 0x80, Field31(p), p[4]))
    case PushPromiseType =>
      if |p| < 4 then FrameErr(FrameTooShort) else FrameOk(PushPromise(streamId, Field31(p), p[4..]))
    case ContinuationType => FrameOk(Continuation(streamId, Bit2(flags), p))
  }

  datatype ParseResult =
    | Incomplete
    | Parsed(frame: Frame)
    | Failed(error: H2Error)

  /** What a call of `parse` returns and what it leaves in the buffer. */
  datatype Parse = Parse(result: ParseResult, rest: Data)

  function PayloadLength(buf: Data): nat
    requires |buf| >= FRAME_HEADER_SIZE
  {
    U24Of(buf[0], buf[1], buf[2])
  }

  function ParseSpec(buf: Data): (r: Parse)
    ensures r.result.Incomplete? ==> r.rest == buf
    ensures r.result.Parsed? ==>
              && |buf| >= FRAME_HEADER_SIZE && |buf| >= FRAME_HEADER_SIZE + PayloadLength(buf)
              && r.rest == buf[FRAME_HEADER_SIZE + PayloadLength(buf)..]
  {
    if |buf| < FRAME_HEADER_SIZE then Parse(Incomplete, buf)
    else
      match TypeOf(buf[3])
      case Unknown(code) => Parse(Failed(InvalidFrameType(code)), buf)
      case Known(t) =>
        var total := FRAME_HEADER_SIZE + PayloadLength(buf);
        if |buf| < total then Parse(Incomplete, buf)
        else
          match FrameOf(t, buf[4], Field31(buf[5..]), buf[FRAME_HEADER_SIZE..total])
          case FrameOk(f) => Parse(Parsed(f), buf[total..])
          case FrameErr(e) => Parse(Failed(e), buf[total..])
  }

  /** A growable byte buffer, consumed from the front. */
  class BytesMut {
    var bytes: Data

    constructor (bytes: Data)
      ensures this.bytes == bytes
    {
      this.bytes := bytes;
    }

    method SplitTo(n: nat) returns (front: Data)
      requires n <= |bytes|
      modifies this
      ensures front == old(bytes)[..n] && bytes == old(bytes)[n..]
    {
      front := bytes[..n];
      bytes := bytes[n..];
    }
  }

  method ParseSettings(payload: Data) returns (settings: seq<Setting>)
    ensures settings == SettingsOf(payload)
  {
    settings := [];
    var p := payload;
    while |p| >= 6
      invariant settings + SettingsOf(p) == SettingsOf(payload)
      decreases |p|
    {
      var s := Setting(U16Of(p[0], p[1]), U32Of(p[2], p[3], p[4], p[5]));
      assert settings + ([s] + SettingsOf(p[6..])) == settings + [s] + SettingsOf(p[6..]);
      settings := settings + [s];
      p := p[6..];
    }
  }

  method ParseFrame(buf: BytesMut) returns (r: ParseResult)
    modifies buf
    ensures Parse(r, buf.bytes) == ParseSpec(old(buf.bytes))
  {
    if |buf.bytes| < FRAME_HEADER_SIZE {
      return Incomplete;
    }
    var length := U24Of(buf.bytes[0], buf.bytes[1], buf.bytes[2]);
    var ft := TypeOf(buf.bytes[3]);
    if ft.Unknown? {
      return Failed(InvalidFrameType(ft.code));
    }
    var flags := buf.bytes[4];
    var streamId := U32Of(Low7(buf.bytes[5]), buf.bytes[6], buf.bytes[7], buf.bytes[8]);
    var totalLen := FRAME_HEADER_SIZE + length;
    if |buf.bytes| < totalLen {
      return Incomplete;
    }
    ghost var whole := buf.bytes;
    var header := buf.SplitTo(FRAME_HEADER_SIZE);
    var payload := buf.SplitTo(length);
    assert payload == whole[FRAME_HEADER_SIZE..totalLen] && buf.bytes == whole[totalLen..];
    if ft.frameType.SettingsType? {
      var settings := ParseSettings(payload);
      return Parsed(Settings(Bit0(flags), settings));
    }
    match FrameOf(ft.frameType, flags, streamId, payload)
    case FrameOk(f) => return Parsed(f);
    case FrameErr(e) => return Failed(e);
  }

  // ---- printing ----------------------------------------------------------------------------------

  function SettingsPayload(settings: seq<Setting>): (p: Data)
    ensures |p| == 6 * |settings|
  {
    if settings == [] then []
    else U16Bytes(settings[0].id) + U32Bytes(settings[0].value) + SettingsPayload(settings[1..])
  }

  function TypeCode(f: Frame): byte
  {
    match f
    case DataFrame(_, _, _) => 0
    case Headers(_, _, _, _) => 1
    case Priority(_, _, _, _) => 2
    case RstStream(_, _) => 3
    case Settings(_, _) => 4
    case PushPromise(_, _, _) => 5
    case Ping(_, _) => 6
    case GoAway(_, _, _) => 7
    case WindowUpdate(_, _) => 8
    case Continuation(_, _, _) => 9
  }

  function FlagsOf(f: Frame): byte
  {
    match f
    case DataFrame(_, endStream, _) => if endStream then 1 else 0
    case Headers(_, endStream, endHeaders, _) =>
      (if endStream then 1 else 0) + (if endHeaders then 4 else 0)
    case Settings(ack, _) => if ack then 1 else 0
    case Ping(ack, _) => if ack then 1 else 0
    case Continuation(_, endHeaders, _) => if endHeaders then 4 else 0
    case _ => 0
  }

  /** The stream a frame belongs to; SETTINGS, PING and GOAWAY are on stream 0. */
  function StreamId(f: Frame): u32
  {
    match f
    case Settings(_, _) => 0
    case Ping(_, _) => 0
    case GoAway(_, _, _) => 0
    case _ => f.streamId
  }

  function PayloadOf(f: Frame): Data
  {
    match f
    case DataFrame(_, _, data) => data
    case Headers(_, _, _, block) => block
    case Settings(_, settings) => SettingsPayload(settings)
    case WindowUpdate(_, increment) => U32Bytes(Low31(increment))
    case Ping(_, data) => data
    case GoAway(last, code, debug) => U32Bytes(Low31(last)) + U32Bytes(code) + debug
    case RstStream(_, code) => U32Bytes(code)
    case Priority(_, exclusive, dependency, weight) =>
      U32Bytes(if exclusive then SetTop(dependency) else dependency) + [weight]
    case PushPromise(_, promised, block) => U32Bytes(Low31(promised)) + block
    case Continuation(_, _, block) => block
  }

  function HeaderOf(f: Frame): (h: Data)
    ensures |h| == FRAME_HEADER_SIZE
  {
    U24Bytes(|PayloadOf(f)|) + [TypeCode(f), FlagsOf(f)] + U32Bytes(StreamId(f))
  }

  function SerializeSpec(f: Frame): (s: Data)
    ensures |s| >= FRAME_HEADER_SIZE
  {
    HeaderOf(f) + PayloadOf(f)
  }

  method Serialize(f: Frame, buf: BytesMut)
    modifies buf
    ensures buf.bytes == old(buf.bytes) + SerializeSpec(f)
  {
    var payload := PayloadOf(f);
    if f.Settings? {
      payload := [];
      for i := 0 to |f.settings|
        invariant payload + SettingsPayload(f.settings[i..]) == SettingsPayload(f.settings)
      {
        var entry := U16Bytes(f.settings[i].id) + U32Bytes(f.settings[i].value);
        assert f.settings[i..][1..] == f.settings[i + 1..];
        ghost var rest := SettingsPayload(f.settings[i + 1..]);
        assert payload + (entry + rest) == payload + entry + rest;
        payload := payload + entry;
      }
    }
    buf.bytes := buf.bytes + U24Bytes(|payload|);
    buf.bytes := buf.bytes + [TypeCode(f), FlagsOf(f)];
    buf.bytes := buf.bytes + U32Bytes(StreamId(f));
    buf.bytes := buf.bytes + payload;
  }

  // ---- round trips ---------------------------------------------------------------------------------

  /** The fields the wire format has room for. */
  predicate InRange(f: Frame)
  {
    && StreamId(f) < TWO_31
    && |PayloadOf(f)| < 0x100_0000
    && (match f
        case WindowUpdate(_, increment) => increment < TWO_31
        case GoAway(last, _, _) => last < TWO_31
        case Priority(_, _, dependency, _) => dependency < TWO_31
        case PushPromise(_, promised, _) => promised < TWO_31
        case _ => true)
  }

  lemma {:induction false} SettingsRoundTrip(settings: seq<Setting>)
    ensures SettingsOf(SettingsPayload(settings)) == settings
  {
    hide U16Bytes, U32Bytes, U16Of, U32Of;
    if settings != [] {
      SettingBytes(settings[0], SettingsPayload(settings[1..]));
      SettingsRoundTrip(settings[1..]);
      assert [settings[0]] + settings[1..] == settings;
    }
  }

  lemma SettingBytes(s: Setting, rest: Data)
    ensures var p := U16Bytes(s.id) + U32Bytes(s.value) + rest;
            && |p| == 6 + |rest| && p[6..] == rest
            && U16Of(p[0], p[1]) == s.id && U32Of(p[2], p[3], p[4], p[5]) == s.value
  {
    var p := U16Bytes(s.id) + U32Bytes(s.value) + rest;
    assert p[0] == U16Bytes(s.id)[0] && p[1] == U16Bytes(s.id)[1];
    assert p[2] == U32Bytes(s.value)[0] && p[3] == U32Bytes(s.value)[1];
    assert p[4] == U32Bytes(s.value)[2] && p[5] == U32Bytes(s.value)[3];
  }

  lemma Field32RoundTrip(v: u32, rest: Data)
    ensures Field32(U32Bytes(v) + rest) == v
    ensures v < TWO_31 ==> Field31(U32Bytes(v) + rest) == v
    ensures v < TWO_31 ==> (U32Bytes(v) + rest)[0] < 0x80
    ensures v < TWO_31 ==> Field31(U32Bytes(SetTop(v)) + rest) == v && (U32Bytes(SetTop(v)) + rest)[0] >= 0x80
    ensures (U32Bytes(v) + rest)[4..] == rest
  {
  }

  /** The payload and flags of a frame in range rebuild the frame. */
  lemma PayloadRoundTrip(f: Frame)
    requires InRange(f)
    ensures TypeOf(TypeCode(f)).Known?
    ensures FrameOf(TypeOf(TypeCode(f)).frameType, FlagsOf(f), StreamId(f), PayloadOf(f)) == FrameOk(f)
  {
    hide U32Bytes, Field31, Field32;
    match f
    case Settings(_, settings) => SettingsRoundTrip(settings);
    case WindowUpdate(_, increment) =>
      Field32RoundTrip(increment, []);
      assert U32Bytes(increment) + [] == U32Bytes(increment);
    case Ping(_, data) => assert data[..8] == data;
    case GoAway(last, code, debug) =>
      var p := PayloadOf(f);
      assert p == U32Bytes(last) + (U32Bytes(code) + debug) && |p| >= 8;
      Field32RoundTrip(last, U32Bytes(code) + debug);
      Field32RoundTrip(code, debug);
      assert p[8..] == p[4..][4..];
    case RstStream(_, code) =>
      Field32RoundTrip(code, []);
      assert U32Bytes(code) + [] == U32Bytes(code);
    case Priority(_, exclusive, dependency, weight) => Field32RoundTrip(dependency, [weight]);
    case PushPromise(_, promised, block) => Field32RoundTrip(promised, block);
    case _ =>
  }

  lemma HeaderRoundTrip(f: Frame, rest: Data)
    requires InRange(f)
    ensures var buf := SerializeSpec(f) + rest;
            && |buf| == FRAME_HEADER_SIZE + |PayloadOf(f)| + |rest|
            && PayloadLength(buf) == |PayloadOf(f)|
            && buf[3] == TypeCode(f) && buf[4] == FlagsOf(f)
            && Field31(buf[5..]) == StreamId(f)
            && buf[FRAME_HEADER_SIZE..FRAME_HEADER_SIZE + |PayloadOf(f)|] == PayloadOf(f)
            && buf[FRAME_HEADER_SIZE + |PayloadOf(f)|..] == rest
  {
    hide PayloadOf, FlagsOf, TypeCode, U32Bytes, U24Bytes, U24Of, Field31, Field32;
    U24RoundTrip(|PayloadOf(f)|);
    var p := PayloadOf(f);
    var buf := SerializeSpec(f) + rest;
    assert buf[..5] == U24Bytes(|p|) + [TypeCode(f), FlagsOf(f)];
    assert buf[5..] == U32Bytes(StreamId(f)) + (p + rest);
    Field32RoundTrip(StreamId(f), p + rest);
    assert buf[0] == buf[..5][0] && buf[1] == buf[..5][1] && buf[2] == buf[..5][2];
    assert buf[3] == buf[..5][3] && buf[4] == buf[..5][4];
  }

  /** Parsing the bytes of a frame in range gives the frame and leaves exactly what follows. */
  lemma FrameRoundTrip(f: Frame, rest: Data)
    requires InRange(f)
    ensures ParseSpec(SerializeSpec(f) + rest) == Parse(Parsed(f), rest)
  {
    hide PayloadOf, FlagsOf, TypeCode, FrameOf, TypeOf, SerializeSpec, PayloadLength, Field31;
    PayloadRoundTrip(f);
    HeaderRoundTrip(f, rest);
  }

  lemma {:induction false} SettingsPayloadBound(p: Data)
    ensures 6 * |SettingsOf(p)| <= |p|
    decreases |p|
  {
    if |p| >= 6 {
      SettingsPayloadBound(p[6..]);
    }
  }

  lemma Field31Small(p: Data)
    requires |p| >= 4
    ensures Field31(p) < TWO_31
  {
  }

  lemma FrameOfInRange(t: FrameType, flags: byte, streamId: u32, p: Data)
    requires streamId < TWO_31 && |p| < 0x100_0000
    requires FrameOf(t, flags, streamId, p).FrameOk?
    ensures InRange(FrameOf(t, flags, streamId, p).frame)
  {
    hide Field31, Field32, Bit0, Bit2, U32Bytes;
    SettingsPayloadBound(p);
    if |p| >= 4 {
      Field31Small(p);
    }
  }

  /** Every frame the parser produces is in range, whatever it ignored on the way. */
  lemma ParsedInRange(buf: Data)
    requires ParseSpec(buf).result.Parsed?
    ensures InRange(ParseSpec(buf).result.frame)
  {
    hide FrameOf, InRange, Field31;
    var total := FRAME_HEADER_SIZE + PayloadLength(buf);
    Field31Small(buf[5..]);
    FrameOfInRange(TypeOf(buf[3]).frameType, buf[4], Field31(buf[5..]), buf[FRAME_HEADER_SIZE..total]);
  }

  /** The printer loses nothing exactly on the frames in range. */
  lemma RoundTripIffInRange(f: Frame, rest: Data)
    ensures ParseSpec(SerializeSpec(f) + rest) == Parse(Parsed(f), rest) <==> InRange(f)
  {
    hide PayloadOf, SerializeSpec, ParseSpec, InRange;
    if InRange(f) {
      FrameRoundTrip(f, rest);
    } else if ParseSpec(SerializeSpec(f) + rest) == Parse(Parsed(f), rest) {
      ParsedInRange(SerializeSpec(f) + rest);
    }
  }

  /** Printing a parsed frame and parsing it again is the identity. */
  lemma ReparseIsIdentity(buf: Data, rest: Data)
    requires ParseSpec(buf).result.Parsed?
    ensures var f := ParseSpec(buf).result.frame;
            ParseSpec(SerializeSpec(f) + rest) == Parse(Parsed(f), rest)
  {
    hide ParseSpec, SerializeSpec, InRange;
    ParsedInRange(buf);
    FrameRoundTrip(ParseSpec(buf).result.frame, rest);
  }
}
