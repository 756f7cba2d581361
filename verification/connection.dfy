/**
  An HTTP/2 connection: what every call does to its state, as a function, and the class whose
  methods do it in place.
*/
module Connection {
  import opened Bytes
  import opened HpackInteger
  import opened HpackTable
  import opened HpackStatic
  import opened HpackDecoder
  import opened HpackEncoder
  import opened Frames
  import opened Streams

  datatype H2Settings = H2Settings(
    headerTableSize: u32,
    enablePush: bool,
    maxConcurrentStreams: u32,
    initialWindowSize: u32,
    maxFrameSize: u32,
    maxHeaderListSize: u32)

  const DEFAULT_SETTINGS: H2Settings := H2Settings(4096, true, 100, 65535, 16384, 8192)

  const DECODER_TABLE_SIZE: nat := 4096

  function Preface(): Data { Text("PRI * HTTP/2.0\r\n\r\nSM\r\n\r\n") }

  type StreamMap = map<u32, StreamValue>

  /** The fields of a connection at one moment. */
  datatype Conn = Conn(
    local: H2Settings,
    remote: H2Settings,
    streams: StreamMap,
    encoder: Table,
    decoder: Table,
    sendWindow: i32,
    recvWindow: i32,
    prefaceReceived: bool,
    settingsAcked: bool,
    outgoing: seq<Frame>,
    goingAway: bool,
    lastStreamId: u32)

  function NewConn(settings: H2Settings): Conn
  {
    var window := WrapI32(settings.initialWindowSize);
    Conn(settings, DEFAULT_SETTINGS, map[], EmptyTable(settings.headerTableSize),
         EmptyTable(DECODER_TABLE_SIZE), window, window, false, false, [], false, 0)
  }

  // ---- receiving ---------------------------------------------------------------------------------

  function CreditAll(m: StreamMap, delta: i32): (r: StreamMap)
    ensures r.Keys == m.Keys
  {
    map k | k in m :: Credited(m[k], delta)
  }

  function WindowDelta(before: u32, after: u32): i32 { WrapI32(WrapI32(after) - WrapI32(before)) }

  function ApplySetting(c: Conn, s: Setting): Conn
  {
    match s.id
    case 1 => c.(remote := c.remote.(headerTableSize := s.value))
    case 2 => c.(remote := c.remote.(enablePush := s.value != 0))
    case 3 => c.(remote := c.remote.(maxConcurrentStreams := s.value))
    case 4 => c.(remote := c.remote.(initialWindowSize := s.value),
                 streams := CreditAll(c.streams, WindowDelta(c.remote.initialWindowSize, s.value)))
    case 5 => c.(remote := c.remote.(maxFrameSize := s.value))
    case 6 => c.(remote := c.remote.(maxHeaderListSize := s.value))
    case _ => c
  }

  function ApplySettings(c: Conn, settings: seq<Setting>): Conn
    decreases |settings|
  {
    if settings == [] then c
    else ApplySetting(ApplySettings(c, settings[..|settings| - 1]), settings[|settings| - 1])
  }

  /** The stream HEADERS is applied to: the stored one or a new one, whose windows both start
      from the local settings. */
  function StreamFor(c: Conn, id: u32): StreamValue
  {
    if id in c.streams then c.streams[id] else NewStream(id, WrapI32(c.local.initialWindowSize))
  }

  function WithHeaders(s: StreamValue, headers: seq<Header>, endStream: bool): StreamValue
  {
    var s' := Opened(s).(requestHeaders := headers);
    if endStream then RemoteEnded(s') else s'
  }

  function WithData(s: StreamValue, data: Data, endStream: bool): StreamValue
  {
    if endStream then RemoteEnded(Extended(s, data)) else Extended(s, data)
  }

  /** `Panicked` is not returned: the decoder's slice panic ends the calling thread. */
  datatype Processed = Done | ProtocolError(error: HpackError) | Panicked

  function Refused(e: HpackError): Processed { if e.SlicePanic? then Panicked else ProtocolError(e) }

  datatype Outcome = Outcome(conn: Conn, result: Processed)

  function ReceiveHeaders(c: Conn, id: u32, endStream: bool, block: Data): Outcome
  {
    var b := DecodeBlock(block, c.decoder);
    match b.result
    case Err(e) => Outcome(c.(decoder := b.table), Refused(e))
    case Ok(headers) =>
      Outcome(c.(decoder := b.table,
                 streams := c.streams[id := WithHeaders(StreamFor(c, id), headers, endStream)],
                 lastStreamId := if id > c.lastStreamId then id else c.lastStreamId), Done)
  }

  function ReceiveData(c: Conn, id: u32, endStream: bool, data: Data): Conn
  {
    if id in c.streams && CanReceive(c.streams[id]) then
      c.(streams := c.streams[id := WithData(c.streams[id], data, endStream)],
         recvWindow := WrapI32(c.recvWindow - WrapI32(|data|)))
    else c
  }

  function ReceiveWindowUpdate(c: Conn, id: u32, increment: u32): Conn
  {
    if id == 0 then c.(sendWindow := WrapI32(c.sendWindow + WrapI32(increment)))
    else if id in c.streams then c.(streams := c.streams[id := Credited(c.streams[id], WrapI32(increment))])
    else c
  }

  function ReceiveReset(c: Conn, id: u32): Conn
  {
    if id in c.streams then c.(streams := c.streams[id := c.streams[id].(state := Closed)]) else c
  }

  function Process(c: Conn, f: Frame): Outcome
  {
    match f
    case Settings(true, _) => Outcome(c.(settingsAcked := true), Done)
    case Settings(false, settings) =>
      var c' := ApplySettings(c, settings);
      Outcome(c'.(outgoing := c'.outgoing + [Settings(true, [])]), Done)
    case Headers(id, endStream, _, block) => ReceiveHeaders(c, id, endStream, block)
    case DataFrame(id, endStream, data) => Outcome(ReceiveData(c, id, endStream, data), Done)
    case WindowUpdate(id, increment) => Outcome(ReceiveWindowUpdate(c, id, increment), Done)
    case Ping(false, data) => Outcome(c.(outgoing := c.outgoing + [Ping(true, data)]), Done)
    case GoAway(_, _, _) => Outcome(c.(goingAway := true), Done)
    case RstStream(id, _) => Outcome(ReceiveReset(c, id), Done)
    case _ => Outcome(c, Done)
  }

  // ---- sending ------------------------------------------------------------------------------------

  function SendHeadersSpec(c: Conn, id: u32, headers: seq<Header>, endStream: bool): Conn
  {
    var c' := c.(encoder := InsertAll(c.encoder, Insertions(headers)),
                 outgoing := c.outgoing + [Headers(id, endStream, true, EncodeBlock(headers))]);
    if id in c.streams then
      var s := c.streams[id].(responseHeaders := headers);
      c'.(streams := c.streams[id := if endStream then LocalEnded(s) else s])
    else c'
  }

  function SendDataSpec(c: Conn, id: u32, data: Data, endStream: bool): Conn
  {
    var c' := c.(outgoing := c.outgoing + [DataFrame(id, endStream, data)]);
    if endStream && id in c.streams then c'.(streams := c.streams[id := LocalEnded(c.streams[id])]) else c'
  }

  function LocalSettingsFrame(local: H2Settings): Frame
  {
    Settings(false, [Setting(1, local.headerTableSize), Setting(3, local.maxConcurrentStreams),
                     Setting(4, local.initialWindowSize), Setting(5, local.maxFrameSize)])
  }

  function PrefaceSpec(c: Conn, data: Data): Conn
  {
    if Preface() <= data then
      c.(prefaceReceived := true, outgoing := c.outgoing + [LocalSettingsFrame(c.local)])
    else c
  }

  // ---- the class -------------------------------------------------------------------------------------

  class H2Connection {
    const localSettings: H2Settings
    var remoteSettings: H2Settings
    var streams: StreamMap
    const hpackEncoder: Encoder
    const hpackDecoder: Decoder
    var sendWindow: i32
    var recvWindow: i32
    var prefaceReceived: bool
    var settingsAcked: bool
    var outgoing: seq<Frame>
    var goingAway: bool
    var lastStreamId: u32

    ghost predicate Valid()
      reads this, hpackEncoder, hpackEncoder.table, hpackDecoder, hpackDecoder.table
    {
      hpackEncoder.Valid() && hpackDecoder.Valid() && hpackEncoder.table != hpackDecoder.table
    }

    function Abstract(): Conn
      reads this, hpackEncoder.table, hpackDecoder.table
    {
      Conn(localSettings, remoteSettings, streams,
           hpackEncoder.table.Abstract(), hpackDecoder.table.Abstract(), sendWindow, recvWindow,
           prefaceReceived, settingsAcked, outgoing, goingAway, lastStreamId)
    }

    constructor (settings: H2Settings)
      ensures Valid() && Abstract() == NewConn(settings)
      ensures fresh(hpackEncoder.table) && fresh(hpackDecoder.table)
    {
      localSettings := settings;
      remoteSettings := DEFAULT_SETTINGS;
      streams := map[];
      hpackEncoder := new Encoder(settings.headerTableSize);
      hpackDecoder := new Decoder(DECODER_TABLE_SIZE);
      sendWindow := WrapI32(settings.initialWindowSize);
      recvWindow := WrapI32(settings.initialWindowSize);
      prefaceReceived, settingsAcked, goingAway := false, false, false;
      outgoing := [];
      lastStreamId := 0;
    }

    method ProcessPreface(data: Data) returns (ok: bool)
      requires Valid()
      modifies this
      ensures Valid()
      ensures ok <==> Preface() <= data
      ensures Abstract() == PrefaceSpec(old(Abstract()), data)
    {
      if |data| >= |Preface()| && data[..|Preface()|] == Preface() {
        prefaceReceived := true;
        outgoing := outgoing + [LocalSettingsFrame(localSettings)];
        return true;
      }
      return false;
    }

    /** Every stored stream is borrowed once, in any order, and credited. */
    method UpdateAllSendWindows(delta: i32)
      requires Valid()
      modifies this`streams
      ensures Valid()
      ensures streams == CreditAll(old(streams), delta)
    {
      hide SaturatingAdd;
      var pending := streams.Keys;
      while pending != {}
        invariant pending <= streams.Keys == old(streams).Keys
        invariant forall k :: k in pending ==> streams[k] == old(streams)[k]
        invariant forall k :: k in streams && k !in pending ==> streams[k] == Credited(old(streams)[k], delta)
        decreases pending
      {
        var k :| k in pending;
        var stream := new Stream.Borrow(streams[k]);
        stream.UpdateSendWindow(delta);
        streams := streams[k := stream.Value()];
        pending := pending - {k};
      }
    }

    method ProcessSettings(settings: seq<Setting>)
      requires Valid()
      modifies this
      ensures Valid()
      ensures Abstract() == ApplySettings(old(Abstract()), settings)
    {
      hide WrapI32, WindowDelta, CreditAll, DynamicTable.Abstract;
      ghost var c := Abstract();
      assert settings[..0] == [];
      for i := 0 to |settings|
        invariant Valid()
        invariant Abstract() == ApplySettings(c, settings[..i])
      {
        assert settings[..i + 1][..i] == settings[..i];
        var id, value := settings[i].id, settings[i].value;
        match id
        case 1 => remoteSettings := remoteSettings.(headerTableSize := value);
        case 2 => remoteSettings := remoteSettings.(enablePush := value != 0);
        case 3 => remoteSettings := remoteSettings.(maxConcurrentStreams := value);
        case 4 =>
          var delta := WindowDelta(remoteSettings.initialWindowSize, value);
          remoteSettings := remoteSettings.(initialWindowSize := value);
          UpdateAllSendWindows(delta);
        case 5 => remoteSettings := remoteSettings.(maxFrameSize := value);
        case 6 => remoteSettings := remoteSettings.(maxHeaderListSize := value);
        case _ =>
      }
      assert settings[..|settings|] == settings;
    }

    method ProcessHeaders(id: u32, endStream: bool, block: Data) returns (r: Processed)
      requires Valid()
      modifies this`streams, this`lastStreamId, hpackDecoder.table
      ensures Valid()
      ensures Outcome(Abstract(), r) == ReceiveHeaders(old(Abstract()), id, endStream, block)
    {
      hide WrapI32, DecodeBlock, WithHeaders;
      var d := hpackDecoder.Decode(block);
      if d.Err? {
        return Refused(d.error);
      }
      var stream: Stream;
      if id in streams {
        stream := new Stream.Borrow(streams[id]);
      } else {
        stream := new Stream(id, WrapI32(localSettings.initialWindowSize));
      }
      OpenBorrowed(stream, d.value, endStream);
      streams := streams[id := stream.Value()];
      lastStreamId := if id > lastStreamId then id else lastStreamId;
      return Done;
    }

    static method OpenBorrowed(stream: Stream, headers: seq<Header>, endStream: bool)
      modifies stream
      ensures stream.Value() == WithHeaders(old(stream.Value()), headers, endStream)
    {
      hide RemoteEnded, Opened;
      stream.OpenStream();
      stream.requestHeaders := headers;
      if endStream {
        stream.HalfCloseRemote();
      }
    }

    method ProcessData(id: u32, endStream: bool, data: Data)
      requires Valid()
      modifies this`streams, this`recvWindow
      ensures Valid()
      ensures Abstract() == ReceiveData(old(Abstract()), id, endStream, data)
    {
      hide WrapI32, RemoteEnded;
      if id in streams {
        var stream := new Stream.Borrow(streams[id]);
        if stream.state == Open || stream.state == HalfClosedLocal {
          ExtendBorrowed(stream, data, endStream);
          streams := streams[id := stream.Value()];
          recvWindow := WrapI32(recvWindow - WrapI32(|data|));
        }
      }
    }

    static method ExtendBorrowed(stream: Stream, data: Data, endStream: bool)
      modifies stream
      ensures stream.Value() == WithData(old(stream.Value()), data, endStream)
    {
      hide WrapI32, RemoteEnded;
      stream.requestBody := stream.requestBody + data;
      stream.recvWindow := WrapI32(stream.recvWindow - WrapI32(|data|));
      if endStream {
        stream.HalfCloseRemote();
      }
    }

    method ProcessWindowUpdate(id: u32, increment: u32)
      requires Valid()
      modifies this
      ensures Valid()
      ensures Abstract() == ReceiveWindowUpdate(old(Abstract()), id, increment)
    {
      hide WrapI32, SaturatingAdd;
      if id == 0 {
        sendWindow := WrapI32(sendWindow + WrapI32(increment));
      } else if id in streams {
        var stream := new Stream.Borrow(streams[id]);
        stream.UpdateSendWindow(WrapI32(increment));
        streams := streams[id := stream.Value()];
      }
    }

    method ProcessReset(id: u32)
      requires Valid()
      modifies this
      ensures Valid()
      ensures Abstract() == ReceiveReset(old(Abstract()), id)
    {
      if id in streams {
        var stream := new Stream.Borrow(streams[id]);
        stream.Close();
        streams := streams[id := stream.Value()];
      }
    }

    method ProcessFrame(frame: Frame) returns (r: Processed)
      requires Valid()
      modifies this, hpackDecoder.table
      ensures Valid()
      ensures Outcome(Abstract(), r) == Process(old(Abstract()), frame)
    {
      hide ReceiveHeaders, ReceiveData, ReceiveWindowUpdate, ReceiveReset, ApplySettings;
      match frame
      case Settings(true, _) =>
        settingsAcked := true;
        return Done;
      case Settings(false, settings) =>
        ProcessSettings(settings);
        outgoing := outgoing + [Settings(true, [])];
        return Done;
      case Headers(id, endStream, _, block) =>
        r := ProcessHeaders(id, endStream, block);
      case DataFrame(id, endStream, data) =>
        ProcessData(id, endStream, data);
        return Done;
      case WindowUpdate(id, increment) =>
        ProcessWindowUpdate(id, increment);
        return Done;
      case Ping(false, data) =>
        outgoing := outgoing + [Ping(true, data)];
        return Done;
      case GoAway(_, _, _) =>
        goingAway := true;
        return Done;
      case RstStream(id, _) =>
        ProcessReset(id);
        return Done;
      case _ =>
        return Done;
    }

    method SendHeaders(id: u32, headers: seq<Header>, endStream: bool)
      requires Valid()
      modifies this, hpackEncoder.table
      ensures Valid()
      ensures Abstract() == SendHeadersSpec(old(Abstract()), id, headers, endStream)
    {
      hide EncodeBlock, Insertions, InsertAll;
      var block := hpackEncoder.Encode(headers);
      outgoing := outgoing + [Headers(id, endStream, true, block)];
      if id in streams {
        var stream := new Stream.Borrow(streams[id]);
        stream.responseHeaders := headers;
        if endStream {
          stream.HalfCloseLocal();
        }
        streams := streams[id := stream.Value()];
      }
    }

    method SendData(id: u32, data: Data, endStream: bool)
      requires Valid()
      modifies this
      ensures Valid()
      ensures Abstract() == SendDataSpec(old(Abstract()), id, data, endStream)
    {
      outgoing := outgoing + [DataFrame(id, endStream, data)];
      if endStream && id in streams {
        var stream := new Stream.Borrow(streams[id]);
        stream.HalfCloseLocal();
        streams := streams[id := stream.Value()];
      }
    }

    method TakeOutgoing() returns (frames: seq<Frame>)
      requires Valid()
      modifies this
      ensures Valid()
      ensures frames == old(outgoing) && Abstract() == old(Abstract()).(outgoing := [])
    {
      frames := outgoing;
      outgoing := [];
    }
  }
}
