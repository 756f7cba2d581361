/** HTTP/2 streams: the state machine of section 5.1 of RFC 7540 as far as the source has it. */
module Streams {
  import opened Bytes
  import opened HpackStatic

  datatype StreamState =
    | Idle | ReservedLocal | ReservedRemote | Open | HalfClosedLocal | HalfClosedRemote | Closed

  /** The fields of a stream at one moment. */
  datatype StreamValue = StreamValue(
    id: u32,
    state: StreamState,
    requestHeaders: seq<Header>,
    responseHeaders: seq<Header>,
    requestBody: Data,
    responseBody: Data,
    sendWindow: i32,
    recvWindow: i32,
    weight: byte,
    dependency: u32,
    exclusive: bool)

  function NewStream(id: u32, window: i32): StreamValue
  {
    StreamValue(id, Idle, [], [], [], [], window, window, 16, 0, false)
  }

  function Opened(s: StreamValue): StreamValue
  {
    if s.state.Idle? then s.(state := Open) else s
  }

  function RemoteEnded(s: StreamValue): StreamValue
  {
    match s.state
    case Open => s.(state := HalfClosedRemote)
    case HalfClosedLocal => s.(state := Closed)
    case _ => s
  }

  function LocalEnded(s: StreamValue): StreamValue
  {
    match s.state
    case Open => s.(state := HalfClosedLocal)
    case HalfClosedRemote => s.(state := Closed)
    case _ => s
  }

  predicate CanReceive(s: StreamValue) { s.state.Open? || s.state.HalfClosedLocal? }

  function Credited(s: StreamValue, delta: i32): StreamValue
  {
    s.(sendWindow := SaturatingAdd(s.sendWindow, delta))
  }

  /** A DATA frame on a stream that may receive. */
  function Extended(s: StreamValue, data: Data): StreamValue
  {
    s.(requestBody := s.requestBody + data, recvWindow := WrapI32(s.recvWindow - WrapI32(|data|)))
  }

  /** A stream under a mutable borrow: taken out of the connection's map, changed in place, and
      written back when the borrow ends. */
  class Stream {
    var id: u32
    var state: StreamState
    var requestHeaders: seq<Header>
    var responseHeaders: seq<Header>
    var requestBody: Data
    var responseBody: Data
    var sendWindow: i32
    var recvWindow: i32
    var weight: byte
    var dependency: u32
    var exclusive: bool

    function Value(): StreamValue
      reads this
    {
      StreamValue(id, state, requestHeaders, responseHeaders, requestBody, responseBody,
                  sendWindow, recvWindow, weight, dependency, exclusive)
    }

    constructor (id: u32, initialWindowSize: i32)
      ensures Value() == NewStream(id, initialWindowSize)
    {
      this.id := id;
      state := Idle;
      requestHeaders, responseHeaders := [], [];
      requestBody, responseBody := [], [];
      sendWindow, recvWindow := initialWindowSize, initialWindowSize;
      weight, dependency, exclusive := 16, 0, false;
    }

    constructor Borrow(v: StreamValue)
      ensures Value() == v
    {
      id, state := v.id, v.state;
      requestHeaders, responseHeaders := v.requestHeaders, v.responseHeaders;
      requestBody, responseBody := v.requestBody, v.responseBody;
      sendWindow, recvWindow := v.sendWindow, v.recvWindow;
      weight, dependency, exclusive := v.weight, v.dependency, v.exclusive;
    }

    method OpenStream()
      modifies this
      ensures Value() == Opened(old(Value()))
    {
      if state == Idle {
        state := Open;
      }
    }

    method HalfCloseRemote()
      modifies this
      ensures Value() == RemoteEnded(old(Value()))
    {
      match state
      case Open => state := HalfClosedRemote;
      case HalfClosedLocal => state := Closed;
      case _ =>
    }

    method HalfCloseLocal()
      modifies this
      ensures Value() == LocalEnded(old(Value()))
    {
      match state
      case Open => state := HalfClosedLocal;
      case HalfClosedRemote => state := Closed;
      case _ =>
    }

    method Close()
      modifies this
      ensures Value() == old(Value()).(state := Closed)
    {
      state := Closed;
    }

    method UpdateSendWindow(delta: i32)
      modifies this
      ensures Value() == Credited(old(Value()), delta)
    {
      sendWindow := SaturatingAdd(sendWindow, delta);
    }
  }
}
