/**
  Whole runs of a connection: any sequence of received frames, sends, prefaces and drains of the
  outgoing queue, each call having the effect it has in `Connection`, errors included.  A run may
  go on after a panic; the theorems then cover more than the program can do.
*/
module ConnectionRuns {
  import opened Bytes
  import opened HpackStatic
  import opened HpackTable
  import opened HpackDecoder
  import opened HpackEncoder
  import opened Frames
  import opened Streams
  import opened Connection

  datatype Event =
    | Received(frame: Frame)
    | SentHeaders(id: u32, headers: seq<Header>, endStream: bool)
    | SentData(id: u32, data: Data, endStream: bool)
    | GotPreface(bytes: Data)
    | TookOutgoing

  function Apply(c: Conn, e: Event): Conn
  {
    match e
    case Received(f) => Process(c, f).conn
    case SentHeaders(id, headers, endStream) => SendHeadersSpec(c, id, headers, endStream)
    case SentData(id, data, endStream) => SendDataSpec(c, id, data, endStream)
    case GotPreface(bytes) => PrefaceSpec(c, bytes)
    case TookOutgoing => c.(outgoing := [])
  }

  function Run(c: Conn, events: seq<Event>): Conn
    decreases |events|
  {
    if events == [] then c else Apply(Run(c, events[..|events| - 1]), events[|events| - 1])
  }

  // ---- body bytes over the stream map --------------------------------------------------------------

  function BodyLength(m: StreamMap, id: int): nat
  {
    if 0 <= id < TWO_32 && id in m then |m[id].requestBody| else 0
  }

  /** Received body bytes of the streams with ids below n. */
  function BodiesBelow(m: StreamMap, n: nat): nat
  {
    if n == 0 then 0 else BodiesBelow(m, n - 1) + BodyLength(m, n - 1)
  }

  function AllBodies(m: StreamMap): nat { BodiesBelow(m, TWO_32) }

  lemma {:induction false} BodiesAfterUpdate(m: StreamMap, id: u32, s: StreamValue, n: nat)
    ensures BodiesBelow(m[id := s], n)
         == BodiesBelow(m, n) + if id < n then |s.requestBody| - BodyLength(m, id) else 0
  {
    if n > 0 {
      BodiesAfterUpdate(m, id, s, n - 1);
    }
  }

  lemma {:induction false} BodiesUnchanged(m: StreamMap, m': StreamMap, n: nat)
    requires m.Keys == m'.Keys && forall id :: id in m ==> |m[id].requestBody| == |m'[id].requestBody|
    ensures BodiesBelow(m, n) == BodiesBelow(m', n)
  {
    if n > 0 {
      BodiesUnchanged(m, m', n - 1);
    }
  }

  // ---- what every reachable state satisfies ----------------------------------------------------------

  /** A stored stream is past Idle and was never reserved. */
  predicate Live(s: StreamState)
  {
    s.Open? || s.HalfClosedLocal? || s.HalfClosedRemote? || s.Closed?
  }

  ghost predicate StreamInv(c: Conn, id: u32, s: StreamValue)
  {
    && s.id == id && Live(s.state)
    && s.recvWindow == WrapI32(c.local.initialWindowSize - |s.requestBody|)
  }

  /** Lifecycle, conservation of both receive windows, and the meaning of `last_stream_id`. */
  ghost predicate Inv(c: Conn)
  {
    && (forall id :: id in c.streams ==> StreamInv(c, id, c.streams[id]))
    && c.recvWindow == WrapI32(c.local.initialWindowSize - AllBodies(c.streams))
    && (forall id :: id in c.streams ==> id <= c.lastStreamId)
    && (c.lastStreamId in c.streams || (c.streams == map[] && c.lastStreamId == 0))
  }

  /** The order Open, half-closed, Closed, in which a stream may only go forward. */
  predicate Forward(a: StreamState, b: StreamState)
  {
    a == b || (a.Open? && Live(b)) || b.Closed?
  }

  /** How a stored stream may differ later: it moved forward, its body only grew, and not at all
      once the remote side had ended or the stream was closed. */
  predicate Evolved(a: StreamValue, b: StreamValue)
  {
    && a.id == b.id && Forward(a.state, b.state)
    && a.requestBody <= b.requestBody
    && (!CanReceive(a) ==> b.requestBody == a.requestBody && !CanReceive(b))
  }

  predicate Successor(c: Conn, c': Conn)
  {
    && c'.local == c.local
    && c.lastStreamId <= c'.lastStreamId
    && (forall id :: id in c.streams ==> id in c'.streams && Evolved(c.streams[id], c'.streams[id]))
  }

  lemma EvolvedTransitive(a: StreamValue, b: StreamValue, c: StreamValue)
    requires Live(a.state) && Evolved(a, b) && Evolved(b, c)
    ensures Evolved(a, c)
  {
  }

  /** The wrapped subtraction of one frame's length is the wrapped subtraction of all lengths. */
  lemma WrapLength(initial: int, before: nat, more: nat)
    ensures WrapI32(WrapI32(initial - before) - WrapI32(more)) == WrapI32(initial - (before + more))
  {
    WrapSub(initial - before, more);
  }

  /** Storing one stream, new or changed, with the windows adjusted to the body it brings. */
  lemma PutKeepsInv(c: Conn, c': Conn, id: u32, s: StreamValue)
    requires Inv(c) && c'.local == c.local && c'.streams == c.streams[id := s]
    requires StreamInv(c, id, s) && (id in c.streams ==> Evolved(c.streams[id], s))
    requires c'.recvWindow
          == WrapI32(c.local.initialWindowSize - (AllBodies(c.streams) + |s.requestBody| - BodyLength(c.streams, id)))
    requires c'.lastStreamId == if id > c.lastStreamId then id else c.lastStreamId
    ensures Inv(c') && Successor(c, c')
  {
    hide WrapI32, Evolved, BodyLength, BodiesBelow, Live;
    BodiesAfterUpdate(c.streams, id, s, TWO_32);
    forall k | k in c'.streams
      ensures StreamInv(c', k, c'.streams[k]) && (k in c.streams ==> Evolved(c.streams[k], c'.streams[k]))
    {
      if k != id {
        assert StreamInv(c, k, c.streams[k]);
        EvolvedReflexive(c.streams[k]);
      }
    }
  }

  lemma EvolvedReflexive(s: StreamValue)
    ensures Evolved(s, s)
  {
  }

  /** Changing a stored stream without receiving anything for it. */
  lemma UpdateKeepsInv(c: Conn, c': Conn, id: u32, s: StreamValue)
    requires Inv(c) && id in c.streams && c'.streams == c.streams[id := s]
    requires c'.local == c.local && c'.recvWindow == c.recvWindow && c'.lastStreamId == c.lastStreamId
    requires s.requestBody == c.streams[id].requestBody && s.recvWindow == c.streams[id].recvWindow
    requires s.id == c.streams[id].id && Forward(c.streams[id].state, s.state)
    ensures Inv(c') && Successor(c, c')
  {
    hide WrapI32, BodiesBelow;
    assert StreamInv(c, id, c.streams[id]);
    PutKeepsInv(c, c', id, s);
  }

  lemma SettingKeepsInv(c: Conn, s: Setting)
    requires Inv(c)
    ensures Inv(ApplySetting(c, s)) && Successor(c, ApplySetting(c, s))
  {
    hide WrapI32, SaturatingAdd, WindowDelta, Evolved, StreamInv, BodiesBelow, Inv;
    if s.id == 4 {
      CreditKeepsInv(c, s.value);
    } else {
      SuccessorReflexive(c);
      RemoteIsNotInvariant(c, ApplySetting(c, s));
    }
  }

  /** The invariant does not read the peer's settings, the tables or the queue. */
  lemma RemoteIsNotInvariant(c: Conn, c': Conn)
    requires Inv(c) && c'.local == c.local && c'.streams == c.streams
    requires c'.recvWindow == c.recvWindow && c'.lastStreamId == c.lastStreamId
    ensures Inv(c') && Successor(c, c')
  {
    hide WrapI32, BodiesBelow, Live;
    forall id | id in c.streams
      ensures StreamInv(c', id, c'.streams[id])
    {
      assert StreamInv(c, id, c.streams[id]);
    }
    SuccessorReflexive(c);
  }

  lemma CreditKeepsInv(c: Conn, value: u32)
    requires Inv(c)
    ensures Inv(ApplySetting(c, Setting(4, value))) && Successor(c, ApplySetting(c, Setting(4, value)))
  {
    hide WrapI32, SaturatingAdd, WindowDelta, BodiesBelow, Live;
    var c' := ApplySetting(c, Setting(4, value));
    BodiesUnchanged(c.streams, c'.streams, TWO_32);
    forall id | id in c.streams
      ensures StreamInv(c', id, c'.streams[id]) && Evolved(c.streams[id], c'.streams[id])
    {
      assert StreamInv(c, id, c.streams[id]);
    }
  }

  lemma SuccessorTransitive(a: Conn, b: Conn, c: Conn)
    requires Inv(a) && Successor(a, b) && Successor(b, c)
    ensures Successor(a, c)
  {
    hide Evolved, StreamInv, WrapI32, AllBodies;
    forall id | id in a.streams
      ensures id in c.streams && Evolved(a.streams[id], c.streams[id])
    {
      LiveStream(a, id);
      EvolvedTransitive(a.streams[id], b.streams[id], c.streams[id]);
    }
  }

  lemma LiveStream(c: Conn, id: u32)
    requires Inv(c) && id in c.streams
    ensures Live(c.streams[id].state)
  {
  }

  lemma SuccessorReflexive(c: Conn)
    ensures Successor(c, c)
  {
  }

  lemma {:induction false} SettingsKeepInv(c: Conn, settings: seq<Setting>)
    requires Inv(c)
    ensures Inv(ApplySettings(c, settings)) && Successor(c, ApplySettings(c, settings))
    decreases |settings|
  {
    hide Inv, Successor, ApplySetting;
    if settings == [] {
      SuccessorReflexive(c);
    } else {
      var before := settings[..|settings| - 1];
      SettingsKeepInv(c, before);
      SettingKeepsInv(ApplySettings(c, before), settings[|settings| - 1]);
      SuccessorTransitive(c, ApplySettings(c, before), ApplySettings(c, settings));
    }
  }

  lemma HeadersKeepInv(c: Conn, id: u32, endStream: bool, block: Data)
    requires Inv(c)
    ensures Inv(ReceiveHeaders(c, id, endStream, block).conn)
    ensures Successor(c, ReceiveHeaders(c, id, endStream, block).conn)
  {
    hide DecodeBlock, WrapI32, BodiesBelow, Inv, Successor, WithHeaders, StreamFor;
    var c' := ReceiveHeaders(c, id, endStream, block).conn;
    var b := DecodeBlock(block, c.decoder);
    match b.result
    case Ok(headers) =>
      HeadersStream(c, id, headers, endStream);
      NothingAdded(c);
      PutKeepsInv(c, c', id, c'.streams[id]);
    case Err(_) =>
      RemoteIsNotInvariant(c, c');
  }

  lemma NothingAdded(c: Conn)
    requires Inv(c)
    ensures c.recvWindow == WrapI32(c.local.initialWindowSize - (AllBodies(c.streams) + 0))
  {
  }

  lemma HeadersStream(c: Conn, id: u32, headers: seq<Header>, endStream: bool)
    requires Inv(c)
    ensures var s := WithHeaders(StreamFor(c, id), headers, endStream);
            && StreamInv(c, id, s) && (id in c.streams ==> Evolved(c.streams[id], s))
            && |s.requestBody| == BodyLength(c.streams, id)
  {
    hide WrapI32, BodiesBelow;
    if id in c.streams {
      assert StreamInv(c, id, c.streams[id]);
    } else {
      assert c.local.initialWindowSize - 0 == c.local.initialWindowSize;
    }
  }

  lemma DataKeepsInv(c: Conn, id: u32, endStream: bool, data: Data)
    requires Inv(c)
    ensures Inv(ReceiveData(c, id, endStream, data)) && Successor(c, ReceiveData(c, id, endStream, data))
  {
    hide WrapI32, BodiesBelow, Inv, Successor, WithData, CanReceive;
    var c' := ReceiveData(c, id, endStream, data);
    if id in c.streams && CanReceive(c.streams[id]) {
      DataStream(c, id, data, endStream);
      ConnectionWrap(c, |data|);
      LastIsGreatest(c, id);
      PutKeepsInv(c, c', id, c'.streams[id]);
    } else {
      SuccessorReflexive(c);
    }
  }

  lemma LastIsGreatest(c: Conn, id: u32)
    requires Inv(c) && id in c.streams
    ensures id <= c.lastStreamId
  {
  }

  lemma DataStream(c: Conn, id: u32, data: Data, endStream: bool)
    requires Inv(c) && id in c.streams && CanReceive(c.streams[id])
    ensures var s := WithData(c.streams[id], data, endStream);
            && StreamInv(c, id, s) && Evolved(c.streams[id], s)
            && |s.requestBody| == BodyLength(c.streams, id) + |data|
  {
    hide WrapI32, BodiesBelow;
    assert StreamInv(c, id, c.streams[id]);
    WrapLength(c.local.initialWindowSize, |c.streams[id].requestBody|, |data|);
  }

  lemma ConnectionWrap(c: Conn, more: nat)
    requires Inv(c)
    ensures WrapI32(c.recvWindow - WrapI32(more))
         == WrapI32(c.local.initialWindowSize - (AllBodies(c.streams) + more))
  {
    WrapLength(c.local.initialWindowSize, AllBodies(c.streams), more);
  }

  lemma FrameKeepsInv(c: Conn, f: Frame)
    requires Inv(c)
    ensures Inv(Process(c, f).conn) && Successor(c, Process(c, f).conn)
  {
    hide ReceiveHeaders, ReceiveData, ApplySettings, WrapI32, SaturatingAdd, Inv, Successor;
    var c' := Process(c, f).conn;
    SuccessorReflexive(c);
    match f
    case Settings(false, settings) =>
      SettingsKeepInv(c, settings);
      RemoteIsNotInvariant(ApplySettings(c, settings), c');
      SuccessorTransitive(c, ApplySettings(c, settings), c');
    case Headers(id, endStream, _, block) => HeadersKeepInv(c, id, endStream, block);
    case DataFrame(id, endStream, data) => DataKeepsInv(c, id, endStream, data);
    case WindowUpdate(id, _) =>
      if id != 0 && id in c.streams {
        UpdateKeepsInv(c, c', id, c'.streams[id]);
      } else {
        RemoteIsNotInvariant(c, c');
      }
    case RstStream(id, _) =>
      if id in c.streams {
        UpdateKeepsInv(c, c', id, c'.streams[id]);
      }
    case _ => RemoteIsNotInvariant(c, c');
  }

  lemma SendHeadersKeepsInv(c: Conn, id: u32, headers: seq<Header>, endStream: bool)
    requires Inv(c)
    ensures Inv(SendHeadersSpec(c, id, headers, endStream)) && Successor(c, SendHeadersSpec(c, id, headers, endStream))
  {
    hide Inv, Successor, InsertAll, EncodeBlock, Insertions;
    var c' := SendHeadersSpec(c, id, headers, endStream);
    if id in c.streams {
      UpdateKeepsInv(c, c', id, c'.streams[id]);
    } else {
      RemoteIsNotInvariant(c, c');
    }
  }

  lemma SendDataKeepsInv(c: Conn, id: u32, data: Data, endStream: bool)
    requires Inv(c)
    ensures Inv(SendDataSpec(c, id, data, endStream)) && Successor(c, SendDataSpec(c, id, data, endStream))
  {
    hide Inv, Successor;
    var c' := SendDataSpec(c, id, data, endStream);
    if endStream && id in c.streams {
      UpdateKeepsInv(c, c', id, c'.streams[id]);
    } else {
      RemoteIsNotInvariant(c, c');
    }
  }

  /** One call keeps the invariant and moves every stream forward. */
  lemma StepKeepsInv(c: Conn, e: Event)
    requires Inv(c)
    ensures Inv(Apply(c, e)) && Successor(c, Apply(c, e))
  {
    hide Process, Inv, Successor, SendHeadersSpec, SendDataSpec, LocalSettingsFrame;
    match e
    case Received(f) => FrameKeepsInv(c, f);
    case SentHeaders(id, headers, endStream) => SendHeadersKeepsInv(c, id, headers, endStream);
    case SentData(id, data, endStream) => SendDataKeepsInv(c, id, data, endStream);
    case _ => RemoteIsNotInvariant(c, Apply(c, e));
  }

  lemma {:induction false} NothingReceived(n: nat)
    ensures BodiesBelow(map[], n) == 0
  {
    if n > 0 {
      NothingReceived(n - 1);
    }
  }

  /** The invariant in every state a connection can reach. */
  lemma {:induction false} RunsKeepInv(settings: H2Settings, events: seq<Event>)
    ensures Inv(Run(NewConn(settings), events)) && Run(NewConn(settings), events).local == settings
    decreases |events|
  {
    hide WrapI32, Apply;
    if events == [] {
      NothingReceived(TWO_32);
      assert settings.initialWindowSize - 0 == settings.initialWindowSize;
    } else {
      RunsKeepInv(settings, events[..|events| - 1]);
      StepKeepsInv(Run(NewConn(settings), events[..|events| - 1]), events[|events| - 1]);
    }
  }

  /** From any state of a run to any later one, streams are kept, move only forward, and their
      bodies only grow, not at all after the remote side ended; `last_stream_id` never falls. */
  lemma {:induction false} RunsMoveForward(settings: H2Settings, events: seq<Event>, n: nat)
    requires n <= |events|
    ensures Successor(Run(NewConn(settings), events[..n]), Run(NewConn(settings), events))
    decreases |events| - n
  {
    hide Inv, Successor, Apply;
    var start := Run(NewConn(settings), events[..n]);
    if n == |events| {
      assert events[..n] == events;
      SuccessorReflexive(start);
    } else {
      assert events[..n + 1][..n] == events[..n];
      var next := Run(NewConn(settings), events[..n + 1]);
      RunsKeepInv(settings, events[..n]);
      StepKeepsInv(start, events[n]);
      RunsMoveForward(settings, events, n + 1);
      SuccessorTransitive(start, next, Run(NewConn(settings), events));
    }
  }

  /** Conservation without wrapping, for any settings: what was received and what remains add up to
      the initial size, for each stream and for the connection, if and only if what remains is
      within i32. */
  lemma ReceiveWindowsConserved(settings: H2Settings, events: seq<Event>)
    ensures var c, initial := Run(NewConn(settings), events), settings.initialWindowSize;
            && (c.recvWindow + AllBodies(c.streams) == initial
                <==> -TWO_31 <= initial - AllBodies(c.streams) < TWO_31)
            && forall id :: id in c.streams ==>
                 (c.streams[id].recvWindow + |c.streams[id].requestBody| == initial
                  <==> -TWO_31 <= initial - |c.streams[id].requestBody| < TWO_31)
  {
    hide WrapI32, BodiesBelow, Live, Run;
    RunsKeepInv(settings, events);
    var c, initial := Run(NewConn(settings), events), settings.initialWindowSize;
    forall id | id in c.streams
      ensures c.streams[id].recvWindow + |c.streams[id].requestBody| == initial
              <==> -TWO_31 <= initial - |c.streams[id].requestBody| < TWO_31
    {
      assert StreamInv(c, id, c.streams[id]);
      WrapExactIff(initial - |c.streams[id].requestBody|);
    }
    WrapExactIff(initial - AllBodies(c.streams));
  }

  lemma WrapExactIff(x: int)
    ensures WrapI32(x) == x <==> -TWO_31 <= x < TWO_31
  {
  }

  lemma SmallWrap(x: int)
    requires -TWO_31 <= x < TWO_31
    ensures WrapI32(x) == x
  {
  }
}
