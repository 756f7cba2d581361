/**
  Reading a connection off its history: after any run from the start, what a connection holds is
  told by the list of events alone - which ends of a stream were closed, what the peer last announced, what
  was queued to be sent, and what was credited to the connection.
*/
module ConnectionFacts {
  import opened Bytes
  import opened HpackInteger
  import opened HpackStatic
  import opened HpackTable
  import opened HpackDecoder
  import opened HpackEncoder
  import opened Frames
  import opened Streams
  import opened Connection
  import opened ConnectionRuns

  // ---- outgoing frames -----------------------------------------------------------------------------

  /** What a call owes the peer: an acknowledgement, an answer, or what was asked to be sent. */
  function Owed(local: H2Settings, e: Event): seq<Frame>
  {
    match e
    case Received(Settings(false, _)) => [Settings(true, [])]
    case Received(Ping(false, data)) => [Ping(true, data)]
    case SentHeaders(id, headers, endStream) => [Headers(id, endStream, true, EncodeBlock(headers))]
    case SentData(id, data, endStream) => [DataFrame(id, endStream, data)]
    case GotPreface(bytes) => if Preface() <= bytes then [LocalSettingsFrame(local)] else []
    case _ => []
  }

  function AllOwed(local: H2Settings, events: seq<Event>): seq<Frame>
    decreases |events|
  {
    if events == [] then [] else AllOwed(local, events[..|events| - 1]) + Owed(local, events[|events| - 1])
  }

  /** Everything `take_outgoing` handed out during a run. */
  function Taken(c: Conn, events: seq<Event>): seq<Frame>
    decreases |events|
  {
    if events == [] then []
    else
      var before := events[..|events| - 1];
      Taken(c, before) + if events[|events| - 1].TookOutgoing? then Run(c, before).outgoing else []
  }

  lemma StepQueues(c: Conn, e: Event)
    ensures Apply(c, e).local == c.local
    ensures Apply(c, e).outgoing == if e.TookOutgoing? then [] else c.outgoing + Owed(c.local, e)
  {
    hide WrapI32, DecodeBlock, EncodeBlock, Insertions, InsertAll, LocalSettingsFrame, Preface;
    if e.Received? && e.frame.Settings? {
      SettingsKeepRest(c, e.frame.settings);
    }
  }

  predicate SameRest(c: Conn, c': Conn)
  {
    && c'.outgoing == c.outgoing && c'.local == c.local && c'.sendWindow == c.sendWindow
    && c'.settingsAcked == c.settingsAcked && c'.goingAway == c.goingAway
    && c'.prefaceReceived == c.prefaceReceived && c'.decoder == c.decoder && c'.encoder == c.encoder
  }

  lemma SettingKeepsRest(c: Conn, s: Setting)
    ensures SameRest(c, ApplySetting(c, s))
  {
    hide WindowDelta, CreditAll;
  }

  lemma {:induction false} SettingsKeepRest(c: Conn, settings: seq<Setting>)
    ensures SameRest(c, ApplySettings(c, settings))
    decreases |settings|
  {
    hide ApplySetting;
    if settings != [] {
      SettingsKeepRest(c, settings[..|settings| - 1]);
      SettingKeepsRest(ApplySettings(c, settings[..|settings| - 1]), settings[|settings| - 1]);
    }
  }

  /** Nothing queued is lost, repeated or reordered: what was taken and what still waits is, in
      order, exactly what the events called for, each SETTINGS and PING answered once. */
  lemma {:induction false} OutgoingConserved(c: Conn, events: seq<Event>)
    ensures Run(c, events).local == c.local
    ensures Taken(c, events) + Run(c, events).outgoing == c.outgoing + AllOwed(c.local, events)
    decreases |events|
  {
    hide Apply, Owed;
    if events != [] {
      var before, e := events[..|events| - 1], events[|events| - 1];
      OutgoingConserved(c, before);
      StepQueues(Run(c, before), e);
      var out := Run(c, before).outgoing;
      if e.TookOutgoing? {
        NothingOwed(c.local, e);
        assert c.outgoing + (AllOwed(c.local, before) + []) == c.outgoing + AllOwed(c.local, before);
      } else {
        assert Taken(c, before) + [] + (out + Owed(c.local, e)) == Taken(c, before) + out + Owed(c.local, e);
        assert c.outgoing + AllOwed(c.local, before) + Owed(c.local, e)
            == c.outgoing + (AllOwed(c.local, before) + Owed(c.local, e));
      }
    }
  }

  lemma NothingOwed(local: H2Settings, e: Event)
    ensures e.TookOutgoing? ==> Owed(local, e) == []
  {
  }

  // ---- the peer's settings --------------------------------------------------------------------------

  /** All settings entries received, in order. */
  function Announced(events: seq<Event>): seq<Setting>
    decreases |events|
  {
    if events == [] then []
    else
      Announced(events[..|events| - 1]) +
      match events[|events| - 1]
      case Received(Settings(false, settings)) => settings
      case _ => []
  }

  /** The last value announced for an identifier, or what held before. */
  function LastOr(settings: seq<Setting>, id: u16, before: u32): u32
    decreases |settings|
  {
    if settings == [] then before
    else if settings[|settings| - 1].id == id then settings[|settings| - 1].value
    else LastOr(settings[..|settings| - 1], id, before)
  }

  function Overlaid(r: H2Settings, settings: seq<Setting>): H2Settings
  {
    H2Settings(LastOr(settings, 1, r.headerTableSize),
               LastOr(settings, 2, if r.enablePush then 1 else 0) != 0,
               LastOr(settings, 3, r.maxConcurrentStreams),
               LastOr(settings, 4, r.initialWindowSize),
               LastOr(settings, 5, r.maxFrameSize),
               LastOr(settings, 6, r.maxHeaderListSize))
  }

  lemma {:induction false} AppliedIsOverlaid(c: Conn, settings: seq<Setting>)
    ensures ApplySettings(c, settings).remote == Overlaid(c.remote, settings)
    decreases |settings|
  {
    hide WindowDelta, CreditAll;
    if settings != [] {
      AppliedIsOverlaid(c, settings[..|settings| - 1]);
    }
  }

  lemma {:induction false} LastOrConcat(a: seq<Setting>, b: seq<Setting>, id: u16, before: u32)
    ensures LastOr(a + b, id, before) == LastOr(b, id, LastOr(a, id, before))
    decreases |b|
  {
    if b == [] {
      assert a + b == a;
    } else {
      assert (a + b)[..|a + b| - 1] == a + b[..|b| - 1];
      LastOrConcat(a, b[..|b| - 1], id, before);
    }
  }

  lemma {:induction false} LastOrFlag(b: seq<Setting>, id: u16, v: u32)
    ensures (LastOr(b, id, if v != 0 then 1 else 0) != 0) == (LastOr(b, id, v) != 0)
    decreases |b|
  {
    if b != [] {
      LastOrFlag(b[..|b| - 1], id, v);
    }
  }

  lemma OverlaidConcat(r: H2Settings, a: seq<Setting>, b: seq<Setting>)
    ensures Overlaid(r, a + b) == Overlaid(Overlaid(r, a), b)
  {
    hide LastOr;
    LastOrConcat(a, b, 1, r.headerTableSize);
    var push: u32 := if r.enablePush then 1 else 0;
    LastOrConcat(a, b, 2, push);
    LastOrFlag(b, 2, LastOr(a, 2, push));
    LastOrConcat(a, b, 3, r.maxConcurrentStreams);
    LastOrConcat(a, b, 4, r.initialWindowSize);
    LastOrConcat(a, b, 5, r.maxFrameSize);
    LastOrConcat(a, b, 6, r.maxHeaderListSize);
  }

  /** The peer's settings are, field by field, the last value it announced, or the default. */
  lemma {:induction false} RemoteSettingsAreLast(c: Conn, events: seq<Event>)
    ensures Run(c, events).remote == Overlaid(c.remote, Announced(events))
    decreases |events|
  {
    hide Overlaid, ApplySettings, DecodeBlock, WrapI32, EncodeBlock, InsertAll, Insertions, Preface;
    NothingOverlaid(c.remote);
    if events != [] {
      var before, e := events[..|events| - 1], events[|events| - 1];
      RemoteSettingsAreLast(c, before);
      match e
      case Received(Settings(false, settings)) =>
        AppliedIsOverlaid(Run(c, before), settings);
        OverlaidConcat(c.remote, Announced(before), settings);
      case _ =>
        assert Announced(before) + [] == Announced(before);
    }
  }

  lemma NothingOverlaid(r: H2Settings)
    ensures Overlaid(r, []) == r
  {
  }

  // ---- streams ------------------------------------------------------------------------------------------

  /** What the events say about a stream: which ends were closed, whether it was reset, the last
      header lists either way, and the bytes received while the remote side could send. */
  datatype Ledger = Ledger(
    remoteEnded: bool,
    localEnded: bool,
    reset: bool,
    request: seq<Header>,
    response: seq<Header>,
    body: Data)

  /** The decoder's table, from the header blocks received. */
  function DecoderAfter(events: seq<Event>): Table
    decreases |events|
  {
    if events == [] then EmptyTable(4096)
    else
      var t := DecoderAfter(events[..|events| - 1]);
      match events[|events| - 1]
      case Received(Headers(_, _, _, block)) => DecodeBlock(block, t).table
      case _ => t
  }

  lemma StepDecoder(c: Conn, e: Event)
    ensures Apply(c, e).decoder == match e
                                   case Received(Headers(_, _, _, block)) => DecodeBlock(block, c.decoder).table
                                   case _ => c.decoder
  {
    hide WrapI32, SaturatingAdd, DecodeBlock, EncodeBlock, Insertions, InsertAll, LocalSettingsFrame, Preface;
    if e.Received? && e.frame.Settings? {
      SettingsKeepRest(c, e.frame.settings);
    }
  }

  lemma {:induction false} DecoderIsItsHistory(settings: H2Settings, events: seq<Event>)
    ensures Run(NewConn(settings), events).decoder == DecoderAfter(events)
    decreases |events|
  {
    hide Apply, DecodeBlock;
    if events != [] {
      DecoderIsItsHistory(settings, events[..|events| - 1]);
      StepDecoder(Run(NewConn(settings), events[..|events| - 1]), events[|events| - 1]);
    }
  }

  /** The entries that the header lists sent have put into the encoder's table. */
  function AllInserted(events: seq<Event>): seq<Entry>
    decreases |events|
  {
    if events == [] then []
    else
      AllInserted(events[..|events| - 1]) +
      match events[|events| - 1]
      case SentHeaders(_, headers, _) => Insertions(headers)
      case _ => []
  }

  lemma StepEncoder(c: Conn, e: Event)
    ensures Apply(c, e).encoder == match e
                                   case SentHeaders(_, headers, _) => InsertAll(c.encoder, Insertions(headers))
                                   case _ => c.encoder
  {
    hide WrapI32, SaturatingAdd, DecodeBlock, EncodeBlock, Insertions, InsertAll, LocalSettingsFrame, Preface;
    if e.Received? && e.frame.Settings? {
      SettingsKeepRest(c, e.frame.settings);
    }
  }

  /** The encoder's table has the announced size and holds the header lists sent, whatever the
      streams. */
  lemma {:induction false} EncoderIsItsHistory(settings: H2Settings, events: seq<Event>)
    ensures Run(NewConn(settings), events).encoder
         == InsertAll(EmptyTable(settings.headerTableSize), AllInserted(events))
    decreases |events|
  {
    hide Apply, Insertions, Insert;
    if events != [] {
      var before, e := events[..|events| - 1], events[|events| - 1];
      EncoderIsItsHistory(settings, before);
      StepEncoder(Run(NewConn(settings), before), e);
      match e
      case SentHeaders(_, headers, _) =>
        InsertAllConcat(EmptyTable(settings.headerTableSize), AllInserted(before), Insertions(headers));
      case _ =>
        assert AllInserted(before) + [] == AllInserted(before);
    }
  }

  /** No accepted HEADERS, no stream; after that, each event leaves its mark.  `t` is the table the
      header block is decoded against. */
  function Entered(t: Table, e: Event, id: u32, x: Option<Ledger>): Option<Ledger>
  {
    match e
    case Received(Headers(k, endStream, _, block)) =>
      var r := DecodeBlock(block, t).result;
      if k == id && r.Ok? then
        var l := if x.Some? then x.value else Ledger(false, false, false, [], [], []);
        Some(l.(request := r.value, remoteEnded := l.remoteEnded || endStream))
      else x
    case Received(DataFrame(k, endStream, data)) =>
      if k == id && x.Some? then
        var more := if x.value.remoteEnded || x.value.reset then [] else data;
        Some(x.value.(body := x.value.body + more, remoteEnded := x.value.remoteEnded || endStream))
      else x
    case Received(RstStream(k, _)) => if k == id && x.Some? then Some(x.value.(reset := true)) else x
    case SentHeaders(k, headers, endStream) =>
      if k == id && x.Some? then
        Some(x.value.(response := headers, localEnded := x.value.localEnded || endStream))
      else x
    case SentData(k, _, endStream) =>
      if k == id && x.Some? then Some(x.value.(localEnded := x.value.localEnded || endStream)) else x
    case _ => x
  }

  function LedgerOf(events: seq<Event>, id: u32): Option<Ledger>
    decreases |events|
  {
    if events == [] then None
    else
      var before := events[..|events| - 1];
      Entered(DecoderAfter(before), events[|events| - 1], id, LedgerOf(before, id))
  }

  /** Closed by a reset or by both ends; half-closed by one; open otherwise. */
  function StateFrom(l: Ledger): StreamState
  {
    if l.reset || (l.remoteEnded && l.localEnded) then Closed
    else if l.remoteEnded then HalfClosedRemote
    else if l.localEnded then HalfClosedLocal
    else Open
  }

  predicate Matches(s: StreamValue, l: Ledger)
  {
    && s.state == StateFrom(l)
    && s.requestHeaders == l.request && s.responseHeaders == l.response && s.requestBody == l.body
    && s.responseBody == [] && s.weight == 16 && s.dependency == 0 && !s.exclusive
  }

  predicate Recorded(c: Conn, id: u32, x: Option<Ledger>)
  {
    (id in c.streams <==> x.Some?) && (x.Some? ==> Matches(c.streams[id], x.value))
  }

  lemma StepRecorded(c: Conn, e: Event, id: u32, x: Option<Ledger>)
    requires Recorded(c, id, x)
    ensures Recorded(Apply(c, e), id, Entered(c.decoder, e, id, x))
  {
    hide WrapI32, SaturatingAdd, DecodeBlock, EncodeBlock, Insertions, InsertAll, LocalSettingsFrame, Preface,
         ApplySettings, SendHeadersSpec, SendDataSpec, ReceiveHeaders, ReceiveData;
    match e
    case Received(Settings(false, settings)) => SettingsRecorded(c, settings, id, x);
    case Received(Headers(k, endStream, _, block)) => HeadersRecorded(c, k, endStream, block, id, x);
    case Received(DataFrame(k, endStream, data)) => DataRecorded(c, k, endStream, data, id, x);
    case SentHeaders(_, _, _) => SentRecorded(c, e, id, x);
    case SentData(_, _, _) => SentRecorded(c, e, id, x);
    case _ =>
  }

  lemma SentRecorded(c: Conn, e: Event, id: u32, x: Option<Ledger>)
    requires Recorded(c, id, x) && (e.SentHeaders? || e.SentData?)
    ensures Recorded(Apply(c, e), id, Entered(c.decoder, e, id, x))
  {
    hide EncodeBlock, Insertions, InsertAll, Process;
  }

  lemma {:induction false} SettingsRecorded(c: Conn, settings: seq<Setting>, id: u32, x: Option<Ledger>)
    requires Recorded(c, id, x)
    ensures Recorded(ApplySettings(c, settings), id, x)
    decreases |settings|
  {
    hide ApplySetting, Recorded;
    if settings != [] {
      SettingsRecorded(c, settings[..|settings| - 1], id, x);
      SettingRecorded(ApplySettings(c, settings[..|settings| - 1]), settings[|settings| - 1], id, x);
    }
  }

  lemma SettingRecorded(c: Conn, s: Setting, id: u32, x: Option<Ledger>)
    requires Recorded(c, id, x)
    ensures Recorded(ApplySetting(c, s), id, x)
  {
    hide SaturatingAdd, WindowDelta;
  }

  lemma HeadersRecorded(c: Conn, k: u32, endStream: bool, block: Data, id: u32, x: Option<Ledger>)
    requires Recorded(c, id, x)
    ensures Recorded(ReceiveHeaders(c, k, endStream, block).conn, id,
                     Entered(c.decoder, Received(Headers(k, endStream, true, block)), id, x))
  {
    hide WrapI32, DecodeBlock;
  }

  lemma DataRecorded(c: Conn, k: u32, endStream: bool, data: Data, id: u32, x: Option<Ledger>)
    requires Recorded(c, id, x)
    ensures Recorded(ReceiveData(c, k, endStream, data), id,
                     Entered(c.decoder, Received(DataFrame(k, endStream, data)), id, x))
  {
    hide WrapI32;
  }

  /** After any run a stream is stored exactly when some HEADERS for it was accepted, its state
      follows from which ends were closed and whether it was reset, in whatever order, and its
      headers and body are those of the events. */
  lemma {:induction false} StreamsAreTheirHistory(settings: H2Settings, events: seq<Event>, id: u32)
    ensures Recorded(Run(NewConn(settings), events), id, LedgerOf(events, id))
    decreases |events|
  {
    hide Apply, Entered, Matches, DecoderAfter;
    if events != [] {
      var before := events[..|events| - 1];
      StreamsAreTheirHistory(settings, before, id);
      DecoderIsItsHistory(settings, before);
      StepRecorded(Run(NewConn(settings), before), events[|events| - 1], id, LedgerOf(before, id));
    }
  }

  // ---- the connection's send window -----------------------------------------------------------------------

  /** All increments credited to the connection, stream 0. */
  function ConnectionCredit(events: seq<Event>): nat
    decreases |events|
  {
    if events == [] then 0
    else
      ConnectionCredit(events[..|events| - 1]) +
      match events[|events| - 1]
      case Received(WindowUpdate(0, increment)) => increment
      case _ => 0
  }

  lemma WrapAdd(a: int, b: int)
    ensures WrapI32(WrapI32(a) + WrapI32(b)) == WrapI32(a + b)
  {
    hide WrapI32;
    var i := (a - WrapI32(a)) / TWO_32;
    var j := (b - WrapI32(b)) / TWO_32;
    WrapShift(a + b, -(i + j));
  }

  lemma StepCredits(c: Conn, e: Event)
    ensures Apply(c, e).sendWindow == match e
                                      case Received(WindowUpdate(0, increment)) =>
                                        WrapI32(c.sendWindow + WrapI32(increment))
                                      case _ => c.sendWindow
  {
    hide WrapI32, SaturatingAdd, DecodeBlock, EncodeBlock, Insertions, InsertAll, LocalSettingsFrame, Preface;
    if e.Received? && e.frame.Settings? {
      SettingsKeepRest(c, e.frame.settings);
    }
  }

  lemma {:induction false} CreditsWrap(settings: H2Settings, events: seq<Event>)
    ensures Run(NewConn(settings), events).sendWindow
         == WrapI32(settings.initialWindowSize + ConnectionCredit(events))
    decreases |events|
  {
    hide WrapI32, Apply;
    if events != [] {
      var before, e := events[..|events| - 1], events[|events| - 1];
      CreditsWrap(settings, before);
      StepCredits(Run(NewConn(settings), before), e);
      match e
      case Received(WindowUpdate(0, increment)) =>
        WrapAdd(settings.initialWindowSize + ConnectionCredit(before), increment);
      case _ =>
    }
  }

  /** The connection's send window wraps where a stream's saturates: it is the local initial size
      plus all increments for stream 0 if and only if that sum is below 2^31. */
  lemma ConnectionWindowExactIff(settings: H2Settings, events: seq<Event>)
    ensures Run(NewConn(settings), events).sendWindow == settings.initialWindowSize + ConnectionCredit(events)
            <==> settings.initialWindowSize + ConnectionCredit(events) < TWO_31
  {
    CreditsWrap(settings, events);
  }

  /** It does wrap: the largest increment brings a fresh connection's window below zero. */
  lemma ConnectionWindowWraps()
    ensures Run(NewConn(DEFAULT_SETTINGS), [Received(WindowUpdate(0, TWO_31 - 1))]).sendWindow
         == 65535 + (TWO_31 - 1) - TWO_32
  {
    var c, e := NewConn(DEFAULT_SETTINGS), Received(WindowUpdate(0, TWO_31 - 1));
    assert [e][..0] == [] && Run(c, []) == c;
    assert Run(c, [e]) == Apply(c, e);
  }

  // ---- the flags ------------------------------------------------------------------------------------------

  predicate IsAck(e: Event) { e.Received? && e.frame.Settings? && e.frame.ack }

  predicate IsGoAway(e: Event) { e.Received? && e.frame.GoAway? }

  predicate IsPreface(e: Event) { e.GotPreface? && Preface() <= e.bytes }

  lemma StepFlags(c: Conn, e: Event)
    ensures Apply(c, e).settingsAcked == (c.settingsAcked || IsAck(e))
    ensures Apply(c, e).goingAway == (c.goingAway || IsGoAway(e))
    ensures Apply(c, e).prefaceReceived == (c.prefaceReceived || IsPreface(e))
  {
    hide WrapI32, SaturatingAdd, DecodeBlock, EncodeBlock, Insertions, InsertAll, LocalSettingsFrame, Preface;
    if e.Received? && e.frame.Settings? {
      SettingsKeepRest(c, e.frame.settings);
    }
  }

  /** Each flag is up exactly when its event has happened, and never comes down again. */
  lemma {:induction false} FlagsAreEvents(settings: H2Settings, events: seq<Event>)
    ensures var c := Run(NewConn(settings), events);
            && (c.settingsAcked <==> exists i :: 0 <= i < |events| && IsAck(events[i]))
            && (c.goingAway <==> exists i :: 0 <= i < |events| && IsGoAway(events[i]))
            && (c.prefaceReceived <==> exists i :: 0 <= i < |events| && IsPreface(events[i]))
    decreases |events|
  {
    hide Apply, IsAck, IsGoAway, IsPreface;
    if events != [] {
      var before := events[..|events| - 1];
      FlagsAreEvents(settings, before);
      StepFlags(Run(NewConn(settings), before), events[|events| - 1]);
    }
  }

  // ---- the preface and the settings announced -----------------------------------------------------------

  /** The client preface of section 3.5 of RFC 7540, byte by byte. */
  lemma PrefaceBytes()
    ensures Preface() == [80, 82, 73, 32, 42, 32, 72, 84, 84, 80, 47, 50, 46, 48, 13, 10, 13, 10,
                          83, 77, 13, 10, 13, 10]
  {
  }

  /** What a connection announces when it has got the preface: processed by any peer, the one frame
      it queues gives the peer exactly the local table size, stream limit, window and frame size, and
      leaves the peer's other two settings alone. */
  lemma PrefaceAnnouncesSettings(a: Conn, bytes: Data, b: Conn)
    requires Preface() <= bytes
    ensures var queued := PrefaceSpec(a, bytes).outgoing;
            && |queued| == |a.outgoing| + 1 && queued[..|a.outgoing|] == a.outgoing
            && (var o := Process(b, queued[|a.outgoing|]);
                && o.result.Done?
                && o.conn.remote.headerTableSize == a.local.headerTableSize
                && o.conn.remote.maxConcurrentStreams == a.local.maxConcurrentStreams
                && o.conn.remote.initialWindowSize == a.local.initialWindowSize
                && o.conn.remote.maxFrameSize == a.local.maxFrameSize
                && o.conn.remote.enablePush == b.remote.enablePush
                && o.conn.remote.maxHeaderListSize == b.remote.maxHeaderListSize)
  {
    hide Preface, WindowDelta, CreditAll;
    var local := a.local;
    var s1, s2 := Setting(1, local.headerTableSize), Setting(3, local.maxConcurrentStreams);
    var s3, s4 := Setting(4, local.initialWindowSize), Setting(5, local.maxFrameSize);
    FourSettings(b, s1, s2, s3, s4);
    assert PrefaceSpec(a, bytes).outgoing[|a.outgoing|] == Settings(false, [s1, s2, s3, s4]);
  }

  lemma FourSettings(c: Conn, s1: Setting, s2: Setting, s3: Setting, s4: Setting)
    ensures ApplySettings(c, [s1, s2, s3, s4])
         == ApplySetting(ApplySetting(ApplySetting(ApplySetting(c, s1), s2), s3), s4)
  {
    hide ApplySetting;
    assert [s1, s2, s3, s4][..3] == [s1, s2, s3] && [s1, s2, s3][..2] == [s1, s2];
    assert [s1, s2][..1] == [s1] && [s1][..0] == [];
    assert ApplySettings(c, []) == c;
    assert ApplySettings(c, [s1]) == ApplySetting(c, s1);
    assert ApplySettings(c, [s1, s2]) == ApplySetting(ApplySetting(c, s1), s2);
    assert ApplySettings(c, [s1, s2, s3]) == ApplySetting(ApplySetting(ApplySetting(c, s1), s2), s3);
  }

  /** The defaults: a table of 4096 bytes, 100 streams, a window of 65535, frames of 16384. */
  lemma DefaultAnnouncement(b: Conn)
    ensures var frames := PrefaceSpec(NewConn(DEFAULT_SETTINGS), Preface()).outgoing;
            && |frames| == 1
            && (var r := Process(b, frames[0]).conn.remote;
                && r.headerTableSize == 4096 && r.maxConcurrentStreams == 100
                && r.initialWindowSize == 65535 && r.maxFrameSize == 16384)
    ensures NewConn(DEFAULT_SETTINGS).remote == H2Settings(4096, true, 100, 65535, 16384, 8192)
  {
    PrefaceAnnouncesSettings(NewConn(DEFAULT_SETTINGS), Preface(), b);
  }

  // ---- refused blocks -----------------------------------------------------------------------------------

  /** A header block that does not decode is reported and otherwise leaves the connection alone,
      except for what the decoder had inserted before the fault; no other frame is ever refused. */
  lemma RefusedIff(c: Conn, f: Frame)
    ensures var o := Process(c, f);
            && (o.result.Done? <==> f.Headers? ==> DecodeBlock(f.headerBlock, c.decoder).result.Ok?)
            && (!o.result.Done? ==>
                  var b := DecodeBlock(f.headerBlock, c.decoder);
                  && o.conn == c.(decoder := b.table)
                  && o.result == if b.result.error == SlicePanic then Panicked else ProtocolError(b.result.error))
  {
    hide DecodeBlock, WrapI32, SaturatingAdd, ApplySettings;
  }
}
