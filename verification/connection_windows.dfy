/**
  Send windows over whole runs (section 6.9.2 of RFC 7540): what any sequence of SETTINGS and
  WINDOW_UPDATE frames adds up to, exactly when saturation spoils the sum, and exactly when the
  window a stream starts with is the one the RFC asks for.
*/
module ConnectionWindows {
  import opened Bytes
  import opened HpackTable
  import opened HpackStatic
  import opened HpackDecoder
  import opened HpackEncoder
  import opened Frames
  import opened Streams
  import opened Connection
  import opened ConnectionRuns

  /** What moves a stream's send window: a new initial size, or an increment. */
  datatype WindowOp = Initial(value: u32) | Credit(increment: u32)

  function SettingsOps(settings: seq<Setting>): seq<WindowOp>
    decreases |settings|
  {
    if settings == [] then []
    else
      var s := settings[|settings| - 1];
      SettingsOps(settings[..|settings| - 1]) + if s.id == 4 then [Initial(s.value)] else []
  }

  function EventOps(e: Event, id: u32): seq<WindowOp>
  {
    match e
    case Received(Settings(false, settings)) => SettingsOps(settings)
    case Received(WindowUpdate(target, increment)) => if target == id && id != 0 then [Credit(increment)] else []
    case _ => []
  }

  /** All of them in a run, however many entries each SETTINGS frame holds. */
  function WindowOps(events: seq<Event>, id: u32): seq<WindowOp>
    decreases |events|
  {
    if events == [] then [] else WindowOps(events[..|events| - 1], id) + EventOps(events[|events| - 1], id)
  }

  // ---- the code's arithmetic, on one window --------------------------------------------------------

  datatype Shadow = Shadow(window: i32, initial: u32)

  function SatStep(s: Shadow, op: WindowOp): Shadow
  {
    match op
    case Initial(v) => Shadow(SaturatingAdd(s.window, WindowDelta(s.initial, v)), v)
    case Credit(i) => s.(window := SaturatingAdd(s.window, WrapI32(i)))
  }

  function SatFold(s: Shadow, ops: seq<WindowOp>): Shadow
    decreases |ops|
  {
    if ops == [] then s else SatStep(SatFold(s, ops[..|ops| - 1]), ops[|ops| - 1])
  }

  lemma {:induction false} SatFoldConcat(s: Shadow, a: seq<WindowOp>, b: seq<WindowOp>)
    ensures SatFold(s, a + b) == SatFold(SatFold(s, a), b)
    decreases |b|
  {
    hide SatStep;
    if b == [] {
      assert a + b == a;
    } else {
      assert (a + b)[..|a + b| - 1] == a + b[..|b| - 1];
      SatFoldConcat(s, a, b[..|b| - 1]);
    }
  }

  function ShadowOf(c: Conn, id: u32): Shadow
    requires id in c.streams
  {
    Shadow(c.streams[id].sendWindow, c.remote.initialWindowSize)
  }

  lemma {:induction false} SettingsShadow(c: Conn, settings: seq<Setting>, id: u32)
    requires id in c.streams
    ensures id in ApplySettings(c, settings).streams
    ensures ShadowOf(ApplySettings(c, settings), id) == SatFold(ShadowOf(c, id), SettingsOps(settings))
    decreases |settings|
  {
    hide WrapI32, SaturatingAdd, WindowDelta;
    if settings != [] {
      var before := settings[..|settings| - 1];
      var s := settings[|settings| - 1];
      SettingsShadow(c, before, id);
      var ops := SettingsOps(before);
      if s.id == 4 {
        assert (ops + [Initial(s.value)])[..|ops|] == ops;
      } else {
        assert ops + [] == ops;
      }
    }
  }

  lemma OneOp(s: Shadow, op: WindowOp)
    ensures SatFold(s, [op]) == SatStep(s, op)
  {
    hide SatStep;
    assert [op][..0] == [];
    assert SatFold(s, []) == s;
  }

  lemma ReceivedShadow(c: Conn, f: Frame, id: u32)
    requires id in c.streams
    ensures id in Process(c, f).conn.streams
    ensures ShadowOf(Process(c, f).conn, id) == SatFold(ShadowOf(c, id), EventOps(Received(f), id))
  {
    hide WrapI32, SaturatingAdd, ReceiveHeaders, ReceiveData, ApplySettings, SatFold, SettingsOps;
    NoOp(ShadowOf(c, id));
    match f
    case Settings(false, settings) => SettingsShadow(c, settings, id);
    case Headers(other, endStream, _, block) => HeadersShadow(c, other, endStream, block, id);
    case DataFrame(other, endStream, data) => DataShadow(c, other, endStream, data, id);
    case WindowUpdate(target, increment) => OneOp(ShadowOf(c, id), Credit(increment));
    case _ =>
  }

  lemma HeadersShadow(c: Conn, other: u32, endStream: bool, block: Data, id: u32)
    requires id in c.streams
    ensures var c' := ReceiveHeaders(c, other, endStream, block).conn;
            id in c'.streams && ShadowOf(c', id) == ShadowOf(c, id)
  {
    hide WrapI32, DecodeBlock;
  }

  lemma DataShadow(c: Conn, other: u32, endStream: bool, data: Data, id: u32)
    requires id in c.streams
    ensures var c' := ReceiveData(c, other, endStream, data);
            id in c'.streams && ShadowOf(c', id) == ShadowOf(c, id)
  {
    hide WrapI32;
  }

  lemma NoOp(s: Shadow)
    ensures SatFold(s, []) == s
  {
  }

  lemma StepShadow(c: Conn, e: Event, id: u32)
    requires id in c.streams
    ensures id in Apply(c, e).streams
    ensures ShadowOf(Apply(c, e), id) == SatFold(ShadowOf(c, id), EventOps(e, id))
  {
    hide Process, SatFold, InsertAll, EncodeBlock, Insertions, LocalSettingsFrame;
    NoOp(ShadowOf(c, id));
    match e
    case Received(f) => ReceivedShadow(c, f, id);
    case _ =>
  }

  /** A stored stream's send window and the peer's initial size are moved by nothing else. */
  lemma {:induction false} RunShadow(c: Conn, events: seq<Event>, id: u32)
    requires id in c.streams
    ensures id in Run(c, events).streams
    ensures ShadowOf(Run(c, events), id) == SatFold(ShadowOf(c, id), WindowOps(events, id))
    decreases |events|
  {
    hide Apply, EventOps, SatStep;
    if events != [] {
      var before := events[..|events| - 1];
      RunShadow(c, before, id);
      StepShadow(Run(c, before), events[|events| - 1], id);
      SatFoldConcat(ShadowOf(c, id), WindowOps(before, id), EventOps(events[|events| - 1], id));
    }
  }

  // ---- the exact sum ----------------------------------------------------------------------------------

  function LastInitial(initial: u32, ops: seq<WindowOp>): u32
    decreases |ops|
  {
    if ops == [] then initial
    else if ops[|ops| - 1].Initial? then ops[|ops| - 1].value
    else LastInitial(initial, ops[..|ops| - 1])
  }

  function Credits(ops: seq<WindowOp>): nat
    decreases |ops|
  {
    if ops == [] then 0
    else Credits(ops[..|ops| - 1]) + if ops[|ops| - 1].Credit? then ops[|ops| - 1].increment else 0
  }

  /** Creation value, plus the change of the peer's initial size, plus all increments. */
  function Telescoped(s: Shadow, ops: seq<WindowOp>): int
  {
    s.window + (LastInitial(s.initial, ops) - s.initial) + Credits(ops)
  }

  /** Sizes and increments the RFC allows, up to 2^31 - 1. */
  predicate SmallOp(op: WindowOp)
  {
    match op
    case Initial(v) => v < TWO_31
    case Credit(i) => i < TWO_31
  }

  predicate SmallOps(ops: seq<WindowOp>) { forall i :: 0 <= i < |ops| ==> SmallOp(ops[i]) }

  predicate InI32(x: int) { -TWO_31 <= x < TWO_31 }

  /** The exact sum stays within i32 at every moment. */
  ghost predicate NeverSaturates(s: Shadow, ops: seq<WindowOp>)
  {
    forall k :: 0 <= k <= |ops| ==> InI32(Telescoped(s, ops[..k]))
  }

  ghost predicate AlwaysTelescoped(s: Shadow, ops: seq<WindowOp>)
  {
    forall k :: 0 <= k <= |ops| ==> SatFold(s, ops[..k]).window == Telescoped(s, ops[..k])
  }

  lemma {:induction false} FoldInitial(s: Shadow, ops: seq<WindowOp>)
    ensures SatFold(s, ops).initial == LastInitial(s.initial, ops)
    decreases |ops|
  {
    hide WrapI32, SaturatingAdd, WindowDelta;
    if ops != [] {
      FoldInitial(s, ops[..|ops| - 1]);
    }
  }

  lemma {:induction false} SmallInitial(s: Shadow, ops: seq<WindowOp>)
    requires s.initial < TWO_31 && SmallOps(ops)
    ensures LastInitial(s.initial, ops) < TWO_31
    decreases |ops|
  {
    if ops != [] {
      SmallInitial(s, ops[..|ops| - 1]);
    }
  }

  lemma SmallDelta(a: u32, b: u32)
    requires a < TWO_31 && b < TWO_31
    ensures WindowDelta(a, b) == b - a
  {
  }

  /** One more operation: if the sum was exact it stays exact, provided it stays in range. */
  lemma TelescopeStep(s: Shadow, ops: seq<WindowOp>)
    requires s.initial < TWO_31 && SmallOps(ops) && ops != []
    requires SatFold(s, ops[..|ops| - 1]).window == Telescoped(s, ops[..|ops| - 1])
    requires InI32(Telescoped(s, ops))
    ensures SatFold(s, ops).window == Telescoped(s, ops)
  {
    hide WrapI32, WindowDelta;
    var before := ops[..|ops| - 1];
    FoldInitial(s, before);
    SmallInitial(s, before);
    assert SmallOp(ops[|ops| - 1]);
    match ops[|ops| - 1]
    case Initial(v) => SmallDelta(LastInitial(s.initial, before), v);
    case Credit(i) => SmallWrap(i);
  }

  /** However many operations: the window is the telescoped sum throughout the run if and only if
      that sum never leaves the range of i32. */
  lemma {:induction false} TelescopesIffNeverSaturates(s: Shadow, ops: seq<WindowOp>)
    requires s.initial < TWO_31 && SmallOps(ops)
    ensures AlwaysTelescoped(s, ops) <==> NeverSaturates(s, ops)
    decreases |ops|
  {
    hide SatFold, Telescoped, SmallOp;
    if NeverSaturates(s, ops) {
      forall k | 0 <= k <= |ops|
        ensures SatFold(s, ops[..k]).window == Telescoped(s, ops[..k])
      {
        TelescopedAt(s, ops, k);
      }
    }
  }

  lemma {:induction false} TelescopedAt(s: Shadow, ops: seq<WindowOp>, k: nat)
    requires s.initial < TWO_31 && SmallOps(ops) && k <= |ops| && NeverSaturates(s, ops)
    ensures SatFold(s, ops[..k]).window == Telescoped(s, ops[..k])
    decreases k
  {
    hide SatFold, Telescoped, SmallOp;
    if k == 0 {
      Telescoped0(s);
      assert ops[..0] == [];
    } else {
      TelescopedAt(s, ops, k - 1);
      assert ops[..k][..k - 1] == ops[..k - 1];
      TelescopeStep(s, ops[..k]);
    }
  }

  lemma Telescoped0(s: Shadow)
    ensures SatFold(s, []).window == Telescoped(s, [])
  {
  }

  // ---- what saturation costs --------------------------------------------------------------------------

  /** By how much one operation would have passed 2^31 - 1. */
  function Overshoot(s: Shadow, op: WindowOp): nat
  {
    var moved := match op case Initial(v) => v - s.initial case Credit(i) => i;
    Max(0, s.window + moved - (TWO_31 - 1))
  }

  /** All that was cut off in a run. */
  function CutOff(s: Shadow, ops: seq<WindowOp>): nat
    decreases |ops|
  {
    if ops == [] then 0
    else CutOff(s, ops[..|ops| - 1]) + Overshoot(SatFold(s, ops[..|ops| - 1]), ops[|ops| - 1])
  }

  /** A window that no allowed initial size can bring below the range of i32.  It holds when a
      stream is created and is kept, so saturation only ever happens at the top. */
  predicate Afloat(s: Shadow) { s.initial < TWO_31 && s.window - s.initial >= -(TWO_31 - 1) }

  lemma CutStep(s: Shadow, op: WindowOp)
    requires Afloat(s) && SmallOp(op)
    ensures var s' := SatStep(s, op);
            && Afloat(s')
            && s'.window + Overshoot(s, op)
               == s.window + (match op case Initial(v) => v - s.initial case Credit(i) => i)
  {
    hide WrapI32, WindowDelta;
    match op
    case Initial(v) => SmallDelta(s.initial, v);
    case Credit(i) => SmallWrap(i);
  }

  /** The window is the telescoped sum minus what was cut off, after every run. */
  lemma {:induction false} WindowAccounts(s: Shadow, ops: seq<WindowOp>)
    requires Afloat(s) && SmallOps(ops)
    ensures Afloat(SatFold(s, ops))
    ensures SatFold(s, ops).window == Telescoped(s, ops) - CutOff(s, ops)
    decreases |ops|
  {
    hide SatStep, Overshoot, SmallOp;
    if ops != [] {
      var before, op := ops[..|ops| - 1], ops[|ops| - 1];
      WindowAccounts(s, before);
      FoldInitial(s, before);
      CutStep(SatFold(s, before), op);
      TelescopedOne(s, ops);
    }
  }

  lemma TelescopedOne(s: Shadow, ops: seq<WindowOp>)
    requires ops != []
    ensures var before, op := ops[..|ops| - 1], ops[|ops| - 1];
            Telescoped(s, ops) == Telescoped(s, before)
              + (match op case Initial(v) => v - LastInitial(s.initial, before) case Credit(i) => i)
  {
  }

  lemma {:induction false} CutOffGrows(s: Shadow, ops: seq<WindowOp>, k: nat)
    requires k <= |ops|
    ensures CutOff(s, ops[..k]) <= CutOff(s, ops)
    decreases |ops|
  {
    hide Overshoot;
    if k == |ops| {
      assert ops[..k] == ops;
    } else {
      assert ops[..|ops| - 1][..k] == ops[..k];
      CutOffGrows(s, ops[..|ops| - 1], k);
    }
  }

  /** What is cut off is never given back: at the end of any run the window is at most the
      telescoped sum, and it is that sum if and only if the sum never left the range of i32. */
  lemma ExactAtTheEndIff(s: Shadow, ops: seq<WindowOp>)
    requires Afloat(s) && SmallOps(ops)
    ensures SatFold(s, ops).window <= Telescoped(s, ops)
    ensures SatFold(s, ops).window == Telescoped(s, ops) <==> NeverSaturates(s, ops)
  {
    hide SatFold, Telescoped, CutOff, SmallOp;
    WindowAccounts(s, ops);
    if NeverSaturates(s, ops) {
      TelescopedAt(s, ops, |ops|);
      assert ops[..|ops|] == ops;
    }
    if SatFold(s, ops).window == Telescoped(s, ops) {
      forall k | 0 <= k <= |ops|
        ensures InI32(Telescoped(s, ops[..k]))
      {
        CutOffGrows(s, ops, k);
        WindowAccounts(s, ops[..k]);
      }
    }
  }

  // ---- over runs of the connection -----------------------------------------------------------------------

  /** SETTINGS telescoping over a run, from any state in which the stream is stored: its window is
      what it was, plus the change of the peer's initial size since then, plus its increments, minus
      what saturation cut off; the sum is exact if and only if it never left the range of i32. */
  lemma SendWindowTelescopes(c: Conn, events: seq<Event>, id: u32)
    requires id in c.streams && Afloat(ShadowOf(c, id)) && SmallOps(WindowOps(events, id))
    ensures var c', ops := Run(c, events), WindowOps(events, id);
            && id in c'.streams && Afloat(ShadowOf(c', id))
            && (var exact := c.streams[id].sendWindow + (c'.remote.initialWindowSize - c.remote.initialWindowSize)
                             + Credits(ops);
                && c'.streams[id].sendWindow == exact - CutOff(ShadowOf(c, id), ops)
                && (c'.streams[id].sendWindow == exact <==> NeverSaturates(ShadowOf(c, id), ops)))
  {
    hide Run, SatFold, WindowOps, SmallOps, NeverSaturates, CutOff;
    var ops := WindowOps(events, id);
    RunShadow(c, events, id);
    FoldInitial(ShadowOf(c, id), ops);
    WindowAccounts(ShadowOf(c, id), ops);
    ExactAtTheEndIff(ShadowOf(c, id), ops);
  }

  /** It happens, on a connection with default settings: an increment of 2^31 - 1 loses the 65535
      bytes that were there, and the window stays that much too small. */
  lemma SaturationLosesCredit()
    ensures var c := Run(NewConn(DEFAULT_SETTINGS),
                         [Received(Headers(1, false, true, [])), Received(WindowUpdate(1, TWO_31 - 1)),
                          Received(Settings(false, [Setting(4, 0)]))]);
            && 1 in c.streams && c.remote.initialWindowSize == 0
            && c.streams[1].sendWindow == TWO_31 - 1 - 65535
  {
    var e0, e1 := Received(Headers(1, false, true, [])), Received(WindowUpdate(1, TWO_31 - 1));
    var e2 := Received(Settings(false, [Setting(4, 0)]));
    var c0 := NewConn(DEFAULT_SETTINGS);
    RunThree(c0, e0, e1, e2);
    var c1 := Apply(c0, e0);
    assert c1.streams == map[1 := WithHeaders(NewStream(1, 65535), [], false)];
    var c2 := Apply(c1, e1);
    assert c2.streams[1].sendWindow == TWO_31 - 1 && c2.streams.Keys == {1};
    OneSetting(c2, Setting(4, 0));
  }

  lemma RunThree(c: Conn, a: Event, b: Event, e: Event)
    ensures Run(c, [a, b, e]) == Apply(Apply(Apply(c, a), b), e)
  {
    hide Apply;
    assert [a, b, e][..2] == [a, b] && [a, b][..1] == [a] && [a][..0] == [];
    assert Run(c, []) == c;
    assert Run(c, [a]) == Apply(c, a);
    assert Run(c, [a, b]) == Apply(Apply(c, a), b);
  }

  lemma OneSetting(c: Conn, s: Setting)
    ensures ApplySettings(c, [s]) == ApplySetting(c, s)
  {
    hide ApplySetting;
    assert [s][..0] == [];
    assert ApplySettings(c, []) == c;
  }

  // ---- where a window starts ---------------------------------------------------------------------------

  /** A stream's send window starts from the local settings, not from the peer's.  At any later
      moment of any run it differs from the window of section 6.9.2 of RFC 7540 - the peer's
      current initial size plus the increments - by the difference of the two settings at its
      creation, less what saturation has cut off.  So it is that window if and only if the two
      cancel; without saturation, if and only if the settings agreed; and with a local size not
      above the peer's, if and only if they agreed and nothing ever saturated. */
  lemma FollowsRfcIffSettingsAgreed(c: Conn, id: u32, endStream: bool, block: Data, events: seq<Event>)
    requires id !in c.streams && DecodeBlock(block, c.decoder).result.Ok?
    requires c.local.initialWindowSize < TWO_31 && c.remote.initialWindowSize < TWO_31
    requires SmallOps(WindowOps(events, id))
    ensures var c1 := ReceiveHeaders(c, id, endStream, block).conn;
            var c', ops := Run(c1, events), WindowOps(events, id);
            && id in c1.streams && id in c'.streams
            && (var wanted := c'.remote.initialWindowSize + Credits(ops);
                var local, remote := c.local.initialWindowSize, c.remote.initialWindowSize;
                && c'.streams[id].sendWindow == wanted + (local - remote) - CutOff(ShadowOf(c1, id), ops)
                && (NeverSaturates(ShadowOf(c1, id), ops) ==>
                      (c'.streams[id].sendWindow == wanted <==> local == remote))
                && (local <= remote ==>
                      (c'.streams[id].sendWindow == wanted
                       <==> local == remote && NeverSaturates(ShadowOf(c1, id), ops))))
  {
    hide Run, WindowOps, SmallOps, NeverSaturates, DecodeBlock, WrapI32, CutOff;
    var c1 := ReceiveHeaders(c, id, endStream, block).conn;
    SmallWrap(c.local.initialWindowSize);
    SendWindowTelescopes(c1, events, id);
  }

  /** The disagreement happens: a peer that announces a window of 100 before its first HEADERS
      gets a stream that may send 65535 bytes. */
  lemma PeerInitialWindowIgnored(block: Data)
    requires DecodeBlock(block, EmptyTable(DECODER_TABLE_SIZE)).result.Ok?
    ensures var c := Run(NewConn(DEFAULT_SETTINGS),
                         [Received(Settings(false, [Setting(4, 100)])), Received(Headers(1, false, true, block))]);
            c.remote.initialWindowSize == 100 && 1 in c.streams && c.streams[1].sendWindow == 65535
  {
    hide DecodeBlock;
    var first := Received(Settings(false, [Setting(4, 100)]));
    var second := Received(Headers(1, false, true, block));
    var c0 := NewConn(DEFAULT_SETTINGS);
    assert [first, second][..1] == [first] && [first][..0] == [];
    assert Run(c0, []) == c0;
    assert Run(c0, [first]) == Apply(c0, first);
    OneSetting(c0, Setting(4, 100));
    assert Run(c0, [first, second]) == Apply(Run(c0, [first]), second);
  }
}
