/**
  The bytes of frames, field by field as sections 4.1 and 6 of RFC 7540 lay them out, said without
  the printer's and the parser's own helpers: type codes, flag bytes and lengths are numerals, and
  a field is the number its bytes spell.
*/
module FrameWire {
  import opened Bytes
  import opened Frames

  /** The unsigned number that bytes spell, most significant first. */
  function Number(d: Data): nat
    decreases |d|
  {
    if d == [] then 0 else 256 * Number(d[..|d| - 1]) + d[|d| - 1]
  }

  lemma NumberOfTwo(d: Data)
    requires |d| == 2
    ensures Number(d) == 256 * (d[0] as int) + d[1]
  {
    assert d[..1] == [d[0]] && d[..1][..0] == [];
    assert Number(d[..1]) == d[0];
  }

  lemma NumberOfThree(d: Data)
    requires |d| == 3
    ensures Number(d) == 0x1_0000 * (d[0] as int) + 256 * (d[1] as int) + d[2]
  {
    NumberOfTwo(d[..2]);
  }

  lemma NumberOfFour(d: Data)
    requires |d| == 4
    ensures Number(d) == 0x100_0000 * (d[0] as int) + 0x1_0000 * (d[1] as int) + 256 * (d[2] as int) + d[3]
  {
    NumberOfThree(d[..3]);
  }

  lemma PrintedU32(v: u32)
    ensures Number(U32Bytes(v)) == v
  {
    NumberOfFour(U32Bytes(v));
  }

  // ---- printing -------------------------------------------------------------------------------------

  /** The nine header bytes: 24 bits of length, type, flags, the reserved bit 0 and 31 bits of
      stream id. */
  predicate HasHeader(s: Data, code: nat, flags: nat, streamId: nat)
  {
    && |s| >= 9 && Number(s[..3]) == |s| - 9 && s[3] == code && s[4] == flags
    && s[5] < 128 && Number(s[5..9]) == streamId
  }

  function One(b: bool): nat { if b then 1 else 0 }

  lemma PrintedHeader(f: Frame)
    requires InRange(f)
    ensures HasHeader(SerializeSpec(f), TypeCode(f), FlagsOf(f), StreamId(f))
    ensures SerializeSpec(f)[9..] == PayloadOf(f)
  {
    var s, n := SerializeSpec(f), |PayloadOf(f)|;
    assert |s| == 9 + n && n < 0x100_0000;
    assert s[..3] == U24Bytes(n) && s[5..9] == U32Bytes(StreamId(f));
    NumberOfThree(s[..3]);
    PrintedU32(StreamId(f));
    assert s[5] == U32Bytes(StreamId(f))[0];
  }

  lemma {:induction false} PrintedSettings(settings: seq<Setting>, i: nat)
    requires i < |settings|
    ensures var p := SettingsPayload(settings);
            && |p| == 6 * |settings|
            && Number(p[6 * i..6 * i + 2]) == settings[i].id && Number(p[6 * i + 2..6 * i + 6]) == settings[i].value
  {
    hide Number, U16Bytes, U32Bytes;
    var p, q := SettingsPayload(settings), SettingsPayload(settings[1..]);
    EntryNumbers(settings[0], q);
    if i > 0 {
      PrintedSettings(settings[1..], i - 1);
      assert p[6 * i..6 * i + 2] == q[6 * (i - 1)..6 * (i - 1) + 2];
      assert p[6 * i + 2..6 * i + 6] == q[6 * (i - 1) + 2..6 * (i - 1) + 6];
    }
  }

  lemma EntryNumbers(s: Setting, rest: Data)
    ensures var p := U16Bytes(s.id) + U32Bytes(s.value) + rest;
            && |p| == 6 + |rest| && p[6..] == rest
            && Number(p[0..2]) == s.id && Number(p[2..6]) == s.value
  {
    var p := U16Bytes(s.id) + U32Bytes(s.value) + rest;
    assert p[0..2] == U16Bytes(s.id) && p[2..6] == U32Bytes(s.value);
    NumberOfTwo(p[0..2]);
    PrintedU32(s.value);
  }

  lemma PrintedPayload(f: Frame)
    requires InRange(f)
    ensures var p := PayloadOf(f);
            match f
            case DataFrame(_, _, data) => p == data
            case Headers(_, _, _, block) => p == block
            case Priority(_, exclusive, dependency, weight) =>
              |p| == 5 && Number(p[..4]) == dependency + (if exclusive then TWO_31 else 0) && p[4] == weight
            case RstStream(_, code) => |p| == 4 && Number(p) == code
            case Settings(_, settings) => |p| == 6 * |settings|
            case PushPromise(_, promised, block) => |p| == 4 + |block| && Number(p[..4]) == promised && p[4..] == block
            case Ping(_, data) => |p| == 8 && p == data
            case GoAway(last, code, debug) =>
              |p| == 8 + |debug| && Number(p[..4]) == last && Number(p[4..8]) == code && p[8..] == debug
            case WindowUpdate(_, increment) => |p| == 4 && Number(p) == increment
            case Continuation(_, _, block) => p == block
  {
    hide U32Bytes;
    var p := PayloadOf(f);
    match f
    case Priority(_, exclusive, dependency, _) =>
      PrintedU32(if exclusive then SetTop(dependency) else dependency);
      assert p[..4] == U32Bytes(if exclusive then SetTop(dependency) else dependency);
    case RstStream(_, code) => PrintedU32(code);
    case PushPromise(_, promised, block) =>
      PrintedU32(promised);
      assert p[..4] == U32Bytes(promised) && p[4..] == block;
    case GoAway(last, code, debug) =>
      PrintedU32(last);
      PrintedU32(code);
      assert p[..4] == U32Bytes(last) && p[4..8] == U32Bytes(code) && p[8..] == debug;
    case WindowUpdate(_, increment) => PrintedU32(increment);
    case _ =>
  }

  /** Every byte that the printer writes, frame by frame. */
  lemma PrintedFrame(f: Frame)
    requires InRange(f)
    ensures var s := SerializeSpec(f);
            match f
            case DataFrame(id, endStream, data) => HasHeader(s, 0, One(endStream), id) && s[9..] == data
            case Headers(id, endStream, endHeaders, block) =>
              HasHeader(s, 1, One(endStream) + 4 * One(endHeaders), id) && s[9..] == block
            case Priority(id, exclusive, dependency, weight) =>
              && HasHeader(s, 2, 0, id) && |s| == 14
              && Number(s[9..13]) == dependency + TWO_31 * One(exclusive) && s[13] == weight
            case RstStream(id, code) => HasHeader(s, 3, 0, id) && |s| == 13 && Number(s[9..13]) == code
            case Settings(ack, settings) =>
              && HasHeader(s, 4, One(ack), 0) && |s| == 9 + 6 * |settings|
              && forall i :: 0 <= i < |settings| ==>
                   && Number(s[9 + 6 * i..11 + 6 * i]) == settings[i].id
                   && Number(s[11 + 6 * i..15 + 6 * i]) == settings[i].value
            case PushPromise(id, promised, block) =>
              HasHeader(s, 5, 0, id) && |s| >= 13 && Number(s[9..13]) == promised && s[13..] == block
            case Ping(ack, data) => HasHeader(s, 6, One(ack), 0) && |s| == 17 && s[9..] == data
            case GoAway(last, code, debug) =>
              && HasHeader(s, 7, 0, 0) && |s| >= 17
              && Number(s[9..13]) == last && Number(s[13..17]) == code && s[17..] == debug
            case WindowUpdate(id, increment) => HasHeader(s, 8, 0, id) && |s| == 13 && Number(s[9..13]) == increment
            case Continuation(id, endHeaders, block) => HasHeader(s, 9, 4 * One(endHeaders), id) && s[9..] == block
  {
    PrintedHeader(f);
    PrintedPayload(f);
    hide SerializeSpec, PayloadOf, Number, InRange;
    var s, p := SerializeSpec(f), PayloadOf(f);
    match f
    case Priority(_, _, _, _) => assert s[9..13] == p[..4] && s[13] == p[4];
    case RstStream(_, _) => assert s[9..13] == p;
    case Settings(_, settings) => SettingsBytes(f);
    case PushPromise(_, _, _) => assert s[9..13] == p[..4] && s[13..] == p[4..];
    case GoAway(_, _, _) => assert s[9..13] == p[..4] && s[13..17] == p[4..8] && s[17..] == p[8..];
    case WindowUpdate(_, _) => assert s[9..13] == p;
    case _ =>
  }

  lemma SettingsBytes(f: Frame)
    requires InRange(f) && f.Settings?
    ensures var s := SerializeSpec(f);
            && |s| == 9 + 6 * |f.settings|
            && forall i :: 0 <= i < |f.settings| ==>
                 && Number(s[9 + 6 * i..11 + 6 * i]) == f.settings[i].id
                 && Number(s[11 + 6 * i..15 + 6 * i]) == f.settings[i].value
  {
    PrintedHeader(f);
    hide SerializeSpec, Number, HasHeader, InRange, PayloadOf, SettingsPayload;
    var s, p := SerializeSpec(f), SettingsPayload(f.settings);
    assert s[9..] == p;
    forall i | 0 <= i < |f.settings|
      ensures Number(s[9 + 6 * i..11 + 6 * i]) == f.settings[i].id
      ensures Number(s[11 + 6 * i..15 + 6 * i]) == f.settings[i].value
    {
      PrintedSettings(f.settings, i);
      assert s[9 + 6 * i..11 + 6 * i] == p[6 * i..6 * i + 2];
      assert s[11 + 6 * i..15 + 6 * i] == p[6 * i + 2..6 * i + 6];
    }
  }

  // ---- parsing --------------------------------------------------------------------------------------

  /** The shortest payload the parser takes for a type. */
  function Least(code: nat): nat
  {
    if code == 2 then 5 else if code == 3 || code == 5 || code == 8 then 4 else if code == 6 || code == 7 then 8 else 0
  }

  function Announced(buf: Data): nat
    requires |buf| >= 9
  {
    Number(buf[..3])
  }

  lemma AnnouncedIsLength(buf: Data)
    requires |buf| >= 9
    ensures Announced(buf) == PayloadLength(buf)
  {
    NumberOfThree(buf[..3]);
  }

  /** The parser's three answers, for any buffer: a type above 9 is an error at once; a payload
      that has not arrived leaves the buffer alone; one too short for its type is an error that
      consumes the frame; anything else is a frame. */
  lemma AnswerIff(buf: Data)
    ensures var r := ParseSpec(buf);
            && (r.result.Incomplete? <==>
                  |buf| < 9 || (buf[3] <= 9 && |buf| < 9 + Announced(buf)))
            && (r.result.Failed? <==>
                  |buf| >= 9 && (buf[3] > 9 || (|buf| >= 9 + Announced(buf) && Announced(buf) < Least(buf[3]))))
            && (r.result.Failed? && buf[3] > 9 ==> r == Parse(Failed(InvalidFrameType(buf[3])), buf))
            && (r.result.Failed? && buf[3] <= 9 ==> r == Parse(Failed(FrameTooShort), buf[9 + Announced(buf)..]))
  {
    if |buf| >= 9 {
      AnnouncedIsLength(buf);
    }
    hide Announced, SettingsOf;
  }

  lemma Low31OfNumber(p: Data)
    requires |p| >= 4
    ensures Field32(p) == Number(p[..4])
    ensures Field31(p) == if p[0] >= 128 then Number(p[..4]) - TWO_31 else Number(p[..4])
  {
    NumberOfFour(p[..4]);
  }

  /** The 31 bits below the reserved one. */
  function Low31Bits(p: Data): nat
    requires |p| >= 4
  {
    if Number(p[..4]) >= TWO_31 then Number(p[..4]) - TWO_31 else Number(p[..4])
  }

  lemma Low31BitsIsField(p: Data)
    requires |p| >= 4
    ensures Low31Bits(p) == Field31(p)
  {
    NumberOfFour(p[..4]);
    hide Number;
  }

  predicate Odd(flags: nat) { flags % 2 != 0 }

  /** Bit 2, whatever the other flags. */
  predicate HasFour(flags: nat) { flags % 8 >= 4 }

  lemma BitsAreBits(flags: byte)
    ensures Bit0(flags) <==> Odd(flags)
    ensures Bit2(flags) <==> HasFour(flags)
  {
  }

  /** What the parser reads from a frame with any flags set, known or not: the reserved bits are
      ignored, trailing bytes of fixed-size payloads too. */
  lemma ParsedFrame(buf: Data)
    requires ParseSpec(buf).result.Parsed?
    ensures |buf| >= 9 + Announced(buf) && Announced(buf) >= Least(buf[3]) && buf[3] <= 9
    ensures var p, id, flags := buf[9..9 + Announced(buf)], Low31Bits(buf[5..9]), buf[4];
            match ParseSpec(buf).result.frame
            case DataFrame(k, e, data) => buf[3] == 0 && k == id && (e <==> Odd(flags)) && data == p
            case Headers(k, e, h, block) =>
              buf[3] == 1 && k == id && (e <==> Odd(flags)) && (h <==> HasFour(flags)) && block == p
            case Priority(k, x, d, w) =>
              buf[3] == 2 && k == id && (x <==> p[0] >= 128) && d == Low31Bits(p) && w == p[4]
            case RstStream(k, code) => buf[3] == 3 && k == id && code == Number(p[..4])
            case Settings(ack, settings) => buf[3] == 4 && (ack <==> Odd(flags)) && settings == SettingsOf(p)
            case PushPromise(k, promised, block) =>
              buf[3] == 5 && k == id && promised == Low31Bits(p) && block == p[4..]
            case Ping(ack, data) => buf[3] == 6 && (ack <==> Odd(flags)) && data == p[..8]
            case GoAway(last, code, debug) =>
              buf[3] == 7 && last == Low31Bits(p) && code == Number(p[4..8]) && debug == p[8..]
            case WindowUpdate(k, increment) => buf[3] == 8 && k == id && increment == Low31Bits(p)
            case Continuation(k, h, block) => buf[3] == 9 && k == id && (h <==> HasFour(flags)) && block == p
  {
    AnswerIff(buf);
    AnnouncedIsLength(buf);
    assert buf[5..][..4] == buf[5..9] && buf[5..9][..4] == buf[5..9];
    Low31BitsIsField(buf[5..]);
    hide Announced, SettingsOf, Low31Bits, Field31, Field32, Number, Odd, HasFour;
    ReadFields(TypeOf(buf[3]).frameType, buf[3], buf[4], Field31(buf[5..]), buf[9..9 + PayloadLength(buf)]);
  }

  /** The fields of one frame from its payload. */
  lemma ReadFields(t: FrameType, code: byte, flags: byte, id: u32, p: Data)
    requires TypeOf(code) == Known(t) && FrameOf(t, flags, id, p).FrameOk?
    ensures |p| >= Least(code)
    ensures match FrameOf(t, flags, id, p).frame
            case DataFrame(k, e, data) => code == 0 && k == id && (e <==> Odd(flags)) && data == p
            case Headers(k, e, h, block) =>
              code == 1 && k == id && (e <==> Odd(flags)) && (h <==> HasFour(flags)) && block == p
            case Priority(k, x, d, w) =>
              code == 2 && k == id && (x <==> p[0] >= 128) && d == Low31Bits(p) && w == p[4]
            case RstStream(k, errorCode) => code == 3 && k == id && errorCode == Number(p[..4])
            case Settings(ack, settings) => code == 4 && (ack <==> Odd(flags)) && settings == SettingsOf(p)
            case PushPromise(k, promised, block) =>
              code == 5 && k == id && promised == Low31Bits(p) && block == p[4..]
            case Ping(ack, data) => code == 6 && (ack <==> Odd(flags)) && data == p[..8]
            case GoAway(last, errorCode, debug) =>
              code == 7 && last == Low31Bits(p) && errorCode == Number(p[4..8]) && debug == p[8..]
            case WindowUpdate(k, increment) => code == 8 && k == id && increment == Low31Bits(p)
            case Continuation(k, h, block) => code == 9 && k == id && (h <==> HasFour(flags)) && block == p
  {
    BitsAreBits(flags);
    hide SettingsOf, Odd, HasFour, Bit0, Bit2, Low31Bits, Field31, Field32, Number;
    if |p| >= 4 {
      Low31BitsIsField(p);
      Low31OfNumber(p);
    }
    if |p| >= 8 {
      Low31OfNumber(p[4..]);
      assert p[4..][..4] == p[4..8];
    }
  }

  /** SETTINGS entries of a payload: the i-th six bytes, an incomplete rest ignored. */
  lemma {:induction false} SettingsRead(p: Data, i: nat)
    requires 6 * i + 6 <= |p|
    ensures |SettingsOf(p)| == |p| / 6 && i < |SettingsOf(p)|
    ensures SettingsOf(p)[i].id == Number(p[6 * i..6 * i + 2])
    ensures SettingsOf(p)[i].value == Number(p[6 * i + 2..6 * i + 6])
    decreases |p|
  {
    SettingsCount(p);
    if i == 0 {
      NumberOfTwo(p[0..2]);
      NumberOfFour(p[2..6]);
    } else {
      SettingsRead(p[6..], i - 1);
      assert p[6..][6 * (i - 1)..6 * (i - 1) + 2] == p[6 * i..6 * i + 2];
      assert p[6..][6 * (i - 1) + 2..6 * (i - 1) + 6] == p[6 * i + 2..6 * i + 6];
    }
  }

  lemma {:induction false} SettingsCount(p: Data)
    ensures |SettingsOf(p)| == |p| / 6
    decreases |p|
  {
    if |p| >= 6 {
      SettingsCount(p[6..]);
    }
  }
}
