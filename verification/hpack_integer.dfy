/**
  The prefix-coded integer and the raw string of HPACK (sections 5.1 and 5.2 of RFC 7541), on
  a 64-bit machine in a release build: additions wrap modulo 2^64 and shift counts are taken
  modulo 64.  The functions say what a call returns; the methods are the source's loops.
*/
module HpackInteger {
  import opened Bytes

  datatype HpackError =
    | EmptyInteger
    | TruncatedInteger
    | EmptyString
    | StringTooLong
    | InvalidIndexZero
    | InvalidDynamicIndex(index: nat)
    | SlicePanic  // not a returned error: slicing with wrapped bounds panics

  datatype Result<+T> = Ok(value: T) | Err(error: HpackError)

  /** A decoded integer or string with the number of bytes it took. */
  datatype Parsed<+T> = Parsed(item: T, consumed: nat)

  // ---- decoding ---------------------------------------------------------------------------

  /** `1 << prefix` for the prefixes of the format. */
  function Span(prefix: nat): (p: nat)
    requires 4 <= prefix <= 7
    ensures 16 <= p <= 128
  {
    if prefix == 4 then 16 else if prefix == 5 then 32 else if prefix == 6 then 64 else 128
  }

  /** Clears `bit`, the highest bit that may be set in `x`. */
  function Clear(x: nat, bit: nat): nat { if x >= bit then x - bit else x }

  /** `b & ((1 << prefix) - 1)`: the bits above the prefix cleared from the top. */
  function LowBits(b: byte, prefix: nat): (v: nat)
    requires 4 <= prefix <= 7
    ensures v < Span(prefix) && v <= b
  {
    var low7 := Clear(b, 128);
    if prefix == 7 then low7
    else if prefix == 6 then Clear(low7, 64)
    else if prefix == 5 then Clear(Clear(low7, 64), 32)
    else Clear(Clear(Clear(low7, 64), 32), 16)
  }

  /** The shift count the machine uses for `<< m`. */
  function ShiftCount(m: nat): nat { if m < 64 then m else m % 64 }

  /** One turn of the continuation loop: `value += (b & 0x7f) << m`. */
  function AddGroup(value: nat, b: byte, m: nat): (v: nat)
    ensures v < TWO_64
  {
    Wrap64(value + Wrap64(Shl(LowBits(b, 7), ShiftCount(m))))
  }

  /** The continuation loop entered at `pos` with shift `m` and partial sum `value`. */
  function ContinueInteger(data: Data, pos: nat, m: nat, value: nat): (r: Result<Parsed<nat>>)
    ensures r.Ok? ==> pos < r.value.consumed <= |data| && r.value.item < TWO_64
    ensures r.Err? ==> r.error == TruncatedInteger
    decreases |data| - pos
  {
    if pos >= |data| then Err(TruncatedInteger)
    else
      var v := AddGroup(value, data[pos], m);
      if data[pos] < 128 then Ok(Parsed(v, pos + 1)) else ContinueInteger(data, pos + 1, m + 7, v)
  }

  function DecodeIntegerSpec(data: Data, prefix: nat): (r: Result<Parsed<nat>>)
    requires 4 <= prefix <= 7
    ensures r.Ok? ==> 1 <= r.value.consumed <= |data| && r.value.item < TWO_64
    ensures r.Err? ==> r.error in {EmptyInteger, TruncatedInteger}
  {
    if data == [] then Err(EmptyInteger)
    else
      var value := LowBits(data[0], prefix);
      if value < Span(prefix) - 1 then Ok(Parsed(value, 1)) else ContinueInteger(data, 1, 0, value)
  }

  method DecodeInteger(data: Data, prefix: nat) returns (r: Result<Parsed<nat>>)
    requires 4 <= prefix <= 7
    ensures r == DecodeIntegerSpec(data, prefix)
  {
    if |data| == 0 {
      return Err(EmptyInteger);
    }
    var mask := Span(prefix) - 1;
    var value: nat := LowBits(data[0], prefix);
    if value < mask {
      return Ok(Parsed(value, 1));
    }
    var m: nat, pos: nat := 0, 1;
    while true
      invariant 1 <= pos <= |data|
      invariant ContinueInteger(data, 1, 0, LowBits(data[0], prefix)) == ContinueInteger(data, pos, m, value)
      decreases |data| - pos
    {
      if pos >= |data| {
        return Err(TruncatedInteger);
      }
      var b := data[pos];
      value := AddGroup(value, b, m);
      m := m + 7;
      pos := pos + 1;
      if b < 128 {
        break;
      }
    }
    return Ok(Parsed(value, pos));
  }

  function DecodeStringSpec(data: Data): (r: Result<Parsed<Data>>)
    ensures r.Ok? ==> 1 <= r.value.consumed <= |data| && |r.value.item| < r.value.consumed
    ensures r.Err? ==> r.error in {EmptyString, EmptyInteger, TruncatedInteger, StringTooLong, SlicePanic}
  {
    if data == [] then Err(EmptyString)
    else
      match DecodeIntegerSpec(data, 7)
      case Err(e) => Err(e)
      case Ok(Parsed(len, pos)) =>
        if pos + len >= TWO_64 then Err(SlicePanic)
        else if pos + len > |data| then Err(StringTooLong)
        else Ok(Parsed(data[pos..pos + len], pos + len))
  }

  // ---- encoding ---------------------------------------------------------------------------

  /** The continuation bytes of `remaining`, least significant group first. */
  function EncodeRest(remaining: nat): (s: Data)
    ensures |s| >= 1
  {
    if remaining >= 128 then [remaining % 128 + 128] + EncodeRest(remaining / 128) else [remaining]
  }

  /** A first byte whose low `prefix` bits are free for the integer. */
  predicate FlagByte(first: byte, prefix: nat)
  {
    4 <= prefix <= 7 && LowBits(first, prefix) == 0
  }

  lemma FlagByteRoom(first: byte, prefix: nat, v: nat)
    requires FlagByte(first, prefix) && v < Span(prefix)
    ensures first + v < 256 && LowBits(first + v, prefix) == v
  {
  }

  function EncodeIntegerSpec(value: nat, prefix: nat, first: byte): (s: Data)
    requires FlagByte(first, prefix)
    ensures |s| >= 1
  {
    var maxPrefix := Span(prefix) - 1;
    if value < maxPrefix then
      FlagByteRoom(first, prefix, value);
      [first + value]
    else
      FlagByteRoom(first, prefix, maxPrefix);
      [first + maxPrefix] + EncodeRest(value - maxPrefix)
  }

  method EncodeInteger(buf: Data, value: nat, prefix: nat, first: byte) returns (out: Data)
    requires FlagByte(first, prefix)
    ensures out == buf + EncodeIntegerSpec(value, prefix, first)
  {
    var maxPrefix := Span(prefix) - 1;
    out := buf;
    if value < maxPrefix {
      FlagByteRoom(first, prefix, value);
      out := out + [first + value];
    } else {
      FlagByteRoom(first, prefix, maxPrefix);
      ghost var rest := EncodeRest(value - maxPrefix);
      assert (buf + [first + maxPrefix]) + rest == buf + ([first + maxPrefix] + rest);
      out := EncodeGroups(out + [first + maxPrefix], value - maxPrefix);
    }
  }

  method EncodeGroups(buf: Data, value: nat) returns (out: Data)
    ensures out == buf + EncodeRest(value)
  {
    var remaining: nat := value;
    out := buf;
    while remaining >= 128
      invariant out + EncodeRest(remaining) == buf + EncodeRest(value)
    {
      ghost var rest := EncodeRest(remaining / 128);
      assert EncodeRest(remaining) == [remaining % 128 + 128] + rest;
      assert out + ([remaining % 128 + 128] + rest) == (out + [remaining % 128 + 128]) + rest;
      out := out + [remaining % 128 + 128];
      remaining := remaining / 128;
    }
    out := out + [remaining];
  }

  function EncodeStringSpec(s: Data): (e: Data)
    ensures |e| > |s|
  {
    EncodeIntegerSpec(|s|, 7, 0) + s
  }

  // ---- round trip -------------------------------------------------------------------------

  /** A nonzero remainder still to be sent bounds the shift by 63. */
  lemma ShiftBound(remaining: nat, m: nat)
    requires remaining >= 1 && Shl(remaining, m) < TWO_64
    ensures m <= 63
  {
    ShlMonotone(1, remaining, m);
    if m >= 64 {
      ShlWidens(64, m);
      ShlSixtyFour();
      assert false;
    }
  }

  /** Peeling the lowest seven bits off a shifted number. */
  lemma PeelGroup(remaining: nat, m: nat)
    ensures Shl(remaining, m) == Shl(remaining % 128, m) + Shl(remaining / 128, m + 7)
  {
    ShlSeven(remaining / 128, m);
    ShlAdd(remaining % 128, 128 * (remaining / 128), m);
  }

  lemma Regroup(pre: Data, b: byte, tail: Data, rest: Data)
    ensures pre + ([b] + tail) + rest == (pre + [b]) + tail + rest
  {
  }

  /** The continuation loop undoes the continuation bytes, whatever surrounds them. */
  lemma {:induction false} ContinueUndoesRest(pre: Data, remaining: nat, rest: Data, m: nat, acc: nat)
    requires remaining >= 1 || m == 0
    requires acc + Shl(remaining, m) < TWO_64
    ensures ContinueInteger(pre + EncodeRest(remaining) + rest, |pre|, m, acc)
         == Ok(Parsed(acc + Shl(remaining, m), |pre| + |EncodeRest(remaining)|))
    decreases remaining
  {
    if remaining >= 1 {
      ShiftBound(remaining, m);
    }
    var data := pre + EncodeRest(remaining) + rest;
    var b := EncodeRest(remaining)[0];
    assert data[|pre|] == b && LowBits(b, 7) == remaining % 128;
    PeelGroup(remaining, m);
    var v := acc + Shl(remaining % 128, m);
    assert AddGroup(acc, b, m) == v;
    if remaining >= 128 {
      Regroup(pre, b, EncodeRest(remaining / 128), rest);
      ContinueUndoesRest(pre + [b], remaining / 128, rest, m + 7, v);
    }
  }

  /** Section 5.1 of RFC 7541: decoding an encoded 64-bit integer gives it back with its exact
      length, and the flag bits above the prefix survive. */
  lemma IntegerRoundTrip(value: nat, prefix: nat, first: byte, rest: Data)
    requires FlagByte(first, prefix) && value < TWO_64
    ensures var e := EncodeIntegerSpec(value, prefix, first);
            DecodeIntegerSpec(e + rest, prefix) == Ok(Parsed(value, |e|)) &&
            e[0] - LowBits(e[0], prefix) == first
  {
    var maxPrefix := Span(prefix) - 1;
    if value < maxPrefix {
      FlagByteRoom(first, prefix, value);
    } else {
      FlagByteRoom(first, prefix, maxPrefix);
      ContinueUndoesRest([first + maxPrefix], value - maxPrefix, rest, 0, maxPrefix);
    }
  }

  lemma {:induction false} RestLength(remaining: nat, k: nat)
    requires k >= 1 && remaining < Shl(1, 7 * k)
    ensures |EncodeRest(remaining)| <= k
    decreases k
  {
    if remaining >= 128 {
      ShlSeven(1, 7 * k - 7);
      ShlSeven(1, 0);
      Shl128(7 * k - 7);
      RestLength(remaining / 128, k - 1);
    }
  }

  lemma {:induction false} Shl128(m: nat)
    ensures Shl(128, m) == 128 * Shl(1, m)
  {
    if m > 0 {
      Shl128(m - 1);
    }
  }

  /** No 64-bit integer takes more than eleven bytes. */
  lemma IntegerLength(value: nat, prefix: nat, first: byte)
    requires FlagByte(first, prefix) && value < TWO_64
    ensures |EncodeIntegerSpec(value, prefix, first)| <= 11
  {
    if value >= Span(prefix) - 1 {
      ShlSixtyFour();
      ShlWidens(64, 70);
      RestLength(value - (Span(prefix) - 1), 10);
    }
  }

  /** What the decoding loop would sum without any wrapping over the first `k` of `groups`. */
  function PartialSum(groups: Data, k: nat, m: nat): nat
    requires k <= |groups|
  {
    if k == 0 then 0 else Shl(LowBits(groups[0], 7), m) + PartialSum(groups[1..], k - 1, m + 7)
  }

  /** Over the encoder's own bytes every shift is below 64 and no partial sum exceeds the
      integer, so neither wrapping nor an overflow check can be observed. */
  lemma {:induction false} RestNeverOverflows(remaining: nat, m: nat, j: nat)
    requires remaining >= 1 || m == 0
    requires Shl(remaining, m) < TWO_64
    requires j < |EncodeRest(remaining)|
    ensures m + 7 * j <= 63
    ensures PartialSum(EncodeRest(remaining), j + 1, m) <= Shl(remaining, m)
    decreases j
  {
    if remaining >= 1 {
      ShiftBound(remaining, m);
    }
    PeelGroup(remaining, m);
    var e := EncodeRest(remaining);
    assert LowBits(e[0], 7) == remaining % 128;
    if j > 0 {
      assert e[1..] == EncodeRest(remaining / 128);
      RestNeverOverflows(remaining / 128, m + 7, j - 1);
    }
  }

  lemma IntegerNeverOverflows(value: nat, prefix: nat, first: byte, j: nat)
    requires FlagByte(first, prefix) && Span(prefix) - 1 <= value < TWO_64
    requires j + 1 < |EncodeIntegerSpec(value, prefix, first)|
    ensures 7 * j <= 63
    ensures Span(prefix) - 1 + PartialSum(EncodeIntegerSpec(value, prefix, first)[1..], j + 1, 0) <= value
  {
    var maxPrefix := Span(prefix) - 1;
    assert EncodeIntegerSpec(value, prefix, first)[1..] == EncodeRest(value - maxPrefix);
    RestNeverOverflows(value - maxPrefix, 0, j);
  }

  /** Section 5.2 of RFC 7541 for raw strings. */
  lemma StringRoundTrip(s: Data, rest: Data)
    requires |EncodeStringSpec(s)| < TWO_63
    ensures DecodeStringSpec(EncodeStringSpec(s) + rest) == Ok(Parsed(s, |EncodeStringSpec(s)|))
  {
    var e := EncodeIntegerSpec(|s|, 7, 0);
    IntegerRoundTrip(|s|, 7, 0, s + rest);
    assert EncodeStringSpec(s) + rest == e + (s + rest);
    assert (e + (s + rest))[|e|..|e| + |s|] == s;
  }

  // ---- self-delimiting --------------------------------------------------------------------

  lemma {:induction false} ContinueIgnoresSuffix(data: Data, extra: Data, pos: nat, m: nat, value: nat)
    requires ContinueInteger(data, pos, m, value).Ok?
    ensures ContinueInteger(data + extra, pos, m, value) == ContinueInteger(data, pos, m, value)
    decreases |data| - pos
  {
    if data[pos] >= 128 {
      ContinueIgnoresSuffix(data, extra, pos + 1, m + 7, AddGroup(value, data[pos], m));
    }
  }

  lemma IntegerIgnoresSuffix(data: Data, extra: Data, prefix: nat)
    requires 4 <= prefix <= 7 && DecodeIntegerSpec(data, prefix).Ok?
    ensures DecodeIntegerSpec(data + extra, prefix) == DecodeIntegerSpec(data, prefix)
  {
    var value := LowBits(data[0], prefix);
    if value >= Span(prefix) - 1 {
      ContinueIgnoresSuffix(data, extra, 1, 0, value);
    }
  }

  lemma StringIgnoresSuffix(data: Data, extra: Data)
    requires DecodeStringSpec(data).Ok?
    ensures DecodeStringSpec(data + extra) == DecodeStringSpec(data)
  {
    IntegerIgnoresSuffix(data, extra, 7);
    var Ok(Parsed(len, pos)) := DecodeIntegerSpec(data, 7);
    assert (data + extra)[pos..pos + len] == data[pos..pos + len];
  }
}
