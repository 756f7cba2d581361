/**
  The HPACK decoder.  `DecodeBlock` is what a call of `decode` does to a header block and a
  dynamic table; the class holds the source's loop.  Blocks are self-delimiting, and the decoder
  panics exactly on the blocks of `DecoderPanicsIff`.
*/
module HpackDecoder {
  import opened Bytes
  import opened HpackInteger
  import opened HpackTable
  import opened HpackStatic

  // ---- what the decoder computes -----------------------------------------------------------

  function Lookup(t: Table, index: nat): (r: Result<Header>)
    ensures r.Ok? <==> 1 <= index <= STATIC_COUNT + |t.entries|
  {
    if index == 0 then Err(InvalidIndexZero)
    else if index <= STATIC_COUNT then Ok(StaticEntry(index))
    else
      var d := index - STATIC_COUNT - 1;
      if d >= |t.entries| then Err(InvalidDynamicIndex(d))
      else Ok(Header(t.entries[d].name, t.entries[d].value))
  }

  /** One literal: its header and length, or an error.  The table is not part of the result:
      a literal changes it, by an insertion, only when it succeeds. */
  function DecodeLiteralSpec(data: Data, prefix: nat, t: Table): (r: Result<Parsed<Header>>)
    requires 4 <= prefix <= 7
    ensures r.Ok? ==> 1 <= r.value.consumed <= |data|
  {
    match DecodeIntegerSpec(data, prefix)
    case Err(e) => Err(e)
    case Ok(Parsed(nameIndex, pos)) =>
      match LiteralTail(data[pos..], nameIndex, t)
      case Err(e) => Err(e)
      case Ok(Parsed(h, used)) => Ok(Parsed(h, pos + used))
  }

  /** A literal after its first integer. */
  function LiteralTail(data: Data, nameIndex: nat, t: Table): (r: Result<Parsed<Header>>)
    ensures r.Ok? ==> r.value.consumed <= |data|
  {
    match LiteralName(data, nameIndex, t)
    case Err(e) => Err(e)
    case Ok(Parsed(name, used)) =>
      match DecodeStringSpec(data[used..])
      case Err(e) => Err(e)
      case Ok(Parsed(value, more)) => Ok(Parsed(Header(name, value), used + more))
  }

  /** The name of a literal, from the string that follows or from a table. */
  function LiteralName(data: Data, nameIndex: nat, t: Table): (r: Result<Parsed<Data>>)
    ensures r.Ok? ==> r.value.consumed <= |data|
  {
    if nameIndex == 0 then DecodeStringSpec(data)
    else
      match Lookup(t, nameIndex)
      case Err(e) => Err(e)
      case Ok(h) => Ok(Parsed(h.name, 0))
  }

  datatype Step = Step(result: Result<Parsed<Option<Header>>>, table: Table)

  /** One turn of the decoding loop on a non-empty rest of the block. */
  function DecodeStep(data: Data, t: Table): (s: Step)
    requires data != []
    ensures s.result.Ok? ==> 1 <= s.result.value.consumed <= |data|
    ensures s.result.Err? ==> s.table == t
  {
    var first := data[0];
    if first >= 128 then
      match DecodeIntegerSpec(data, 7)
      case Err(e) => Step(Err(e), t)
      case Ok(Parsed(index, n)) =>
        match Lookup(t, index)
        case Err(e) => Step(Err(e), t)
        case Ok(h) => Step(Ok(Parsed(Some(h), n)), t)
    else if first >= 64 then
      match DecodeLiteralSpec(data, 6, t)
      case Err(e) => Step(Err(e), t)
      case Ok(Parsed(h, n)) => Step(Ok(Parsed(Some(h), n)), Insert(t, NewEntry(h.name, h.value)))
    else if first >= 32 then
      match DecodeIntegerSpec(data, 5)
      case Err(e) => Step(Err(e), t)
      case Ok(Parsed(newSize, n)) => Step(Ok(Parsed(None, n)), Resize(t, newSize))
    else
      match DecodeLiteralSpec(data, 4, t)
      case Err(e) => Step(Err(e), t)
      case Ok(Parsed(h, n)) => Step(Ok(Parsed(Some(h), n)), t)
  }

  /** The outcome of a block: headers or the first error, and the table either leaves behind. */
  datatype Block = Block(result: Result<seq<Header>>, table: Table)

  function Emitted(h: Option<Header>): seq<Header> { if h.Some? then [h.value] else [] }

  function Prepend(hs: seq<Header>, b: Block): Block
  {
    match b.result
    case Ok(rest) => b.(result := Ok(hs + rest))
    case Err(_) => b
  }

  function DecodeBlock(data: Data, t: Table): Block
    decreases |data|
  {
    if data == [] then Block(Ok([]), t)
    else
      var s := DecodeStep(data, t);
      match s.result
      case Err(e) => Block(Err(e), s.table)
      case Ok(Parsed(h, n)) => Prepend(Emitted(h), DecodeBlock(data[n..], s.table))
  }

  // ---- the class -----------------------------------------------------------------------------

  class Decoder {
    const table: DynamicTable

    ghost predicate Valid()
      reads this, table
    {
      table.Valid()
    }

    constructor (maxSize: nat)
      ensures Valid() && fresh(table)
      ensures table.Abstract() == EmptyTable(maxSize)
    {
      table := new DynamicTable(maxSize);
    }

    method GetIndexed(index: nat) returns (r: Result<Header>)
      ensures r == Lookup(table.Abstract(), index)
    {
      if index == 0 {
        return Err(InvalidIndexZero);
      }
      if index <= STATIC_COUNT {
        return Ok(StaticEntry(index));
      }
      var dynIndex := index - STATIC_COUNT - 1;
      if dynIndex >= |table.entries| {
        return Err(InvalidDynamicIndex(dynIndex));
      }
      var entry := table.entries[dynIndex];
      return Ok(Header(entry.name, entry.value));
    }

    method DecodeString(data: Data) returns (r: Result<Parsed<Data>>)
      ensures r == DecodeStringSpec(data)
    {
      if |data| == 0 {
        return Err(EmptyString);
      }
      var i := DecodeInteger(data, 7);
      if i.Err? {
        return Err(i.error);
      }
      var len, pos := i.value.item, i.value.consumed;
      if pos + len >= TWO_64 {
        return Err(SlicePanic);
      }
      if pos + len > |data| {
        return Err(StringTooLong);
      }
      return Ok(Parsed(data[pos..pos + len], pos + len));
    }

    method DecodeLiteral(data: Data, prefix: nat, index: bool) returns (r: Result<Parsed<Header>>)
      requires Valid() && 4 <= prefix <= 7
      modifies table
      ensures Valid()
      ensures r == DecodeLiteralSpec(data, prefix, old(table.Abstract()))
      ensures table.Abstract() ==
        if index && r.Ok? then Insert(old(table.Abstract()), NewEntry(r.value.item.name, r.value.item.value))
        else old(table.Abstract())
    {
      var i := DecodeInteger(data, prefix);
      if i.Err? {
        return Err(i.error);
      }
      var nameIndex, pos := i.value.item, i.value.consumed;
      var name: Data;
      ghost var tail := data[pos..];
      if nameIndex == 0 {
        var n := DecodeString(data[pos..]);
        if n.Err? {
          return Err(n.error);
        }
        name := n.value.item;
        pos := pos + n.value.consumed;
        assert data[pos..] == tail[n.value.consumed..];
      } else {
        var h := GetIndexed(nameIndex);
        if h.Err? {
          return Err(h.error);
        }
        name := h.value.name;
        assert tail[0..] == tail;
      }
      var v := DecodeString(data[pos..]);
      if v.Err? {
        return Err(v.error);
      }
      pos := pos + v.value.consumed;
      if index {
        table.AddEntry(name, v.value.item);
      }
      return Ok(Parsed(Header(name, v.value.item), pos));
    }

    /** The body of the decoding loop: one representation off the front of the block. */
    method DecodeNext(data: Data) returns (r: Result<Parsed<Option<Header>>>)
      requires Valid() && data != []
      modifies table
      ensures Valid()
      ensures Step(r, table.Abstract()) == DecodeStep(data, old(table.Abstract()))
    {
      var first := data[0];
      if first >= 128 {
        var i := DecodeInteger(data, 7);
        if i.Err? {
          return Err(i.error);
        }
        var h := GetIndexed(i.value.item);
        if h.Err? {
          return Err(h.error);
        }
        return Ok(Parsed(Some(h.value), i.value.consumed));
      } else if first >= 64 {
        var l := DecodeLiteral(data, 6, true);
        if l.Err? {
          return Err(l.error);
        }
        return Ok(Parsed(Some(l.value.item), l.value.consumed));
      } else if first >= 32 {
        var i := DecodeInteger(data, 5);
        if i.Err? {
          return Err(i.error);
        }
        table.SetLimit(i.value.item);
        return Ok(Parsed(None, i.value.consumed));
      } else {
        var l := DecodeLiteral(data, 4, false);
        if l.Err? {
          return Err(l.error);
        }
        return Ok(Parsed(Some(l.value.item), l.value.consumed));
      }
    }

    method Decode(data: Data) returns (r: Result<seq<Header>>)
      requires Valid()
      modifies table
      ensures Valid()
      ensures Block(r, table.Abstract()) == DecodeBlock(data, old(table.Abstract()))
    {
      hide *;
      var headers: seq<Header> := [];
      var pos := 0;
      assert data[0..] == data;
      PrependNothing(DecodeBlock(data, table.Abstract()));
      while pos < |data|
        invariant 0 <= pos <= |data| && Valid()
        invariant Prepend(headers, DecodeBlock(data[pos..], table.Abstract()))
               == DecodeBlock(data, old(table.Abstract()))
        decreases |data| - pos
      {
        ghost var rest, before := data[pos..], table.Abstract();
        var s := DecodeNext(data[pos..]);
        Advance(headers, rest, before, Step(s, table.Abstract()));
        if s.Err? {
          return Err(s.error);
        }
        assert data[pos + s.value.consumed..] == rest[s.value.consumed..];
        pos := pos + s.value.consumed;
        headers := headers + Emitted(s.value.item);
      }
      assert data[pos..] == [];
      Finish(headers, table.Abstract());
      return Ok(headers);
    }
  }

  lemma Finish(headers: seq<Header>, t: Table)
    ensures Prepend(headers, DecodeBlock([], t)) == Block(Ok(headers), t)
  {
    assert headers + [] == headers;
  }

  /** One turn of the loop moves a header from the rest of the block to the list already built. */
  lemma Advance(headers: seq<Header>, rest: Data, t: Table, s: Step)
    requires rest != [] && s == DecodeStep(rest, t)
    ensures Prepend(headers, DecodeBlock(rest, t)) ==
      match s.result
      case Err(e) => Block(Err(e), s.table)
      case Ok(Parsed(h, n)) => Prepend(headers + Emitted(h), DecodeBlock(rest[n..], s.table))
  {
    if s.result.Ok? {
      var Parsed(h, n) := s.result.value;
      PrependTwice(headers, Emitted(h), DecodeBlock(rest[n..], s.table));
    }
  }

  lemma PrependNothing(b: Block)
    ensures Prepend([], b) == b
  {
    if b.result.Ok? {
      assert [] + b.result.value == b.result.value;
    }
  }

  lemma PrependTwice(a: seq<Header>, b: seq<Header>, block: Block)
    ensures Prepend(a, Prepend(b, block)) == Prepend(a + b, block)
  {
    if block.result.Ok? {
      assert a + (b + block.result.value) == a + b + block.result.value;
    }
  }

  // ---- self-delimiting ------------------------------------------------------------------------

  lemma TailIgnoresSuffix(data: Data, extra: Data, nameIndex: nat, t: Table)
    requires LiteralTail(data, nameIndex, t).Ok?
    ensures LiteralTail(data + extra, nameIndex, t) == LiteralTail(data, nameIndex, t)
  {
    hide DecodeStringSpec, Lookup;
    if nameIndex == 0 {
      StringIgnoresSuffix(data, extra);
    }
    var used := LiteralName(data, nameIndex, t).value.consumed;
    DropConcat(data, extra, used);
    StringIgnoresSuffix(data[used..], extra);
  }

  lemma LiteralIgnoresSuffix(data: Data, extra: Data, prefix: nat, t: Table)
    requires 4 <= prefix <= 7 && DecodeLiteralSpec(data, prefix, t).Ok?
    ensures DecodeLiteralSpec(data + extra, prefix, t) == DecodeLiteralSpec(data, prefix, t)
  {
    hide DecodeIntegerSpec, LiteralTail;
    IntegerIgnoresSuffix(data, extra, prefix);
    var Ok(Parsed(nameIndex, pos)) := DecodeIntegerSpec(data, prefix);
    DropConcat(data, extra, pos);
    TailIgnoresSuffix(data[pos..], extra, nameIndex, t);
  }

  lemma StepIgnoresSuffix(data: Data, extra: Data, t: Table)
    requires data != [] && DecodeStep(data, t).result.Ok?
    ensures DecodeStep(data + extra, t) == DecodeStep(data, t)
  {
    var first := data[0];
    if first >= 128 {
      IntegerIgnoresSuffix(data, extra, 7);
    } else if first >= 64 {
      LiteralIgnoresSuffix(data, extra, 6, t);
    } else if first >= 32 {
      IntegerIgnoresSuffix(data, extra, 5);
    } else {
      LiteralIgnoresSuffix(data, extra, 4, t);
    }
  }

  /** A block that decodes can be followed by another: the two are decoded in turn. */
  lemma {:induction false} DecodeConcat(a: Data, b: Data, t: Table)
    requires DecodeBlock(a, t).result.Ok?
    ensures DecodeBlock(a + b, t) == Prepend(DecodeBlock(a, t).result.value, DecodeBlock(b, DecodeBlock(a, t).table))
    decreases |a|
  {
    if a == [] {
      assert a + b == b;
      PrependNothing(DecodeBlock(b, t));
    } else {
      StepIgnoresSuffix(a, b, t);
      var s := DecodeStep(a, t);
      var n := s.result.value.consumed;
      DropConcat(a, b, n);
      DecodeConcat(a[n..], b, s.table);
      PrependTwice(Emitted(s.result.value.item), DecodeBlock(a[n..], s.table).result.value,
                   DecodeBlock(b, DecodeBlock(a, t).table));
    }
  }

  // ---- when the decoder panics ------------------------------------------------------------------

  /** A string whose announced length and position add up past 64 bits. */
  predicate Overlong(data: Data)
  {
    && DecodeIntegerSpec(data, 7).Ok?
    && DecodeIntegerSpec(data, 7).value.consumed + DecodeIntegerSpec(data, 7).value.item >= TWO_64
  }

  /** A literal whose name string or value string, whichever is reached first, is overlong. */
  predicate OverlongLiteral(data: Data, prefix: nat, t: Table)
    requires 4 <= prefix <= 7
  {
    && DecodeIntegerSpec(data, prefix).Ok?
    && (var Ok(Parsed(nameIndex, pos)) := DecodeIntegerSpec(data, prefix);
        var rest := data[pos..];
        if nameIndex != 0 then Lookup(t, nameIndex).Ok? && Overlong(rest)
        else Overlong(rest) || (DecodeStringSpec(rest).Ok? && Overlong(rest[DecodeStringSpec(rest).value.consumed..])))
  }

  /** The first representation of a block that does not decode is such a literal. */
  predicate MeetsOverlong(data: Data, t: Table)
    decreases |data|
  {
    && data != []
    && (var s := DecodeStep(data, t);
        if s.result.Ok? then MeetsOverlong(data[s.result.value.consumed..], s.table)
        else (64 <= data[0] < 128 && OverlongLiteral(data, 6, t)) || (data[0] < 32 && OverlongLiteral(data, 4, t)))
  }

  lemma StringPanicsIff(data: Data)
    ensures DecodeStringSpec(data) == Err(SlicePanic) <==> Overlong(data)
  {
  }

  lemma LiteralPanicsIff(data: Data, prefix: nat, t: Table)
    requires 4 <= prefix <= 7
    ensures DecodeLiteralSpec(data, prefix, t) == Err(SlicePanic) <==> OverlongLiteral(data, prefix, t)
  {
    hide DecodeStringSpec, Overlong, DecodeIntegerSpec;
    if DecodeIntegerSpec(data, prefix).Ok? {
      var Ok(Parsed(nameIndex, pos)) := DecodeIntegerSpec(data, prefix);
      var rest := data[pos..];
      StringPanicsIff(rest);
      if nameIndex != 0 {
        assert rest[0..] == rest;
      } else if DecodeStringSpec(rest).Ok? {
        StringPanicsIff(rest[DecodeStringSpec(rest).value.consumed..]);
      }
    }
  }

  /** The decoder panics if and only if the first representation it cannot decode is a literal one
      of whose strings announces a length that with its position reaches 2^64. */
  lemma {:induction false} DecoderPanicsIff(data: Data, t: Table)
    ensures DecodeBlock(data, t).result == Err(SlicePanic) <==> MeetsOverlong(data, t)
    decreases |data|
  {
    hide DecodeLiteralSpec, DecodeIntegerSpec, OverlongLiteral, Insert, Resize;
    if data != [] {
      LiteralPanicsIff(data, 6, t);
      LiteralPanicsIff(data, 4, t);
      var s := DecodeStep(data, t);
      if s.result.Ok? {
        DecoderPanicsIff(data[s.result.value.consumed..], s.table);
      }
    }
  }

  /** There are such blocks: a literal whose name announces 2^64 - 1 bytes, in at most twelve. */
  lemma OverlongNamePanics(t: Table)
    ensures var block := [0] + EncodeIntegerSpec(TWO_64 - 1, 7, 0);
            |block| <= 12 && DecodeBlock(block, t).result == Err(SlicePanic)
  {
    var e := EncodeIntegerSpec(TWO_64 - 1, 7, 0);
    var block := [0] + e;
    IntegerLength(TWO_64 - 1, 7, 0);
    IntegerRoundTrip(TWO_64 - 1, 7, 0, []);
    assert e + [] == e && block[1..] == e;
    hide EncodeIntegerSpec;
    assert DecodeIntegerSpec(block, 4) == Ok(Parsed(0, 1));
    assert OverlongLiteral(block, 4, t);
    LiteralPanicsIff(block, 4, t);
  }
}
