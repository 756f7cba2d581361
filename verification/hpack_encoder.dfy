/**
  The HPACK encoder, and its lockstep with any decoder: whatever the two table sizes, every
  block decodes to the list that was encoded, and both tables see the same insertions.
*/
module HpackEncoder {
  import opened Bytes
  import opened HpackInteger
  import opened HpackTable
  import opened HpackStatic
  import opened HpackDecoder
  import opened HpackMeaning

  // ---- what the encoder computes ------------------------------------------------------------

  /** The representation chosen for a header: it never refers to the dynamic table. */
  function RepFor(h: Header): Rep
  {
    match FindFrom(h.name, h.value, 1)
    case Some(Match(i, true)) => IndexedField(i)
    case Some(Match(i, false)) => LiteralField(Incremental, FromTable(i), h.value)
    case None => LiteralField(Incremental, Literally(h.name), h.value)
  }

  /** Nothing before entry i has the name, and entry i is the header. */
  predicate FirstOfItsName(h: Header, i: nat)
  {
    && 1 <= i <= STATIC_COUNT && StaticEntry(i) == h
    && forall j :: 1 <= j < i ==> StaticEntry(j).name != h.name
  }

  /** A header is sent as an index if and only if it is the first static entry of its name; being
      in the static table is not enough.  No index sent reaches into the dynamic table. */
  lemma IndexedIff(h: Header)
    ensures RepFor(h).IndexedField? <==> exists i :: FirstOfItsName(h, i)
    ensures RepFor(h).IndexedField? ==> FirstOfItsName(h, RepFor(h).index)
    ensures RepFor(h).LiteralField? && RepFor(h).name.FromTable? ==> 1 <= RepFor(h).name.index <= STATIC_COUNT
  {
    hide StaticEntry;
    if i :| FirstOfItsName(h, i) {
      assert StaticEntry(i).name == h.name;
    }
    if RepFor(h).IndexedField? {
      assert FirstOfItsName(h, RepFor(h).index);
    }
  }

  /** `:method: POST` is entry 3, but entry 2 has its name: it is sent as a literal. */
  lemma PostIsALiteral()
    ensures var post := Header(Text(":method"), Text("POST"));
            StaticEntry(3) == post && RepFor(post) == LiteralField(Incremental, FromTable(2), Text("POST"))
  {
    hide StaticEntry;
    var name, value := Text(":method"), Text("POST");
    MethodEntries();
    assert FindFrom(name, value, 2) == Some(Match(2, false));
    assert FindFrom(name, value, 1) == FindFrom(name, value, 2);
  }

  function RepsFor(hs: seq<Header>): (reps: seq<Rep>)
    ensures |reps| == |hs| && forall i :: 0 <= i < |hs| ==> reps[i] == RepFor(hs[i])
  {
    if hs == [] then [] else [RepFor(hs[0])] + RepsFor(hs[1..])
  }

  function EncodeBlock(hs: seq<Header>): Data { SpellAll(RepsFor(hs)) }

  /** The entries a header list adds to the encoder's table, oldest first. */
  function Insertions(hs: seq<Header>): seq<Entry>
  {
    if hs == [] then []
    else (if RepFor(hs[0]).IndexedField? then [] else [NewEntry(hs[0].name, hs[0].value)]) + Insertions(hs[1..])
  }

  // ---- the class -----------------------------------------------------------------------------

  class Encoder {
    const table: DynamicTable

    ghost predicate Valid()
      reads this, table
    {
      table.Valid()
    }

    constructor (maxSize: nat)
      ensures Valid() && fresh(table)
      ensures table.Abstract() == EmptyTable(maxSize)
    {
      table := new DynamicTable(maxSize);
    }

    method EncodeString(buf: Data, s: Data) returns (out: Data)
      ensures out == buf + EncodeStringSpec(s)
    {
      out := EncodeInteger(buf, |s|, 7, 0);
      out := out + s;
      assert buf + EncodeIntegerSpec(|s|, 7, 0) + s == buf + (EncodeIntegerSpec(|s|, 7, 0) + s);
    }

    method EncodeHeader(buf: Data, h: Header) returns (out: Data)
      requires Valid()
      modifies table
      ensures Valid()
      ensures out == buf + Spell(RepFor(h))
      ensures table.Abstract() == InsertAll(old(table.Abstract()), Insertions([h]))
    {
      hide EncodeIntegerSpec, EncodeStringSpec, FindFrom, Insert;
      OneInsertion(table.Abstract(), h);
      var found := FindStatic(h.name, h.value);
      match found
      case Some(Match(index, true)) =>
        out := EncodeInteger(buf, index, 7, 0x80);
      case Some(Match(index, false)) =>
        out := EncodeInteger(buf, index, 6, 0x40);
        out := EncodeString(out, h.value);
        Regroup3(buf, EncodeIntegerSpec(index, 6, 0x40), EncodeStringSpec(h.value), []);
        table.AddEntry(h.name, h.value);
      case None =>
        ZeroIndex();
        out := EncodeString(buf + [0x40], h.name);
        out := EncodeString(out, h.value);
        Regroup3(buf, [0x40], EncodeStringSpec(h.name), EncodeStringSpec(h.value));
        table.AddEntry(h.name, h.value);
    }

    method Encode(headers: seq<Header>) returns (out: Data)
      requires Valid()
      modifies table
      ensures Valid()
      ensures out == EncodeBlock(headers)
      ensures table.Abstract() == InsertAll(old(table.Abstract()), Insertions(headers))
    {
      hide Insert, InsertAll, RepFor, Spell, EncodeBlock, Insertions;
      out := [];
      EncodeNothing(table.Abstract());
      assert headers[..0] == [];
      for i := 0 to |headers|
        invariant Valid()
        invariant out == EncodeBlock(headers[..i])
        invariant table.Abstract() == InsertAll(old(table.Abstract()), Insertions(headers[..i]))
      {
        EncodeSnoc(headers[..i], headers[i]);
        assert headers[..i + 1] == headers[..i] + [headers[i]];
        InsertAllConcat(old(table.Abstract()), Insertions(headers[..i]), Insertions([headers[i]]));
        out := EncodeHeader(out, headers[i]);
      }
      assert headers[..|headers|] == headers;
    }
  }

  lemma ZeroIndex()
    ensures EncodeIntegerSpec(0, 6, 0x40) == [0x40]
  {
  }

  lemma Regroup3(a: Data, b: Data, c: Data, d: Data)
    ensures a + b + c + d == a + (b + c + d) && a + b + c == a + (b + c)
    ensures a + b + c + d == a + ((b + c) + d)
  {
  }

  lemma OneInsertion(t: Table, h: Header)
    ensures InsertAll(t, Insertions([h]))
         == if RepFor(h).IndexedField? then t else Insert(t, NewEntry(h.name, h.value))
  {
    hide RepFor, Insert;
    var e := NewEntry(h.name, h.value);
    assert [h][1..] == [] && [e] + [] == [e] && [e][..0] == [];
  }

  lemma EncodeNothing(t: Table)
    ensures EncodeBlock([]) == [] && InsertAll(t, Insertions([])) == t
  {
  }

  lemma EncodeSnoc(hs: seq<Header>, h: Header)
    ensures EncodeBlock(hs + [h]) == EncodeBlock(hs) + Spell(RepFor(h))
    ensures Insertions(hs + [h]) == Insertions(hs) + Insertions([h])
  {
    hide RepFor, Spell, EncodeBlock, Insertions;
    BlockSnoc(hs, h);
    InsertionsSnoc(hs, h);
  }

  lemma {:induction false} BlockSnoc(hs: seq<Header>, h: Header)
    ensures EncodeBlock(hs + [h]) == EncodeBlock(hs) + Spell(RepFor(h))
  {
    hide EncodeBlock, Spell, RepFor, Insertions;
    EncodeNothing(EmptyTable(0));
    BlockCons(hs + [h]);
    if hs == [] {
      assert [] + [h] == [h] && [h][1..] == [];
    } else {
      assert (hs + [h])[1..] == hs[1..] + [h];
      BlockSnoc(hs[1..], h);
      BlockCons(hs);
    }
  }

  lemma {:induction false} InsertionsSnoc(hs: seq<Header>, h: Header)
    ensures Insertions(hs + [h]) == Insertions(hs) + Insertions([h])
  {
    hide EncodeBlock, Spell, RepFor;
    if hs == [] {
      assert [] + [h] == [h];
    } else {
      assert (hs + [h])[1..] == hs[1..] + [h];
      InsertionsSnoc(hs[1..], h);
    }
  }

  lemma BlockCons(hs: seq<Header>)
    requires hs != []
    ensures EncodeBlock(hs) == Spell(RepFor(hs[0])) + EncodeBlock(hs[1..])
  {
    hide RepFor, Spell, Insertions;
    assert RepsFor(hs)[1..] == RepsFor(hs[1..]);
  }

  lemma EncodeCons(hs: seq<Header>)
    requires hs != []
    ensures EncodeBlock(hs) == Spell(RepFor(hs[0])) + EncodeBlock(hs[1..])
    ensures Insertions(hs) == Insertions([hs[0]]) + Insertions(hs[1..])
  {
    hide RepFor, Spell, EncodeBlock;
    BlockCons(hs);
    assert [hs[0]][1..] == [];
  }

  // ---- round trip and lockstep ----------------------------------------------------------------

  /** The encoded block exists on a 64-bit machine. */
  predicate Encodable(hs: seq<Header>) { |EncodeBlock(hs)| < TWO_63 }

  lemma RepForMeans(h: Header, t: Table)
    requires |Spell(RepFor(h))| < TWO_63
    ensures WellFormed(RepFor(h))
    ensures Interpret(RepFor(h), t) == Block(Ok([h]), InsertAll(t, Insertions([h])))
  {
    hide EncodeStringSpec, EncodeIntegerSpec, Insert, Resize;
    OneInsertion(t, h);
  }

  lemma {:induction false} RepsForMean(hs: seq<Header>, t: Table)
    requires Encodable(hs)
    ensures InterpretAll(RepsFor(hs), t) == Block(Ok(hs), InsertAll(t, Insertions(hs)))
    ensures forall i :: 0 <= i < |hs| ==> WellFormed(RepFor(hs[i]))
  {
    hide Spell, Insert, Resize, RepFor, Interpret, WellFormed;
    if hs != [] {
      EncodeCons(hs);
      RepForMeans(hs[0], t);
      var t' := InsertAll(t, Insertions([hs[0]]));
      RepsForMean(hs[1..], t');
      assert RepsFor(hs)[1..] == RepsFor(hs[1..]);
      InsertAllConcat(t, Insertions([hs[0]]), Insertions(hs[1..]));
      assert [hs[0]] + hs[1..] == hs;
    }
  }

  /** Every encoded block decodes to the list it came from, into a table of any size and content,
      and makes the decoder insert exactly what the encoder inserted. */
  lemma BlockRoundTrip(hs: seq<Header>, t: Table)
    requires Encodable(hs)
    ensures DecodeBlock(EncodeBlock(hs), t) == Block(Ok(hs), InsertAll(t, Insertions(hs)))
  {
    hide WellFormed;
    RepsForMean(hs, t);
    DecodingIsInterpreting(RepsFor(hs), t);
  }

  function AllInsertions(blocks: seq<seq<Header>>): seq<Entry>
  {
    if blocks == [] then [] else Insertions(blocks[0]) + AllInsertions(blocks[1..])
  }

  /** The outcomes of decoding a list of blocks in turn, and the final table. */
  function DecodeRun(blocks: seq<Data>, t: Table): (seq<Result<seq<Header>>>, Table)
  {
    if blocks == [] then ([], t)
    else
      var b := DecodeBlock(blocks[0], t);
      var (results, t') := DecodeRun(blocks[1..], b.table);
      ([b.result] + results, t')
  }

  /** The blocks an encoder sends for a list of header lists, and its final table. */
  function EncodeRun(blocks: seq<seq<Header>>, t: Table): (seq<Data>, Table)
  {
    if blocks == [] then ([], t)
    else
      var (datas, t') := EncodeRun(blocks[1..], InsertAll(t, Insertions(blocks[0])));
      ([EncodeBlock(blocks[0])] + datas, t')
  }

  lemma {:induction false} RunRoundTrip(blocks: seq<seq<Header>>, e: Table, d: Table)
    requires forall i :: 0 <= i < |blocks| ==> Encodable(blocks[i])
    ensures EncodeRun(blocks, e).1 == InsertAll(e, AllInsertions(blocks))
    ensures var (results, d') := DecodeRun(EncodeRun(blocks, e).0, d);
            d' == InsertAll(d, AllInsertions(blocks)) &&
            |results| == |blocks| && forall i :: 0 <= i < |blocks| ==> results[i] == Ok(blocks[i])
  {
    hide Insertions, InsertAll, EncodeBlock, DecodeBlock, Encodable;
    if blocks == [] {
      NoInsertions(e);
      NoInsertions(d);
    } else {
      var ins := Insertions(blocks[0]);
      BlockRoundTrip(blocks[0], d);
      RunRoundTrip(blocks[1..], InsertAll(e, ins), InsertAll(d, ins));
      InsertAllConcat(e, ins, AllInsertions(blocks[1..]));
      InsertAllConcat(d, ins, AllInsertions(blocks[1..]));
      var (datas, _) := EncodeRun(blocks[1..], InsertAll(e, ins));
      assert EncodeRun(blocks, e).0[1..] == datas;
      assert forall i :: 1 <= i < |blocks| ==> blocks[i] == blocks[1..][i - 1];
    }
  }

  lemma NoInsertions(t: Table)
    ensures InsertAll(t, []) == t
  {
  }

  /** Lockstep over any number of header blocks between a fresh encoder and a fresh decoder of
      any two sizes: each block decodes to exactly the encoded list, equal sizes keep equal
      tables, and otherwise the smaller table stays a prefix of the larger. */
  lemma Lockstep(blocks: seq<seq<Header>>, encoderSize: nat, decoderSize: nat)
    requires forall i :: 0 <= i < |blocks| ==> Encodable(blocks[i])
    ensures var (datas, e) := EncodeRun(blocks, EmptyTable(encoderSize));
            var (results, d) := DecodeRun(datas, EmptyTable(decoderSize));
            && |results| == |blocks|
            && (forall i :: 0 <= i < |blocks| ==> results[i] == Ok(blocks[i]))
            && e.entries == Fit(Reversed(AllInsertions(blocks)), encoderSize)
            && d.entries == Fit(Reversed(AllInsertions(blocks)), decoderSize)
            && (encoderSize == decoderSize ==> e == d)
            && (encoderSize <= decoderSize ==> e.entries <= d.entries)
            && (decoderSize <= encoderSize ==> d.entries <= e.entries)
  {
    hide Fit, EncodeRun, DecodeRun, Encodable;
    RunRoundTrip(blocks, EmptyTable(encoderSize), EmptyTable(decoderSize));
    var ins := AllInsertions(blocks);
    EvictionIsExact(encoderSize, ins);
    EvictionIsExact(decoderSize, ins);
    if encoderSize <= decoderSize {
      TablesNest(encoderSize, decoderSize, ins);
    }
    if decoderSize <= encoderSize {
      TablesNest(decoderSize, encoderSize, ins);
    }
  }
}
