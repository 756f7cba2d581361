/**
  The representations of section 6 of RFC 7541 with an interpreter that never sees a byte, and
  the two directions of the decoder's meaning: decoding a serialized list of representations is
  interpreting the list, errors included, and every block the decoder accepts is such a list up
  to the spelling of its integers and strings.
*/
module HpackMeaning {
  import opened Bytes
  import opened HpackInteger
  import opened HpackTable
  import opened HpackStatic
  import opened HpackDecoder

  datatype NameRef = FromTable(index: nat) | Literally(name: Data)

  datatype Mode = Incremental | WithoutIndexing | NeverIndexed

  datatype Rep =
    | IndexedField(index: nat)
    | LiteralField(mode: Mode, name: NameRef, value: Data)
    | SizeUpdate(newSize: nat)

  // ---- meaning ---------------------------------------------------------------------------------

  function ResolveName(n: NameRef, t: Table): Result<Data>
  {
    match n
    case Literally(name) => Ok(name)
    case FromTable(i) => if Lookup(t, i).Ok? then Ok(Lookup(t, i).value.name) else Err(Lookup(t, i).error)
  }

  /** What one representation emits and does to the table.  A name taken from the table is read
      before the insertion of the same field can evict the entry it came from. */
  function Interpret(rep: Rep, t: Table): (b: Block)
    ensures b.result.Err? ==> b.table == t
  {
    match rep
    case IndexedField(i) =>
      (match Lookup(t, i)
       case Ok(h) => Block(Ok([h]), t)
       case Err(e) => Block(Err(e), t))
    case LiteralField(mode, n, value) =>
      (match ResolveName(n, t)
       case Ok(name) =>
         Block(Ok([Header(name, value)]), if mode.Incremental? then Insert(t, NewEntry(name, value)) else t)
       case Err(e) => Block(Err(e), t))
    case SizeUpdate(n) => Block(Ok([]), Resize(t, n))
  }

  function InterpretAll(reps: seq<Rep>, t: Table): Block
  {
    if reps == [] then Block(Ok([]), t)
    else
      var b := Interpret(reps[0], t);
      if b.result.Err? then b else Prepend(b.result.value, InterpretAll(reps[1..], b.table))
  }

  // ---- spelling ----------------------------------------------------------------------------------

  /** What fits a 64-bit machine: a name index of zero spells a literal name. */
  predicate WellFormed(rep: Rep)
  {
    match rep
    case IndexedField(i) => i < TWO_64
    case LiteralField(_, n, value) =>
      && (match n
          case FromTable(i) => 1 <= i < TWO_64
          case Literally(name) => |EncodeStringSpec(name)| < TWO_63)
      && |EncodeStringSpec(value)| < TWO_63
    case SizeUpdate(n) => n < TWO_64
  }

  function ModePrefix(m: Mode): nat { if m.Incremental? then 6 else 4 }

  function ModeFlag(m: Mode): (flag: byte)
    ensures FlagByte(flag, ModePrefix(m))
  {
    match m
    case Incremental => 0x40
    case WithoutIndexing => 0
    case NeverIndexed => 0x10
  }

  function SpellName(m: Mode, n: NameRef): Data
  {
    match n
    case FromTable(i) => EncodeIntegerSpec(i, ModePrefix(m), ModeFlag(m))
    case Literally(name) => EncodeIntegerSpec(0, ModePrefix(m), ModeFlag(m)) + EncodeStringSpec(name)
  }

  function Spell(rep: Rep): (s: Data)
    ensures |s| >= 1
  {
    match rep
    case IndexedField(i) => EncodeIntegerSpec(i, 7, 0x80)
    case LiteralField(m, n, value) => SpellName(m, n) + EncodeStringSpec(value)
    case SizeUpdate(n) => EncodeIntegerSpec(n, 5, 0x20)
  }

  function SpellAll(reps: seq<Rep>): Data
  {
    if reps == [] then [] else Spell(reps[0]) + SpellAll(reps[1..])
  }

  // ---- decoding the spelling is interpreting --------------------------------------------------------

  /** The range of a first byte tells which kind of representation follows. */
  lemma FirstByteRange(v: nat, prefix: nat, flag: byte, rest: Data)
    requires FlagByte(flag, prefix)
    ensures flag <= (EncodeIntegerSpec(v, prefix, flag) + rest)[0] < flag + Span(prefix)
  {
  }

  lemma TailOfSpelling(m: Mode, n: NameRef, value: Data, rest: Data, t: Table)
    requires WellFormed(LiteralField(m, n, value))
    ensures var data := Spell(LiteralField(m, n, value)) + rest;
            DecodeLiteralSpec(data, ModePrefix(m), t) ==
              (match ResolveName(n, t)
               case Ok(name) => Ok(Parsed(Header(name, value), |Spell(LiteralField(m, n, value))|))
               case Err(e) => Err(e))
  {
    hide EncodeIntegerSpec, DecodeIntegerSpec, EncodeStringSpec, DecodeStringSpec, Lookup;
    var prefix, flag := ModePrefix(m), ModeFlag(m);
    var v := EncodeStringSpec(value);
    var index := if n.FromTable? then n.index else 0;
    var spelled := if n.FromTable? then [] else EncodeStringSpec(n.name);
    var i := EncodeIntegerSpec(index, prefix, flag);
    var data := Spell(LiteralField(m, n, value)) + rest;
    assert data == i + (spelled + (v + rest));
    IntegerRoundTrip(index, prefix, flag, spelled + (v + rest));
    assert data[|i|..] == spelled + (v + rest);
    if n.Literally? {
      StringRoundTrip(n.name, v + rest);
    }
    assert (spelled + (v + rest))[|spelled|..] == v + rest;
    StringRoundTrip(value, rest);
  }

  /** The decoder's loop takes one spelled representation off the front and does what it means. */
  lemma StepOnSpelling(rep: Rep, rest: Data, t: Table)
    requires WellFormed(rep)
    ensures var data, b := Spell(rep) + rest, Interpret(rep, t);
            DecodeBlock(data, t) ==
              (match b.result
               case Ok(hs) => Prepend(hs, DecodeBlock(rest, b.table))
               case Err(_) => b)
  {
    hide EncodeIntegerSpec, DecodeIntegerSpec, EncodeStringSpec, DecodeLiteralSpec, Lookup, Insert, Resize;
    var data := Spell(rep) + rest;
    DropConcat(Spell(rep), rest, |Spell(rep)|);
    assert [] + rest == rest;
    match rep
    case IndexedField(i) =>
      IntegerRoundTrip(i, 7, 0x80, rest);
      FirstByteRange(i, 7, 0x80, rest);
    case LiteralField(m, n, value) =>
      TailOfSpelling(m, n, value, rest, t);
      var index := if n.FromTable? then n.index else 0;
      var i := EncodeIntegerSpec(index, ModePrefix(m), ModeFlag(m));
      FirstByteRange(index, ModePrefix(m), ModeFlag(m), data[|i|..]);
      assert data == i + data[|i|..];
    case SizeUpdate(n) =>
      IntegerRoundTrip(n, 5, 0x20, rest);
      FirstByteRange(n, 5, 0x20, rest);
  }

  /** Decoding the serialization of any list of representations is interpreting the list: the
      same headers or the same first error, and the same table. */
  lemma {:induction false} DecodingIsInterpreting(reps: seq<Rep>, t: Table)
    requires forall i :: 0 <= i < |reps| ==> WellFormed(reps[i])
    ensures DecodeBlock(SpellAll(reps), t) == InterpretAll(reps, t)
  {
    if reps != [] {
      StepOnSpelling(reps[0], SpellAll(reps[1..]), t);
      var b := Interpret(reps[0], t);
      if b.result.Ok? {
        DecodingIsInterpreting(reps[1..], b.table);
      }
    }
  }

  /** A name reference to an entry that its own insertion evicts still yields that entry's name. */
  lemma EvictedNameSurvives(t: Table, index: nat, value: Data)
    requires STATIC_COUNT < index <= STATIC_COUNT + |t.entries| && index < TWO_64
    requires |EncodeStringSpec(value)| < TWO_63
    ensures var name := t.entries[index - STATIC_COUNT - 1].name;
            var b := DecodeBlock(Spell(LiteralField(Incremental, FromTable(index), value)), t);
            b == Block(Ok([Header(name, value)]), Insert(t, NewEntry(name, value)))
    ensures 32 + |t.entries[index - STATIC_COUNT - 1].name| + |value| > t.maxSize ==>
            DecodeBlock(Spell(LiteralField(Incremental, FromTable(index), value)), t).table.entries == []
  {
    var rep := LiteralField(Incremental, FromTable(index), value);
    var name := t.entries[index - STATIC_COUNT - 1].name;
    assert SpellAll([rep]) == Spell(rep) by { assert Spell(rep) + [] == Spell(rep); }
    DecodingIsInterpreting([rep], t);
    assert [Header(name, value)] + [] == [Header(name, value)];
    OversizedInsertEmpties(t, NewEntry(name, value));
  }

  // ---- every accepted block is a list of representations -----------------------------------------------

  function NameOf(data: Data, nameIndex: nat): NameRef
    requires nameIndex == 0 ==> DecodeStringSpec(data).Ok?
  {
    if nameIndex == 0 then Literally(DecodeStringSpec(data).value.item) else FromTable(nameIndex)
  }

  lemma StringLength(s: Data)
    requires |s| < TWO_63 - 16
    ensures |EncodeStringSpec(s)| < TWO_63
  {
    IntegerLength(|s|, 7, 0);
  }

  lemma LiteralHasMeaning(data: Data, m: Mode, t: Table) returns (rep: Rep)
    requires |data| < TWO_63 - 16 && DecodeLiteralSpec(data, ModePrefix(m), t).Ok?
    ensures WellFormed(rep) && rep.LiteralField? && rep.mode == m
    ensures var h := DecodeLiteralSpec(data, ModePrefix(m), t).value.item;
            ResolveName(rep.name, t) == Ok(h.name) && rep.value == h.value
  {
    var Ok(Parsed(nameIndex, pos)) := DecodeIntegerSpec(data, ModePrefix(m));
    var rest := data[pos..];
    var Ok(Parsed(name, used)) := LiteralName(rest, nameIndex, t);
    var Ok(Parsed(value, _)) := DecodeStringSpec(rest[used..]);
    StringLength(value);
    StringLengthOfName(rest, nameIndex, t);
    rep := LiteralField(m, NameOf(rest, nameIndex), value);
  }

  lemma StringLengthOfName(rest: Data, nameIndex: nat, t: Table)
    requires |rest| < TWO_63 - 16 && LiteralName(rest, nameIndex, t).Ok?
    ensures nameIndex == 0 ==> |EncodeStringSpec(DecodeStringSpec(rest).value.item)| < TWO_63
  {
    if nameIndex == 0 {
      StringLength(DecodeStringSpec(rest).value.item);
    }
  }

  lemma StepHasMeaning(data: Data, t: Table) returns (rep: Rep)
    requires 0 < |data| < TWO_63 - 16 && DecodeStep(data, t).result.Ok?
    ensures WellFormed(rep)
    ensures var s := DecodeStep(data, t);
            Interpret(rep, t) == Block(Ok(Emitted(s.result.value.item)), s.table)
  {
    var first := data[0];
    if first >= 128 {
      rep := IndexedField(DecodeIntegerSpec(data, 7).value.item);
    } else if first >= 64 {
      rep := LiteralHasMeaning(data, Incremental, t);
    } else if first >= 32 {
      rep := SizeUpdate(DecodeIntegerSpec(data, 5).value.item);
    } else {
      rep := LiteralHasMeaning(data, if first >= 16 then NeverIndexed else WithoutIndexing, t);
    }
  }

  /** Whatever the decoder accepts has a meaning: some well-formed list of representations whose
      interpretation, and the decoding of whose serialization, is the same block. */
  lemma {:induction false} AcceptedHasMeaning(data: Data, t: Table) returns (reps: seq<Rep>)
    requires |data| < TWO_63 - 16 && DecodeBlock(data, t).result.Ok?
    ensures forall i :: 0 <= i < |reps| ==> WellFormed(reps[i])
    ensures InterpretAll(reps, t) == DecodeBlock(data, t)
    ensures DecodeBlock(SpellAll(reps), t) == DecodeBlock(data, t)
    decreases |data|
  {
    if data == [] {
      reps := [];
    } else {
      var s := DecodeStep(data, t);
      var rep := StepHasMeaning(data, t);
      var rest := AcceptedHasMeaning(data[s.result.value.consumed..], s.table);
      reps := [rep] + rest;
      assert reps[1..] == rest;
    }
    DecodingIsInterpreting(reps, t);
  }
}
