/**
  What HPACK blocks say, byte by byte as sections 5 and 6 of RFC 7541 lay them out and without the
  codec's own helpers: the number any integer encoding stands for, the bytes the encoder writes,
  and what each kind of representation does to a dynamic table.
*/
module HpackWire {
  import opened Bytes
  import opened HpackInteger
  import opened HpackTable
  import opened HpackStatic
  import opened HpackDecoder
  import opened HpackMeaning
  import opened HpackEncoder

  // ---- integers -----------------------------------------------------------------------------------------

  /** The low seven bits of a byte. */
  function SevenBits(b: byte): nat { b % 128 }

  /** The sum of seven-bit groups, least significant first, each shifted as the machine shifts:
      by its position times seven, modulo 64. */
  function GroupSum(groups: Data, m: nat): nat
  {
    if groups == [] then 0 else Shl(SevenBits(groups[0]), m % 64) + GroupSum(groups[1..], m + 7)
  }

  /** All bytes but the last have their top bit set. */
  predicate OneInteger(groups: Data)
  {
    groups != [] && groups[|groups| - 1] < 128 && forall i :: 0 <= i < |groups| - 1 ==> groups[i] >= 128
  }

  lemma WrapOnce(a: nat, b: nat)
    ensures Wrap64(Wrap64(a) + Wrap64(b)) == (a + b) % TWO_64
  {
    hide Wrap64;
    WrapIsRemainder(a);
    WrapIsRemainder(b);
    WrapIsRemainder(Wrap64(a) + Wrap64(b));
    RemaindersAdd(a, b);
  }

  lemma WrapIsRemainder(a: nat)
    ensures Wrap64(a) == a % TWO_64
  {
  }

  lemma RemaindersAdd(a: nat, b: nat)
    ensures (a % TWO_64 + b % TWO_64) % TWO_64 == (a + b) % TWO_64
  {
    SumOfRemainder(a, b % TWO_64);
    SumOfRemainder(b, a);
  }

  /** One turn of the continuation loop, modulo 2^64. */
  lemma OneGroup(data: Data, pos: nat, m: nat, value: nat)
    requires pos < |data| && value < TWO_64
    ensures var v := (value + Shl(SevenBits(data[pos]), m % 64)) % TWO_64;
            ContinueInteger(data, pos, m, value)
            == if data[pos] < 128 then Ok(Parsed(v, pos + 1)) else ContinueInteger(data, pos + 1, m + 7, v)
  {
    hide Shl, Wrap64;
    assert LowBits(data[pos], 7) == SevenBits(data[pos]) && ShiftCount(m) == m % 64;
    WrapOnce(value, Shl(SevenBits(data[pos]), m % 64));
    WrapSmall(value);
  }

  lemma WrapSmall(v: nat)
    requires v < TWO_64
    ensures Wrap64(v) == v
  {
  }

  lemma {:induction false} ContinuesToSum(pre: Data, groups: Data, rest: Data, m: nat, value: nat)
    requires OneInteger(groups) && value < TWO_64
    ensures ContinueInteger(pre + groups + rest, |pre|, m, value)
         == Ok(Parsed((value + GroupSum(groups, m)) % TWO_64, |pre| + |groups|))
    decreases |groups|
  {
    hide Shl, ContinueInteger, SevenBits;
    var data, b := pre + groups + rest, groups[0];
    assert data[|pre|] == b;
    OneGroup(data, |pre|, m, value);
    var added := Shl(SevenBits(b), m % 64);
    var v := (value + added) % TWO_64;
    var others := GroupSum(groups[1..], m + 7);
    SumOfRemainder(value + added, others);
    if |groups| > 1 {
      assert data == (pre + [b]) + groups[1..] + rest;
      ContinuesToSum(pre + [b], groups[1..], rest, m + 7, v);
    } else {
      assert groups[1..] == [];
    }
  }

  lemma SumOfRemainder(a: nat, b: nat)
    ensures (a % TWO_64 + b) % TWO_64 == (a + b) % TWO_64
  {
    var q := a / TWO_64;
    assert a == q * TWO_64 + a % TWO_64;
  }

  lemma PrefixAlone(first: byte, prefix: nat, rest: Data)
    requires 4 <= prefix <= 7 && LowBits(first, prefix) < Span(prefix) - 1
    ensures DecodeIntegerSpec([first] + rest, prefix) == Ok(Parsed(LowBits(first, prefix), 1))
  {
    hide LowBits, Span;
    assert ([first] + rest)[0] == first;
  }

  lemma PrefixAndGroups(first: byte, prefix: nat, groups: Data, rest: Data)
    requires 4 <= prefix <= 7 && LowBits(first, prefix) == Span(prefix) - 1 && OneInteger(groups)
    ensures DecodeIntegerSpec([first] + groups + rest, prefix)
         == Ok(Parsed((Span(prefix) - 1 + GroupSum(groups, 0)) % TWO_64, 1 + |groups|))
  {
    hide LowBits, Span, GroupSum, OneInteger, ContinueInteger;
    ContinuesToSum([first], groups, rest, 0, Span(prefix) - 1);
    assert ([first] + groups + rest)[0] == first;
  }

  /** The number of any integer encoding, canonical or not, overflowing or not: the prefix alone if
      it is not all ones, else that plus the sum of the groups, modulo 2^64. */
  lemma IntegerStandsFor(first: byte, prefix: nat, groups: Data, rest: Data)
    requires 4 <= prefix <= 7 && OneInteger(groups)
    ensures var ones := if prefix == 4 then 15 else if prefix == 5 then 31 else if prefix == 6 then 63 else 127;
            var low := first % (ones + 1);
            && (low < ones ==> DecodeIntegerSpec([first] + rest, prefix) == Ok(Parsed(low, 1)))
            && (low == ones ==>
                  DecodeIntegerSpec([first] + groups + rest, prefix)
                  == Ok(Parsed((ones + GroupSum(groups, 0)) % TWO_64, 1 + |groups|)))
  {
    LowBitsAreRemainder(first, prefix);
    hide LowBits, GroupSum, OneInteger, DecodeIntegerSpec;
    if LowBits(first, prefix) < Span(prefix) - 1 {
      PrefixAlone(first, prefix, rest);
    } else {
      PrefixAndGroups(first, prefix, groups, rest);
    }
  }

  lemma LowBitsAreRemainder(b: byte, prefix: nat)
    requires 4 <= prefix <= 7
    ensures LowBits(b, prefix) == b % Span(prefix)
  {
  }

  lemma {:induction false} RestIsOneInteger(v: nat)
    ensures OneInteger(EncodeRest(v))
  {
    if v >= 128 {
      RestIsOneInteger(v / 128);
    }
  }

  /** What the encoder writes for an integer: flags plus the value, or flags plus all ones and then
      one run of groups. */
  lemma PrintedInteger(value: nat, prefix: nat, first: byte)
    requires FlagByte(first, prefix)
    ensures var ones := if prefix == 4 then 15 else if prefix == 5 then 31 else if prefix == 6 then 63 else 127;
            var e := EncodeIntegerSpec(value, prefix, first);
            && (value < ones ==> e == [first + value])
            && (value >= ones ==> e[0] == first + ones && OneInteger(e[1..]))
  {
    if value >= Span(prefix) - 1 {
      RestIsOneInteger(value - (Span(prefix) - 1));
      var rest := EncodeRest(value - (Span(prefix) - 1));
      assert EncodeIntegerSpec(value, prefix, first)[1..] == rest;
    }
  }

  // ---- strings and headers ----------------------------------------------------------------------------------

  /** A string is written raw: the Huffman bit is 0, and behind the length stand the very bytes. */
  lemma PrintedString(s: Data)
    ensures var e := EncodeStringSpec(s);
            && e[0] < 128 && |e| > |s| && e[|e| - |s|..] == s
            && e[..|e| - |s|] == EncodeIntegerSpec(|s|, 7, 0)
            && (|s| < 127 ==> e == [|s| as byte] + s)
  {
    PrintedInteger(|s|, 7, 0);
  }

  /** The decoder takes a string with the Huffman bit set for raw bytes as well. */
  lemma HuffmanBitIgnored(s: Data, rest: Data)
    requires |EncodeStringSpec(s)| < TWO_63
    ensures var coded := EncodeIntegerSpec(|s|, 7, 0x80) + s;
            coded[0] >= 128 && DecodeStringSpec(coded + rest) == Ok(Parsed(s, |coded|))
  {
    SameLength(|s|);
    var e := EncodeIntegerSpec(|s|, 7, 0x80);
    PrintedInteger(|s|, 7, 0x80);
    IntegerRoundTrip(|s|, 7, 0x80, s + rest);
    hide EncodeIntegerSpec, DecodeIntegerSpec, DecodeStringSpec;
    StringBehind(e, s, rest);
  }

  lemma StringBehind(e: Data, s: Data, rest: Data)
    requires e != [] && |e| + |s| < TWO_64
    requires DecodeIntegerSpec(e + (s + rest), 7) == Ok(Parsed(|s|, |e|))
    ensures DecodeStringSpec(e + s + rest) == Ok(Parsed(s, |e + s|))
  {
    hide DecodeIntegerSpec;
    assert e + s + rest == e + (s + rest);
    assert (e + (s + rest))[|e|..|e| + |s|] == s;
  }

  lemma SameLength(v: nat)
    ensures |EncodeIntegerSpec(v, 7, 0x80)| == |EncodeIntegerSpec(v, 7, 0)|
  {
  }

  lemma OneHeader(h: Header)
    ensures EncodeBlock([h]) == Spell(RepFor(h))
  {
    hide RepFor, Spell;
    BlockCons([h]);
    EncodeNothing(EmptyTable(0));
    assert [h][1..] == [];
  }

  /** The bytes of one encoded header whose strings are shorter than 127 bytes: 0x80 plus an index;
      or 0x40 plus the index of a name, then length and value; or 0x40, then both strings. */
  lemma PrintedHeader(h: Header)
    requires |h.name| < 127 && |h.value| < 127
    ensures var e, value := EncodeBlock([h]), [|h.value| as byte] + h.value;
            match FindFrom(h.name, h.value, 1)
            case Some(Match(i, true)) => i <= 61 && e == [0x80 + i as byte]
            case Some(Match(i, false)) => i <= 61 && e == [0x40 + i as byte] + value
            case None => e == [0x40] + [|h.name| as byte] + h.name + value
  {
    hide FindFrom, EncodeBlock, EncodeIntegerSpec, EncodeStringSpec;
    OneHeader(h);
    PrintedString(h.value);
    match FindFrom(h.name, h.value, 1)
    case Some(Match(i, true)) => PrintedInteger(i, 7, 0x80);
    case Some(Match(i, false)) => PrintedInteger(i, 6, 0x40);
    case None => SpelledNewName(h.name, h.value);
  }

  lemma SpelledNewName(name: Data, value: Data)
    requires |name| < 127 && |value| < 127
    ensures Spell(LiteralField(Incremental, Literally(name), value))
         == [0x40] + [|name| as byte] + name + ([|value| as byte] + value)
  {
    hide EncodeIntegerSpec, EncodeStringSpec;
    PrintedString(name);
    PrintedString(value);
    PrintedInteger(0, 6, 0x40);
    assert [0x40] + ([|name| as byte] + name) == [0x40] + [|name| as byte] + name;
  }

  /** Whatever the lengths, a literal ends with its value, raw, behind a length whose Huffman bit is 0. */
  lemma PrintedValueIsRaw(h: Header)
    requires RepFor(h).LiteralField?
    ensures var e := EncodeBlock([h]);
            exists front: Data ::
              && e == front + EncodeIntegerSpec(|h.value|, 7, 0) + h.value
              && EncodeIntegerSpec(|h.value|, 7, 0)[0] < 128 && 0x40 <= e[0] < 0x80
  {
    OneHeader(h);
    var front := SpellName(Incremental, RepFor(h).name);
    PrintedString(h.value);
    FirstOfName(RepFor(h).name);
    hide EncodeIntegerSpec, SpellName;
    assert front + (EncodeIntegerSpec(|h.value|, 7, 0) + h.value)
        == front + EncodeIntegerSpec(|h.value|, 7, 0) + h.value;
  }

  lemma FirstOfName(n: NameRef)
    ensures |SpellName(Incremental, n)| > 0 && 0x40 <= SpellName(Incremental, n)[0] < 0x80
  {
    PrintedInteger(if n.FromTable? then n.index else 0, 6, 0x40);
  }

  // ---- representations ------------------------------------------------------------------------------------

  lemma OneRepresentation(rep: Rep, t: Table)
    requires WellFormed(rep)
    ensures DecodeBlock(Spell(rep), t) == Interpret(rep, t)
  {
    hide Spell, Interpret, WellFormed;
    DecodingIsInterpreting([rep], t);
    assert Spell(rep) + [] == Spell(rep);
    assert SpellAll([rep]) == Spell(rep) by {
      assert [rep][1..] == [];
    }
    var b := Interpret(rep, t);
    assert [rep][1..] == [];
    if b.result.Ok? {
      assert b.result.value + [] == b.result.value;
    }
  }

  /** An index: 0 is an error, 1 to 61 a static entry, then the dynamic table, newest first, name and
      value of the same entry; beyond it an error.  Nothing is inserted. */
  lemma IndexedMeans(i: nat, t: Table)
    requires i < TWO_64
    ensures var b, n := DecodeBlock(Spell(IndexedField(i)), t), |t.entries|;
            && b.table == t
            && (i == 0 ==> b.result == Err(InvalidIndexZero))
            && (1 <= i <= 61 ==> b.result == Ok([StaticEntry(i)]))
            && (62 <= i < 62 + n ==> b.result == Ok([Header(t.entries[i - 62].name, t.entries[i - 62].value)]))
            && (i >= 62 + n ==> b.result == Err(InvalidDynamicIndex(i - 62)))
  {
    hide Spell, StaticEntry;
    OneRepresentation(IndexedField(i), t);
  }

  /** A literal with its own name, in each of the three modes: only the incremental one inserts, and
      what it inserts counts 32 bytes more than its name and value. */
  lemma LiteralMeans(m: Mode, name: Data, value: Data, t: Table)
    requires |EncodeStringSpec(name)| < TWO_63 && |EncodeStringSpec(value)| < TWO_63
    ensures var inserted := Fit([Entry(name, value, 32 + |name| + |value|)] + t.entries, t.maxSize);
            DecodeBlock(Spell(LiteralField(m, Literally(name), value)), t)
            == Block(Ok([Header(name, value)]), if m == Incremental then Table(inserted, t.maxSize) else t)
  {
    hide Spell, EncodeStringSpec, Fit, DecodeBlock;
    OneRepresentation(LiteralField(m, Literally(name), value), t);
  }

  /** A literal with the name of an indexed entry, static or dynamic. */
  lemma NamedLiteralMeans(m: Mode, i: nat, value: Data, t: Table)
    requires 1 <= i < TWO_64 && |EncodeStringSpec(value)| < TWO_63
    ensures var b := DecodeBlock(Spell(LiteralField(m, FromTable(i), value)), t);
            if i >= 62 + |t.entries| then b == Block(Err(InvalidDynamicIndex(i - 62)), t)
            else
              var name := if i <= 61 then StaticEntry(i).name else t.entries[i - 62].name;
              var inserted := Fit([Entry(name, value, 32 + |name| + |value|)] + t.entries, t.maxSize);
              b == Block(Ok([Header(name, value)]), if m == Incremental then Table(inserted, t.maxSize) else t)
  {
    hide Spell, EncodeStringSpec, Fit, StaticEntry, DecodeBlock;
    OneRepresentation(LiteralField(m, FromTable(i), value), t);
  }

  /** A size update emits nothing and keeps the longest prefix that fits the new limit. */
  lemma SizeUpdateMeans(n: nat, t: Table)
    requires n < TWO_64
    ensures DecodeBlock(Spell(SizeUpdate(n)), t) == Block(Ok([]), Table(Fit(t.entries, n), n))
  {
    hide Spell, Fit;
    OneRepresentation(SizeUpdate(n), t);
  }

  /** The first byte tells the representation: 1xxxxxxx an index, 01 a literal that is inserted,
      001 a size update, 0000 and 0001 literals that are not. */
  lemma FirstByteTells(rep: Rep)
    ensures var b := Spell(rep)[0];
            match rep
            case IndexedField(_) => b >= 128
            case LiteralField(Incremental, _, _) => 64 <= b < 128
            case SizeUpdate(_) => 32 <= b < 64
            case LiteralField(NeverIndexed, _, _) => 16 <= b < 32
            case LiteralField(WithoutIndexing, _, _) => b < 16
  {
    match rep
    case IndexedField(i) => FirstByteRange(i, 7, 0x80, []);
    case SizeUpdate(n) => FirstByteRange(n, 5, 0x20, []);
    case LiteralField(m, n, value) =>
      FirstByteRange(if n.FromTable? then n.index else 0, ModePrefix(m), ModeFlag(m), []);
  }

  // ---- an inserted header, sent again by its index -------------------------------------------------------------

  /** The headers of a list that are inserted, oldest first. */
  function InsertedHeaders(hs: seq<Header>): (inserted: seq<Header>)
    ensures |inserted| == |Insertions(hs)|
  {
    if hs == [] then []
    else (if RepFor(hs[0]).IndexedField? then [] else [hs[0]]) + InsertedHeaders(hs[1..])
  }

  lemma {:induction false} InsertionsAreHeaders(hs: seq<Header>)
    ensures forall i :: 0 <= i < |Insertions(hs)| ==>
              && Insertions(hs)[i].name == InsertedHeaders(hs)[i].name
              && Insertions(hs)[i].value == InsertedHeaders(hs)[i].value
  {
    hide RepFor;
    if hs != [] {
      InsertionsAreHeaders(hs[1..]);
    }
  }

  lemma NewestFitting(hs: seq<Header>, size: nat, k: nat)
    ensures var kept, inserted := Fit(Reversed(Insertions(hs)), size), InsertedHeaders(hs);
            && (k < |kept| <==> k < |inserted| && Total(Reversed(Insertions(hs))[..k + 1]) <= size)
            && (k < |kept| ==>
                  Header(kept[k].name, kept[k].value) == inserted[|inserted| - 1 - k])
  {
    hide Fit, Total, Insertions, InsertedHeaders;
    InsertionsAreHeaders(hs);
    var history := Reversed(Insertions(hs));
    if k < |history| {
      FitIsLongest(history, size, k + 1);
    }
  }

  lemma AfterBlock(hs: seq<Header>, size: nat)
    requires Encodable(hs)
    ensures DecodeBlock(EncodeBlock(hs), EmptyTable(size)).table.entries == Fit(Reversed(Insertions(hs)), size)
  {
    hide EncodeBlock, DecodeBlock, Fit, Insertions, InsertAll;
    BlockRoundTrip(hs, EmptyTable(size));
    EvictionIsExact(size, Insertions(hs));
  }

  /** After any header list was decoded by a fresh decoder of any size, the k-th newest of the
      headers that were inserted, as long as it still fits, comes back whole from the one index
      62 + k. */
  lemma InsertedComesBack(hs: seq<Header>, size: nat, k: nat)
    requires Encodable(hs) && k + 62 < TWO_64
    ensures var t := DecodeBlock(EncodeBlock(hs), EmptyTable(size)).table;
            var inserted := InsertedHeaders(hs);
            && (k < |t.entries| <==> k < |inserted| && Total(Reversed(Insertions(hs))[..k + 1]) <= size)
            && (k < |t.entries| ==>
                  DecodeBlock(Spell(IndexedField(62 + k)), t) == Block(Ok([inserted[|inserted| - 1 - k]]), t))
  {
    hide Spell, EncodeBlock, DecodeBlock, Fit, Total, Insertions, InsertedHeaders;
    AfterBlock(hs, size);
    NewestFitting(hs, size, k);
    IndexedMeans(62 + k, DecodeBlock(EncodeBlock(hs), EmptyTable(size)).table);
  }
}
