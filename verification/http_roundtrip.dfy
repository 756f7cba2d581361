/**
  A printer of HTTP/1.1 requests as the meaning of the parser: what the parser returns for a
  printed request is the request, exactly when its announced length is the length of its body.
*/
module HttpRoundTrip {
  import opened Bytes
  import opened HpackStatic
  import opened HttpParser

  /** A header field, with the blanks written behind its colon and behind its value. */
  datatype Field = Field(name: Data, value: Data, gap: Data, tail: Data)

  predicate NoLineBreak(d: Data) { CR !in d && LF !in d }

  /** A word of the request line. */
  predicate Word(d: Data) { d != [] && Ascii(d) && forall i :: 0 <= i < |d| ==> !IsSpace(d[i]) }

  /** Spaces and tabs. */
  predicate Blank(d: Data) { forall i :: 0 <= i < |d| ==> d[i] == 32 || d[i] == 9 }

  /** A header field as it may stand on a line: no colon in the name, no white space around name and
      value but the blanks, which may be missing. */
  predicate GoodField(f: Field)
  {
    && Ascii(f.name) && Ascii(f.value) && NoLineBreak(f.name) && NoLineBreak(f.value)
    && COLON !in f.name && Trim(f.name) == f.name && Trim(f.value) == f.value
    && Blank(f.gap) && Blank(f.tail)
  }

  function FieldLine(f: Field): (d: Data)
    ensures d != []
  {
    f.name + [COLON] + (f.gap + f.value + f.tail)
  }

  function RequestLine(m: Data, p: Data, v: Data): Data { m + [32] + p + [32] + v }

  /** Lines with a line end after each. */
  function PrintLines(lines: seq<Data>): Data
  {
    if lines == [] then [] else lines[0] + LINE_END + PrintLines(lines[1..])
  }

  function FieldLines(fs: seq<Field>): (lines: seq<Data>)
    ensures |lines| == |fs| && forall i :: 0 <= i < |fs| ==> lines[i] == FieldLine(fs[i])
  {
    if fs == [] then [] else FieldLines(fs[..|fs| - 1]) + [FieldLine(fs[|fs| - 1])]
  }

  /** Names in lower case; a later field replaces an earlier one. */
  function FieldMap(fs: seq<Field>): map<Data, Data>
  {
    if fs == [] then map[] else FieldMap(fs[..|fs| - 1])[Lower(fs[|fs| - 1].name) := fs[|fs| - 1].value]
  }

  function Print(m: Data, p: Data, v: Data, fs: seq<Field>, body: Data): Data
  {
    PrintLines([RequestLine(m, p, v)] + FieldLines(fs)) + LINE_END + body
  }

  // ---- searching -----------------------------------------------------------------------------------

  function Shifted(r: Option<nat>, n: nat): Option<nat>
  {
    if r.Some? then Some(n + r.value) else None
  }

  lemma FindStep(d: Data, pattern: Data, from: nat)
    requires pattern != []
    ensures Find(d, pattern, from)
         == if from + |pattern| > |d| then None
            else if FoundAt(d, pattern, from) then Some(from)
            else Find(d, pattern, from + 1)
  {
  }

  /** Nothing found at the first `skip` places: the search may start behind them. */
  lemma {:induction false} FindSkips(d: Data, pattern: Data, from: nat, skip: nat)
    requires from <= skip && skip + |pattern| <= |d| && pattern != []
    requires forall i :: from <= i < skip ==> !FoundAt(d, pattern, i)
    ensures Find(d, pattern, from) == Find(d, pattern, skip)
    decreases skip - from
  {
    hide Find, FoundAt;
    if from < skip {
      FindStep(d, pattern, from);
      FindSkips(d, pattern, from + 1, skip);
    }
  }

  lemma FoundShifted(a: Data, d: Data, pattern: Data, i: nat)
    ensures FoundAt(a + d, pattern, |a| + i) == FoundAt(d, pattern, i)
  {
    if i + |pattern| <= |d| {
      assert (a + d)[|a| + i..|a| + i + |pattern|] == d[i..i + |pattern|];
    }
  }

  lemma {:induction false} FindShifted(a: Data, d: Data, pattern: Data, from: nat)
    requires pattern != []
    ensures Find(a + d, pattern, |a| + from)
         == Shifted(Find(d, pattern, from), |a|)
    decreases |d| - from
  {
    hide Find, FoundAt;
    FoundShifted(a, d, pattern, from);
    FindStep(a + d, pattern, |a| + from);
    FindStep(d, pattern, from);
    if from + |pattern| <= |d| {
      FindShifted(a, d, pattern, from + 1);
    }
  }

  lemma {:induction false} FindByte(a: Data, b: byte, d: Data, from: nat)
    requires b !in a && from <= |a|
    ensures Find(a + [b] + d, [b], from) == Some(|a|)
    decreases |a| - from
  {
    var all := a + [b] + d;
    assert all[from..from + 1] == [all[from]];
    if from < |a| {
      assert all[from] == a[from];
      FindByte(a, b, d, from + 1);
    }
  }

  lemma {:induction false} FindNoByte(a: Data, b: byte, from: nat)
    requires b !in a
    ensures Find(a, [b], from).None?
    decreases |a| - from
  {
    if from < |a| {
      assert a[from..from + 1] == [a[from]];
      FindNoByte(a, b, from + 1);
    }
  }

  // ---- lines ------------------------------------------------------------------------------------------

  predicate GoodLine(d: Data) { d != [] && NoLineBreak(d) }

  predicate GoodLines(ls: seq<Data>) { ls != [] && forall i :: 0 <= i < |ls| ==> GoodLine(ls[i]) }

  /** The lines with a line end between them. */
  function Joined(ls: seq<Data>): (d: Data)
    requires GoodLines(ls)
    ensures |d| >= 1 && d[0] == ls[0][0]
  {
    if |ls| == 1 then ls[0] else ls[0] + LINE_END + Joined(ls[1..])
  }

  lemma {:induction false} PrintIsJoined(ls: seq<Data>)
    requires GoodLines(ls)
    ensures PrintLines(ls) == Joined(ls) + LINE_END
  {
    if |ls| == 1 {
      assert ls[1..] == [] && ls[0] + LINE_END + [] == ls[0] + LINE_END;
    } else {
      PrintIsJoined(ls[1..]);
      assert ls[0] + LINE_END + (Joined(ls[1..]) + LINE_END) == ls[0] + LINE_END + Joined(ls[1..]) + LINE_END;
    }
  }

  /** The empty line is found right behind the last line. */
  lemma {:induction false} HeadEnds(ls: seq<Data>, body: Data)
    requires GoodLines(ls)
    ensures Find(Joined(ls) + HEAD_END + body, HEAD_END, 0) == Some(|Joined(ls)|)
  {
    hide Find;
    if |ls| == 1 {
      HeadEndsHere(ls[0], body);
    } else {
      HeadEnds(ls[1..], body);
      var rest := Joined(ls[1..]) + HEAD_END + body;
      assert Joined(ls) + HEAD_END + body == ls[0] + (LINE_END + rest);
      HeadEndsLater(ls[0], rest);
    }
  }

  lemma HeadEndsHere(line: Data, body: Data)
    requires CR !in line
    ensures Find(line + HEAD_END + body, HEAD_END, 0) == Some(|line|)
  {
    hide Find, FoundAt;
    assert line + HEAD_END + body == line + (HEAD_END + body);
    NotWithin(line, HEAD_END + body, HEAD_END);
    FindSkips(line + (HEAD_END + body), HEAD_END, 0, |line|);
    FindHere(line, HEAD_END, body);
  }

  lemma HeadEndsLater(line: Data, rest: Data)
    requires CR !in line && |rest| >= 4 && rest[0] != CR
    ensures Find(line + (LINE_END + rest), HEAD_END, 0)
         == Shifted(Find(rest, HEAD_END, 0), |line| + 2)
  {
    hide Find, FoundAt;
    Regrouped(line, LINE_END, rest);
    NotOnLine(line, rest, line + (LINE_END + rest));
    FindBehind(line + LINE_END, rest, HEAD_END);
  }

  lemma FindBehind(front: Data, rest: Data, pattern: Data)
    requires 0 < |pattern| <= |rest|
    requires forall i :: 0 <= i < |front| ==> !FoundAt(front + rest, pattern, i)
    ensures Find(front + rest, pattern, 0)
         == Shifted(Find(rest, pattern, 0), |front|)
  {
    hide Find, FoundAt;
    var d := front + rest;
    assert |d| == |front| + |rest|;
    FindSkips(d, pattern, 0, |front|);
    FindShifted(front, rest, pattern, 0);
    assert |front| + 0 == |front|;
  }

  lemma Regrouped(a: Data, b: Data, c: Data)
    ensures a + (b + c) == a + b + c
  {
  }

  lemma NotOnLine(line: Data, rest: Data, d: Data)
    requires CR !in line && |rest| >= 4 && rest[0] != CR && d == line + (LINE_END + rest)
    ensures |d| == |line| + 2 + |rest|
    ensures forall i :: 0 <= i < |line| + 2 ==> !FoundAt(d, HEAD_END, i)
  {
    hide FoundAt;
    NotWithin(line, LINE_END + rest, HEAD_END);
    NotAcross(line, rest);
  }

  lemma NotWithin(line: Data, rest: Data, pattern: Data)
    requires CR !in line && |pattern| > 0 && pattern[0] == CR
    ensures forall i :: 0 <= i < |line| ==> !FoundAt(line + rest, pattern, i)
  {
    forall i | 0 <= i < |line|
      ensures !FoundAt(line + rest, pattern, i)
    {
      if i + |pattern| <= |line + rest| {
        assert (line + rest)[i..i + |pattern|][0] == line[i];
      }
    }
  }

  /** A line end followed by another character than CR is no empty line. */
  lemma NotAcross(line: Data, rest: Data)
    requires |rest| >= 4 && rest[0] != CR
    ensures !FoundAt(line + (LINE_END + rest), HEAD_END, |line|)
    ensures !FoundAt(line + (LINE_END + rest), HEAD_END, |line| + 1)
  {
    var d := line + (LINE_END + rest);
    assert d[|line|..|line| + 4][2] == rest[0];
    assert d[|line| + 1..|line| + 5][0] == LF;
  }

  lemma FindHere(a: Data, pattern: Data, b: Data)
    requires pattern != []
    ensures Find(a + (pattern + b), pattern, |a|) == Some(|a|)
  {
    assert (a + (pattern + b))[|a|..|a| + |pattern|] == pattern;
  }

  lemma FirstLineEnds(ls: seq<Data>)
    requires GoodLines(ls) && |ls| > 1
    ensures Find(Joined(ls), LINE_END, 0) == Some(|ls[0]|)
    ensures Joined(ls)[..|ls[0]|] == ls[0] && Joined(ls)[|ls[0]| + 2..] == Joined(ls[1..])
  {
    hide Find, FoundAt;
    var rest := Joined(ls[1..]);
    assert Joined(ls) == ls[0] + (LINE_END + rest);
    NotWithin(ls[0], LINE_END + rest, LINE_END);
    FindSkips(Joined(ls), LINE_END, 0, |ls[0]|);
    FindHere(ls[0], LINE_END, rest);
  }

  lemma {:induction false} LinesOfJoined(ls: seq<Data>)
    requires GoodLines(ls)
    ensures Lines(Joined(ls)) == ls
  {
    hide Find;
    var line := ls[0];
    if |ls| == 1 {
      FindNoByte(line, LF, 0);
      assert ls == [line];
    } else {
      var rest := Joined(ls[1..]);
      LinesOfJoined(ls[1..]);
      LinesCons(line, rest);
      assert ls == [line] + ls[1..];
    }
  }

  lemma LinesCons(line: Data, rest: Data)
    requires GoodLine(line)
    ensures Lines(line + LINE_END + rest) == [line] + Lines(rest)
  {
    hide Find, Lines;
    LineFeedAt(line, rest);
    TakeLine(line + LINE_END + rest, line, rest);
  }

  lemma TakeLine(d: Data, line: Data, rest: Data)
    requires Find(d, [LF], 0) == Some(|line| + 1) && |line| + 2 <= |d|
    requires d[|line|] == CR && d[..|line|] == line && d[|line| + 2..] == rest
    ensures Lines(d) == [line] + Lines(rest)
  {
    hide Find;
  }

  lemma LineFeedAt(line: Data, rest: Data)
    requires GoodLine(line)
    ensures var d := line + LINE_END + rest;
            && Find(d, [LF], 0) == Some(|line| + 1) && |line| + 2 <= |d|
            && d[|line|] == CR && d[..|line|] == line && d[|line| + 2..] == rest
  {
    hide Find;
    assert line + LINE_END + rest == line + [CR] + [LF] + rest;
    FindByte(line + [CR], LF, rest, 0);
  }

  // ---- words and fields -------------------------------------------------------------------------------

  lemma {:induction false} WordEnds(w: Data, rest: Data)
    requires forall i :: 0 <= i < |w| ==> !IsSpace(w[i])
    requires rest == [] || IsSpace(rest[0])
    ensures WordEnd(w + rest) == |w|
  {
    if w != [] {
      assert (w + rest)[1..] == w[1..] + rest;
      WordEnds(w[1..], rest);
    } else {
      assert w + rest == rest;
    }
  }

  lemma WordsCons(w: Data, rest: Data)
    requires Word(w)
    ensures Words(w) == [w]
    ensures Words(w + [32] + rest) == [w] + Words(rest)
  {
    WordEnds(w, []);
    assert w + [] == w && w[..|w|] == w && w[|w|..] == [];
    var d := w + [32] + rest;
    assert d == w + ([32] + rest);
    WordEnds(w, [32] + rest);
    assert d[..|w|] == w && d[|w|..] == [32] + rest && ([32] + rest)[1..] == rest;
    assert d[0] == w[0];
    assert Words([32] + rest) == Words(rest);
  }

  lemma WordsOfRequestLine(m: Data, p: Data, v: Data)
    requires Word(m) && Word(p) && Word(v)
    ensures Words(RequestLine(m, p, v)) == [m, p, v]
  {
    hide Words;
    assert RequestLine(m, p, v) == m + [32] + (p + [32] + v);
    WordsCons(m, p + [32] + v);
    WordsCons(p, v);
    WordsCons(v, []);
  }

  lemma {:induction false} TrimStartShrinks(d: Data)
    ensures |TrimStart(d)| <= |d| && (|TrimStart(d)| == |d| ==> TrimStart(d) == d)
  {
    if d != [] && IsSpace(d[0]) {
      TrimStartShrinks(d[1..]);
    }
  }

  lemma {:induction false} TrimEndShrinks(d: Data)
    ensures |TrimEnd(d)| <= |d|
  {
    if d != [] && IsSpace(d[|d| - 1]) {
      TrimEndShrinks(d[..|d| - 1]);
    }
  }

  lemma {:induction false} BlanksBefore(gap: Data, d: Data)
    requires Blank(gap)
    ensures TrimStart(gap + d) == TrimStart(d)
  {
    if gap == [] {
      assert gap + d == d;
    } else {
      assert (gap + d)[1..] == gap[1..] + d;
      BlanksBefore(gap[1..], d);
    }
  }

  lemma {:induction false} BlanksBehind(d: Data, tail: Data)
    requires Blank(tail)
    ensures TrimEnd(d + tail) == TrimEnd(d)
    decreases |tail|
  {
    if tail == [] {
      assert d + tail == d;
    } else {
      var n := |tail| - 1;
      assert (d + tail)[..|d| + n] == d + tail[..n];
      BlanksBehind(d, tail[..n]);
    }
  }

  /** The blanks around a value are trimmed away, and nothing else. */
  lemma BlanksAreTrimmed(gap: Data, v: Data, tail: Data)
    requires Blank(gap) && Blank(tail) && Trim(v) == v
    ensures Trim(gap + v + tail) == v
  {
    TrimStartShrinks(v);
    TrimEndShrinks(TrimStart(v));
    assert gap + v + tail == gap + (v + tail);
    BlanksBefore(gap, v + tail);
    if v == [] {
      assert v + tail == tail + [] && tail + [] == tail;
      BlanksBefore(tail, []);
    } else {
      assert TrimStart(v) == v;
      NoSpaceFirst(v);
      assert (v + tail)[0] == v[0];
      BlanksBehind(v, tail);
    }
  }

  lemma NoSpaceFirst(v: Data)
    requires v != [] && TrimStart(v) == v
    ensures !IsSpace(v[0])
  {
    if IsSpace(v[0]) {
      TrimStartShrinks(v[1..]);
    }
  }

  lemma FieldIsAdded(m: map<Data, Data>, f: Field)
    requires GoodField(f)
    ensures AddHeader(m, FieldLine(f)) == m[Lower(f.name) := f.value]
  {
    hide Find, Trim, Lower, Blank;
    var line, text := FieldLine(f), f.gap + f.value + f.tail;
    FindByte(f.name, COLON, text, 0);
    assert line[..|f.name|] == f.name && line[|f.name| + 1..] == text;
    BlanksAreTrimmed(f.gap, f.value, f.tail);
  }

  /** A line without a colon adds nothing. */
  lemma NoColonAddsNothing(m: map<Data, Data>, line: Data)
    requires COLON !in line
    ensures AddHeader(m, line) == m
  {
    FindNoByte(line, COLON, 0);
  }

  /** Names are folded letter by letter, the ASCII capitals only. */
  lemma LowerMeans(d: Data, i: nat)
    requires i < |d|
    ensures |Lower(d)| == |d|
    ensures Lower(d)[i] == if d[i] >= 65 && d[i] <= 90 then d[i] + 32 else d[i]
    ensures Lower(Text("Content-Length")) == Text("content-length")
  {
    LengthName();
  }

  /** White space: tab, line feed, vertical tab, form feed, carriage return and space. */
  lemma SpacesAre(b: byte)
    ensures IsSpace(b) <==> b in {9, 10, 11, 12, 13, 32}
  {
  }

  predicate GoodFields(fs: seq<Field>) { forall i :: 0 <= i < |fs| ==> GoodField(fs[i]) }

  lemma {:induction false} FieldsAreAdded(fs: seq<Field>)
    requires GoodFields(fs)
    ensures HeadersOf(FieldLines(fs)) == FieldMap(fs)
  {
    hide AddHeader, FieldLine, Lower, GoodField;
    if fs != [] {
      var n := |fs| - 1;
      FieldsAreAdded(fs[..n]);
      assert FieldLines(fs)[..n] == FieldLines(fs[..n]);
      FieldIsAdded(FieldMap(fs[..n]), fs[n]);
    }
  }

  // ---- the round trip -----------------------------------------------------------------------------------

  predicate Printable(m: Data, p: Data, v: Data, fs: seq<Field>, body: Data)
  {
    Word(m) && Word(p) && Word(v) && fs != [] && GoodFields(fs) && Ascii(body)
  }

  lemma GoodPrint(m: Data, p: Data, v: Data, fs: seq<Field>, body: Data)
    requires Printable(m, p, v, fs, body)
    ensures var ls := [RequestLine(m, p, v)] + FieldLines(fs);
            GoodLines(ls) && GoodLines(ls[1..]) && Print(m, p, v, fs, body) == Joined(ls) + HEAD_END + body
  {
    hide Joined, PrintLines;
    var ls := [RequestLine(m, p, v)] + FieldLines(fs);
    GoodRequestLine(m, p, v);
    forall i | 0 <= i < |ls|
      ensures GoodLine(ls[i])
    {
      if i > 0 {
        GoodFieldLine(fs[i - 1]);
      }
    }
    PrintIsJoined(ls);
    assert Joined(ls) + LINE_END + LINE_END + body == Joined(ls) + HEAD_END + body;
  }

  lemma GoodRequestLine(m: Data, p: Data, v: Data)
    requires Word(m) && Word(p) && Word(v)
    ensures GoodLine(RequestLine(m, p, v)) && Ascii(RequestLine(m, p, v))
  {
  }

  lemma GoodFieldLine(f: Field)
    requires GoodField(f)
    ensures GoodLine(FieldLine(f)) && Ascii(FieldLine(f))
  {
  }

  lemma {:induction false} AsciiLines(ls: seq<Data>)
    requires forall i :: 0 <= i < |ls| ==> Ascii(ls[i])
    ensures Ascii(PrintLines(ls))
  {
    if ls != [] {
      AsciiLines(ls[1..]);
    }
  }

  lemma PrintIsAscii(m: Data, p: Data, v: Data, fs: seq<Field>, body: Data)
    requires Printable(m, p, v, fs, body)
    ensures Ascii(Print(m, p, v, fs, body))
  {
    hide PrintLines, FieldLine, RequestLine, Word, GoodField;
    var ls := [RequestLine(m, p, v)] + FieldLines(fs);
    GoodRequestLine(m, p, v);
    forall i | 0 <= i < |ls|
      ensures Ascii(ls[i])
    {
      if i > 0 {
        GoodFieldLine(fs[i - 1]);
      }
    }
    AsciiLines(ls);
  }

  /** The head of a printed request is read back word by word and field by field. */
  lemma HeadRoundTrip(m: Data, p: Data, v: Data, fs: seq<Field>, body: Data)
    requires Printable(m, p, v, fs, body)
    ensures var buf := Print(m, p, v, fs, body);
            Find(buf, HEAD_END, 0) == Some(|buf| - |body| - 4)
            && HeadOf(buf[..|buf| - |body| - 4]) == Head(m, p, v, FieldMap(fs))
  {
    hide Joined, Find, Words, Lines, HeadersOf, GoodField, FieldLine, RequestLine, Print;
    var ls := [RequestLine(m, p, v)] + FieldLines(fs);
    GoodPrint(m, p, v, fs, body);
    HeadEnds(ls, body);
    FirstLineEnds(ls);
    LinesOfJoined(ls[1..]);
    assert ls[1..] == FieldLines(fs);
    WordsOfRequestLine(m, p, v);
    FieldsAreAdded(fs);
    assert (Joined(ls) + HEAD_END + body)[..|Joined(ls)|] == Joined(ls);
  }

  /** A printed request is parsed back to itself, leaving whatever follows, if and only if the
      length its fields announce is the length of its body. */
  lemma RequestRoundTripIff(m: Data, p: Data, v: Data, fs: seq<Field>, body: Data, rest: Data)
    requires Printable(m, p, v, fs, body) && Ascii(rest) && |Print(m, p, v, fs, body)| < TWO_64
    ensures var buf := Print(m, p, v, fs, body);
            Ascii(buf + rest)
            && (ParseSpec(buf + rest) == Complete(HttpRequest(m, p, v, FieldMap(fs), body), |buf|)
                <==> ContentLength(FieldMap(fs)) == |body|)
  {
    hide Print, HeadOf, Find, ContentLength, FieldMap, Printable;
    var buf := Print(m, p, v, fs, body);
    PrintIsAscii(m, p, v, fs, body);
    HeadRoundTrip(m, p, v, fs, body);
    HeadIsFixed(buf, rest);
    BodyOf(m, p, v, fs, body);
    assert (buf + rest)[|buf| - |body|..|buf|] == buf[|buf| - |body|..];
  }

  lemma BodyOf(m: Data, p: Data, v: Data, fs: seq<Field>, body: Data)
    ensures var buf := Print(m, p, v, fs, body);
            |buf| >= |body| && buf[|buf| - |body|..] == body
  {
    hide PrintLines;
  }

  // ---- other spellings -------------------------------------------------------------------------------------

  predicate AllSpace(d: Data) { forall i :: 0 <= i < |d| ==> IsSpace(d[i]) }

  predicate AllWords(ws: seq<Data>) { forall i :: 0 <= i < |ws| ==> Word(ws[i]) }

  /** Words with white space before each and behind the last; none may be missing in between. */
  function Spaced(ws: seq<Data>, gaps: seq<Data>, tail: Data): Data
    requires |gaps| == |ws|
  {
    if ws == [] then tail else gaps[0] + (ws[0] + Spaced(ws[1..], gaps[1..], tail))
  }

  lemma {:induction false} WordsSkip(gap: Data, d: Data)
    requires AllSpace(gap)
    ensures Words(gap + d) == Words(d)
  {
    if gap == [] {
      assert gap + d == d;
    } else {
      assert (gap + d)[1..] == gap[1..] + d;
      WordsSkip(gap[1..], d);
    }
  }

  lemma WordsTake(w: Data, rest: Data)
    requires Word(w) && (rest == [] || IsSpace(rest[0]))
    ensures Words(w + rest) == [w] + Words(rest)
  {
    WordEnds(w, rest);
    assert (w + rest)[..|w|] == w && (w + rest)[|w|..] == rest && (w + rest)[0] == w[0];
  }

  /** However much white space, of whatever kind, stands around them, the words are these. */
  lemma {:induction false} WordsOfSpaced(ws: seq<Data>, gaps: seq<Data>, tail: Data)
    requires |gaps| == |ws| && AllWords(ws) && AllSpace(tail)
    requires forall i :: 0 <= i < |gaps| ==> AllSpace(gaps[i]) && (i > 0 ==> gaps[i] != [])
    ensures Words(Spaced(ws, gaps, tail)) == ws
  {
    hide Word, Words, WordEnd;
    if ws == [] {
      WordsSkip(tail, []);
      assert tail + [] == tail;
      NoWords();
    } else {
      var rest := Spaced(ws[1..], gaps[1..], tail);
      WordsSkip(gaps[0], ws[0] + rest);
      assert rest == [] || IsSpace(rest[0]) by {
        if |ws| > 1 {
          assert gaps[1..][0] == gaps[1] && gaps[1] != [];
        }
      }
      WordsTake(ws[0], rest);
      WordsOfSpaced(ws[1..], gaps[1..], tail);
    }
  }

  lemma NoWords()
    ensures Words([]) == []
  {
  }

  /** A request line is cut at white space; three words at least, or it is invalid, and words behind
      the third are ignored. */
  lemma RequestLineMeans(ws: seq<Data>, gaps: seq<Data>, tail: Data, rest: Data)
    requires |gaps| == |ws| && AllWords(ws) && AllSpace(tail) && CR !in Spaced(ws, gaps, tail)
    requires forall i :: 0 <= i < |gaps| ==> AllSpace(gaps[i]) && (i > 0 ==> gaps[i] != [])
    ensures HeadOf(Spaced(ws, gaps, tail) + (LINE_END + rest))
         == if |ws| < 3 then BadRequestLine else Head(ws[0], ws[1], ws[2], HeadersOf(Lines(rest)))
  {
    hide Find, FoundAt, Words, Lines, HeadersOf, Spaced, Word;
    var line := Spaced(ws, gaps, tail);
    var d := line + (LINE_END + rest);
    WordsOfSpaced(ws, gaps, tail);
    NotWithin(line, LINE_END + rest, LINE_END);
    FindSkips(d, LINE_END, 0, |line|);
    FindHere(line, LINE_END, rest);
    assert d[..|line|] == line && d[|line| + 2..] == rest;
  }

  /** Lines ended by CR LF or by a bare LF, empty lines included. */
  function Ended(ls: seq<Data>, bare: seq<bool>): Data
    requires |bare| == |ls|
  {
    if ls == [] then [] else ls[0] + ((if bare[0] then [LF] else LINE_END) + Ended(ls[1..], bare[1..]))
  }

  lemma {:induction false} LinesOfEnded(ls: seq<Data>, bare: seq<bool>)
    requires |bare| == |ls| && forall i :: 0 <= i < |ls| ==> NoLineBreak(ls[i])
    ensures Lines(Ended(ls, bare)) == ls
  {
    hide Find, Lines;
    if ls == [] {
      NoLines();
    } else {
      LinesOfEnded(ls[1..], bare[1..]);
      TakeEndedLine(ls[0], bare[0], Ended(ls[1..], bare[1..]));
    }
  }

  lemma NoLines()
    ensures Lines([]) == []
  {
  }

  lemma TakeEndedLine(line: Data, bare: bool, rest: Data)
    requires NoLineBreak(line)
    ensures Lines(line + ((if bare then [LF] else LINE_END) + rest)) == [line] + Lines(rest)
  {
    hide Find;
    var front := if bare then line else line + [CR];
    var d := line + ((if bare then [LF] else LINE_END) + rest);
    assert d == front + [LF] + rest;
    FindByte(front, LF, rest, 0);
    assert d[..|front|] == front && d[|front| + 1..] == rest;
    if bare {
      assert |line| > 0 ==> d[|line| - 1] == line[|line| - 1];
    } else {
      assert d[|line|] == CR && d[..|line|] == line;
    }
  }

  // ---- announced lengths ----------------------------------------------------------------------------------

  function Decimal(n: nat): (d: Data)
    ensures d != []
  {
    if n < 10 then [48 + n] else Decimal(n / 10) + [48 + n % 10]
  }

  lemma {:induction false} DecimalRoundTrip(n: nat)
    ensures DigitsValue(Decimal(n)) == Some(n)
    ensures 48 <= Decimal(n)[0] <= 57
  {
    if n < 10 {
      assert [48 + n][..0] == [];
    } else {
      DecimalRoundTrip(n / 10);
      assert Decimal(n)[..|Decimal(n)| - 1] == Decimal(n / 10);
    }
  }

  /** A printed length is read back, below 2^64. */
  lemma LengthRoundTrip(n: nat)
    requires n < TWO_64
    ensures ParseUsize(Decimal(n)) == Some(n)
  {
    DecimalRoundTrip(n);
  }

  lemma {:induction false} DigitsOnly(n: nat)
    ensures forall i :: 0 <= i < |Decimal(n)| ==> 48 <= Decimal(n)[i] <= 57
  {
    if n >= 10 {
      DigitsOnly(n / 10);
    }
  }

  lemma TrimNothing(d: Data)
    requires d != [] ==> !IsSpace(d[0]) && !IsSpace(d[|d| - 1])
    ensures Trim(d) == d
  {
  }

  function LengthField(n: nat): Field { Field(Text("Content-Length"), Decimal(n), [], []) }

  const LENGTH_NAME: Data := [67, 111, 110, 116, 101, 110, 116, 45, 76, 101, 110, 103, 116, 104]

  const LENGTH_KEY: Data := [99, 111, 110, 116, 101, 110, 116, 45, 108, 101, 110, 103, 116, 104]

  lemma LengthNameBytes()
    ensures Text("Content-Length") == LENGTH_NAME
  {
  }

  lemma LengthKeyBytes()
    ensures Text("content-length") == LENGTH_KEY
  {
  }

  lemma LengthNameFolds()
    ensures Lower(LENGTH_NAME) == LENGTH_KEY
  {
  }

  lemma LengthName()
    ensures var name := Text("Content-Length");
            name != [] && Ascii(name) && NoLineBreak(name) && COLON !in name && Lower(name) == Text("content-length")
            && !IsSpace(name[0]) && !IsSpace(name[|name| - 1])
  {
    LengthNameBytes();
    LengthKeyBytes();
    LengthNameFolds();
    hide Text, Lower;
  }

  lemma LengthFieldIsGood(n: nat)
    ensures GoodField(LengthField(n)) && Lower(LengthField(n).name) == Text("content-length")
  {
    hide Trim, Lower, Decimal, Text, IsSpace;
    LengthName();
    DigitsOnly(n);
    TrimNothing(Text("Content-Length"));
    NoSpaces(Decimal(n));
    TrimNothing(Decimal(n));
  }

  lemma NoSpaces(d: Data)
    requires forall i :: 0 <= i < |d| ==> 48 <= d[i] <= 57
    ensures forall i :: 0 <= i < |d| ==> !IsSpace(d[i])
  {
  }

  /** So a request whose last field is its own length always comes back whole. */
  lemma RequestRoundTrip(m: Data, p: Data, v: Data, fs: seq<Field>, body: Data, rest: Data)
    requires Word(m) && Word(p) && Word(v) && GoodFields(fs) && Ascii(body) && Ascii(rest)
    requires var all := fs + [LengthField(|body|)];
             |Print(m, p, v, all, body)| < TWO_64
    ensures var all := fs + [LengthField(|body|)];
            var buf := Print(m, p, v, all, body);
            && Ascii(buf + rest)
            && ParseSpec(buf + rest) == Complete(HttpRequest(m, p, v, FieldMap(all), body), |buf|)
  {
    hide Print, ParseSpec, Decimal, ParseUsize, FieldMap, GoodField, Word;
    var f := LengthField(|body|);
    var all := fs + [f];
    LengthFieldIsGood(|body|);
    BodyOf(m, p, v, all, body);
    LengthRoundTrip(|body|);
    LengthIsKnown(fs, |body|);
    RequestRoundTripIff(m, p, v, all, body, rest);
  }

  lemma LengthIsKnown(fs: seq<Field>, n: nat)
    requires n < TWO_64
    ensures ContentLength(FieldMap(fs + [LengthField(n)])) == n
  {
    hide Lower, Decimal, ParseUsize;
    LengthFieldIsGood(n);
    LengthRoundTrip(n);
    var all := fs + [LengthField(n)];
    assert all[..|all| - 1] == fs;
  }

  /** The announced length: a decimal number below 2^64, with or without a plus sign; no field, a
      number that does not fit, or anything that is not a number counts as 0. */
  lemma ContentLengthMeans(headers: map<Data, Data>, n: nat)
    ensures var key := Text("content-length");
            && (key !in headers ==> ContentLength(headers) == 0)
            && (key in headers && (headers[key] == Decimal(n) || headers[key] == [43] + Decimal(n)) ==>
                  ContentLength(headers) == if n < TWO_64 then n else 0)
            && (key in headers && headers[key] == [] ==> ContentLength(headers) == 0)
            && (key in headers && (exists i :: 1 <= i < |headers[key]| && !(48 <= headers[key][i] <= 57)) ==>
                  ContentLength(headers) == 0)
  {
    hide Text, Decimal, DigitsValue;
    var key := Text("content-length");
    DecimalRoundTrip(n);
    assert ([43] + Decimal(n))[1..] == Decimal(n);
    if key in headers {
      var v := headers[key];
      if i :| 1 <= i < |v| && !(48 <= v[i] <= 57) {
        assert v[1..][i - 1] == v[i];
        NotANumber(v, i);
        NotANumber(v[1..], i - 1);
      }
    }
  }

  lemma {:induction false} NotANumber(d: Data, i: nat)
    requires i < |d| && !(48 <= d[i] <= 57)
    ensures DigitsValue(d).None?
    decreases |d|
  {
    if i < |d| - 1 {
      NotANumber(d[..|d| - 1], i);
    }
  }

  /** A well-formed request that announces 2^64 - 1 bytes of body is such a request. */
  lemma HugeLengthAborts(m: Data, p: Data, v: Data, rest: Data)
    requires Word(m) && Word(p) && Word(v) && Ascii(rest)
    ensures var buf := Print(m, p, v, [LengthField(TWO_64 - 1)], []) + rest;
            Ascii(buf) && ParseSpec(buf) == Aborted
  {
    hide Print, HeadOf, Find, FieldMap, Word, GoodField, ContentLength;
    var fs := [LengthField(TWO_64 - 1)];
    LengthFieldIsGood(TWO_64 - 1);
    LengthIsKnown([], TWO_64 - 1);
    assert [] + fs == fs;
    PrintIsAscii(m, p, v, fs, []);
    HeadRoundTrip(m, p, v, fs, []);
    HeadIsFixed(Print(m, p, v, fs, []), rest);
  }
}
