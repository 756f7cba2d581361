/**
  The HTTP/1.1 request parser over ASCII buffers, where UTF-8 validation succeeds and white space
  and letter case are the ASCII ones.  Requests form a prefix-free code, and a request can ever
  complete exactly when its head has what the parser insists on.
*/
module HttpParser {
  import opened Bytes
  import opened HpackStatic

  datatype HttpRequest = HttpRequest(
    requestMethod: Data, path: Data, version: Data, headers: map<Data, Data>, body: Data)

  /** `Aborted` is not returned: a length that overflows makes the calling thread panic. */
  datatype Outcome =
    | Complete(request: HttpRequest, consumed: nat)
    | Incomplete
    | Invalid
    | Aborted

  predicate Ascii(d: Data) { forall i :: 0 <= i < |d| ==> d[i] < 128 }

  const CR: byte := 13
  const LF: byte := 10
  const COLON: byte := 58

  const LINE_END: Data := [CR, LF]
  const HEAD_END: Data := [CR, LF, CR, LF]

  // ---- library string operations ------------------------------------------------------------------

  /** `find`: the first occurrence of a pattern at or after `from`. */
  function Find(d: Data, pattern: Data, from: nat): (r: Option<nat>)
    ensures r.Some? ==> from <= r.value && r.value + |pattern| <= |d|
    decreases |d| - from
  {
    if from + |pattern| > |d| then None
    else if d[from..from + |pattern|] == pattern then Some(from)
    else if from == |d| then None
    else Find(d, pattern, from + 1)
  }

  predicate FoundAt(d: Data, pattern: Data, i: nat)
  {
    i + |pattern| <= |d| && d[i..i + |pattern|] == pattern
  }

  /** What is found is the first occurrence; nothing is found only if there is none. */
  lemma {:induction false} FindIsFirst(d: Data, pattern: Data, from: nat)
    requires from <= |d|
    ensures var r := Find(d, pattern, from);
            && (r.Some? ==> FoundAt(d, pattern, r.value))
            && (forall i :: from <= i < (if r.Some? then r.value else |d| + 1) ==> !FoundAt(d, pattern, i))
    decreases |d| - from
  {
    if from + |pattern| <= |d| && d[from..from + |pattern|] != pattern && from < |d| {
      FindIsFirst(d, pattern, from + 1);
    }
  }

  predicate IsSpace(b: byte) { b == 32 || 9 <= b <= 13 }

  function WordEnd(d: Data): (n: nat)
    ensures n <= |d| && (d != [] && !IsSpace(d[0]) ==> n > 0)
  {
    if d == [] || IsSpace(d[0]) then 0 else 1 + WordEnd(d[1..])
  }

  /** `split_whitespace`. */
  function Words(d: Data): seq<Data>
    decreases |d|
  {
    if d == [] then []
    else if IsSpace(d[0]) then Words(d[1..])
    else [d[..WordEnd(d)]] + Words(d[WordEnd(d)..])
  }

  function TrimStart(d: Data): Data
  {
    if d != [] && IsSpace(d[0]) then TrimStart(d[1..]) else d
  }

  function TrimEnd(d: Data): Data
  {
    if d != [] && IsSpace(d[|d| - 1]) then TrimEnd(d[..|d| - 1]) else d
  }

  function Trim(d: Data): Data { TrimEnd(TrimStart(d)) }

  function Lower(d: Data): Data
  {
    seq(|d|, i requires 0 <= i < |d| => if 65 <= d[i] <= 90 then d[i] + 32 else d[i])
  }

  /** `lines`: a line ends at LF or CR LF; a CR before the end of the text belongs to its line. */
  function Lines(d: Data): seq<Data>
    decreases |d|
  {
    if d == [] then []
    else
      match Find(d, [LF], 0)
      case None => [d]
      case Some(j) =>
        var line := if j > 0 && d[j - 1] == CR then d[..j - 1] else d[..j];
        [line] + Lines(d[j + 1..])
  }

  function DigitsValue(d: Data): Option<nat>
  {
    if d == [] then Some(0)
    else
      match DigitsValue(d[..|d| - 1])
      case None => None
      case Some(v) =>
        var c := d[|d| - 1];
        if 48 <= c <= 57 then Some(10 * v + (c - 48)) else None
  }

  /** `parse::<usize>`: an optional plus sign and at least one digit, below 2^64. */
  function ParseUsize(d: Data): (r: Option<nat>)
    ensures r.Some? ==> r.value < TWO_64
  {
    var digits := if |d| > 1 && d[0] == 43 then d[1..] else d;
    if digits == [] then None
    else
      match DigitsValue(digits)
      case None => None
      case Some(v) => if v < TWO_64 then Some(v) else None
  }

  // ---- the parser -----------------------------------------------------------------------------------

  function AddHeader(m: map<Data, Data>, line: Data): map<Data, Data>
  {
    match Find(line, [COLON], 0)
    case None => m
    case Some(c) => m[Lower(Trim(line[..c])) := Trim(line[c + 1..])]
  }

  function HeadersOf(lines: seq<Data>): map<Data, Data>
  {
    if lines == [] then map[] else AddHeader(HeadersOf(lines[..|lines| - 1]), lines[|lines| - 1])
  }

  function ContentLength(headers: map<Data, Data>): (n: nat)
    ensures n < TWO_64
  {
    var key := Text("content-length");
    if key in headers && ParseUsize(headers[key]).Some? then ParseUsize(headers[key]).value else 0
  }

  /** What stands before the empty line: nothing the parser will take as a head unless there is a
      line end in it, and three words before that line end. */
  datatype Head =
    | NoHeaderLines
    | BadRequestLine
    | Head(requestMethod: Data, path: Data, version: Data, headers: map<Data, Data>)

  function HeadOf(d: Data): Head
  {
    match Find(d, LINE_END, 0)
    case None => NoHeaderLines
    case Some(e) =>
      var parts := Words(d[..e]);
      if |parts| < 3 then BadRequestLine
      else Head(parts[0], parts[1], parts[2], HeadersOf(Lines(d[e + 2..])))
  }

  function ParseSpec(buf: Data): Outcome
    requires Ascii(buf)
  {
    match Find(buf, HEAD_END, 0)
    case None => Incomplete
    case Some(h) => WithHead(HeadOf(buf[..h]), buf, h + 4)
  }

  function WithHead(head: Head, buf: Data, bodyStart: nat): Outcome
    requires bodyStart <= |buf|
  {
    match head
    case NoHeaderLines => Incomplete
    case BadRequestLine => Invalid
    case Head(m, p, v, headers) =>
      var total := bodyStart + ContentLength(headers);
      if total >= TWO_64 then Aborted
      else if |buf| < total then Incomplete
      else Complete(HttpRequest(m, p, v, headers, buf[bodyStart..total]), total)
  }

  method Parse(buf: Data) returns (r: Outcome)
    requires Ascii(buf)
    ensures r == ParseSpec(buf)
  {
    hide Find, Words, AddHeader, ContentLength, Lines;
    var headerEnd := Find(buf, HEAD_END, 0);
    if headerEnd.None? {
      return Incomplete;
    }
    var headersData := buf[..headerEnd.value];
    var firstLineEnd := Find(headersData, LINE_END, 0);
    if firstLineEnd.None? {
      return Incomplete;
    }
    var parts := Words(headersData[..firstLineEnd.value]);
    if |parts| < 3 {
      return Invalid;
    }
    var lines := Lines(headersData[firstLineEnd.value + 2..]);
    var headers: map<Data, Data> := map[];
    assert lines[..0] == [];
    for i := 0 to |lines|
      invariant headers == HeadersOf(lines[..i])
    {
      assert lines[..i + 1][..i] == lines[..i];
      headers := AddHeader(headers, lines[i]);
    }
    assert lines[..|lines|] == lines;
    var bodyStart := headerEnd.value + 4;
    var total := bodyStart + ContentLength(headers);
    if total >= TWO_64 {
      return Aborted;
    }
    if |buf| < total {
      return Incomplete;
    }
    return Complete(HttpRequest(parts[0], parts[1], parts[2], headers, buf[bodyStart..total]), total);
  }

  // ---- prefixes and extensions ------------------------------------------------------------------------

  lemma {:induction false} FindExtends(d: Data, extra: Data, pattern: Data, from: nat)
    requires Find(d, pattern, from).Some?
    ensures Find(d + extra, pattern, from) == Find(d, pattern, from)
    decreases |d| - from
  {
    assert (d + extra)[from..from + |pattern|] == d[from..from + |pattern|];
    if d[from..from + |pattern|] != pattern {
      FindExtends(d, extra, pattern, from + 1);
    }
  }

  /** A prefix too short to hold the first occurrence holds none. */
  lemma {:induction false} FindNotInPrefix(d: Data, pattern: Data, from: nat, n: nat)
    requires Find(d, pattern, from).Some? && n <= |d| && n < Find(d, pattern, from).value + |pattern|
    ensures Find(d[..n], pattern, from).None?
    decreases |d| - from
  {
    if from + |pattern| <= n {
      assert d[..n][from..from + |pattern|] == d[from..from + |pattern|];
      if from < n {
        FindNotInPrefix(d, pattern, from + 1, n);
      }
    }
  }

  lemma {:induction false} FindInLongPrefix(d: Data, pattern: Data, from: nat, n: nat)
    requires Find(d, pattern, from).Some? && Find(d, pattern, from).value + |pattern| <= n <= |d|
    ensures Find(d[..n], pattern, from) == Find(d, pattern, from)
    decreases |d| - from
  {
    assert d[..n][from..from + |pattern|] == d[from..from + |pattern|];
    if d[from..from + |pattern|] != pattern {
      FindInLongPrefix(d, pattern, from + 1, n);
    }
  }

  /** Once the empty line has arrived, nothing before it can change any more. */
  lemma HeadIsFixed(buf: Data, extra: Data)
    requires Ascii(buf) && Ascii(extra) && Find(buf, HEAD_END, 0).Some?
    ensures var h := Find(buf, HEAD_END, 0).value;
            Ascii(buf + extra) && ParseSpec(buf + extra) == WithHead(HeadOf(buf[..h]), buf + extra, h + 4)
  {
    hide HeadOf, WithHead, Find;
    FindExtends(buf, extra, HEAD_END, 0);
    var h := Find(buf, HEAD_END, 0).value;
    assert (buf + extra)[..h] == buf[..h];
  }

  /** Requests form a prefix-free code: a completed parse consumes part of the buffer, every
      extension completes to the same request, and every proper prefix of it is incomplete. */
  lemma RequestsArePrefixFree(buf: Data, extra: Data, k: nat)
    requires Ascii(buf) && Ascii(extra) && ParseSpec(buf).Complete?
    ensures ParseSpec(buf).consumed <= |buf|
    ensures Ascii(buf + extra) && ParseSpec(buf + extra) == ParseSpec(buf)
    ensures k < ParseSpec(buf).consumed ==> Ascii(buf[..k]) && ParseSpec(buf[..k]) == Incomplete
  {
    hide HeadOf, Find;
    HeadIsFixed(buf, extra);
    var h := Find(buf, HEAD_END, 0).value;
    var n := ParseSpec(buf).consumed;
    assert (buf + extra)[h + 4..n] == buf[h + 4..n];
    if k < n {
      if k < h + 4 {
        FindNotInPrefix(buf, HEAD_END, 0, k);
      } else {
        FindInLongPrefix(buf, HEAD_END, 0, k);
        assert buf[..k][..h] == buf[..h];
      }
    }
  }

  /** No complete request is a proper prefix of another. */
  lemma NoRequestInsideAnother(a: Data, b: Data)
    requires Ascii(a) && Ascii(b) && a <= b
    requires ParseSpec(a).Complete? && ParseSpec(a).consumed == |a|
    requires ParseSpec(b).Complete? && ParseSpec(b).consumed == |b|
    ensures a == b
  {
    hide ParseSpec;
    RequestsArePrefixFree(b, [], |a|);
    assert b[..|a|] == a;
  }

  /** Rejection and the length panic are final as well. */
  lemma FailureIsFinal(buf: Data, extra: Data)
    requires Ascii(buf) && Ascii(extra) && (ParseSpec(buf).Invalid? || ParseSpec(buf).Aborted?)
    ensures Ascii(buf + extra) && ParseSpec(buf + extra) == ParseSpec(buf)
  {
    hide HeadOf, Find;
    HeadIsFixed(buf, extra);
  }

  // ---- what can ever complete ---------------------------------------------------------------------------

  predicate CompletesWith(buf: Data, extra: Data)
    requires Ascii(buf)
  {
    Ascii(extra) && Ascii(buf + extra) && ParseSpec(buf + extra).Complete?
  }

  /** Once the empty line has arrived, some continuation completes the request if and only if the
      head contains a line end, three words stand before the first one, and the announced length
      does not overflow. */
  lemma CanCompleteIff(buf: Data)
    requires Ascii(buf) && Find(buf, HEAD_END, 0).Some?
    ensures var h := Find(buf, HEAD_END, 0).value;
            (exists extra :: CompletesWith(buf, extra))
            <==> HeadOf(buf[..h]).Head? && h + 4 + ContentLength(HeadOf(buf[..h]).headers) < TWO_64
  {
    hide HeadOf, Find, ContentLength;
    var h := Find(buf, HEAD_END, 0).value;
    var head := HeadOf(buf[..h]);
    if head.Head? && h + 4 + ContentLength(head.headers) < TWO_64 {
      var extra: Data := seq(ContentLength(head.headers), _ => 0);
      HeadIsFixed(buf, extra);
      assert CompletesWith(buf, extra);
    }
    if extra :| CompletesWith(buf, extra) {
      HeadIsFixed(buf, extra);
    }
  }

  /** The length panic: exactly when a head with three words announces a length that, behind the
      head, reaches 2^64. */
  lemma AbortedIff(buf: Data)
    requires Ascii(buf)
    ensures ParseSpec(buf).Aborted? <==>
            && Find(buf, HEAD_END, 0).Some?
            && (var h := Find(buf, HEAD_END, 0).value;
                HeadOf(buf[..h]).Head? && h + 4 + ContentLength(HeadOf(buf[..h]).headers) >= TWO_64)
  {
    hide Find, HeadOf, ContentLength;
  }

  lemma {:induction false} FirstHeadEnd(line: Data, from: nat)
    requires CR !in line && from <= |line|
    ensures Find(line + HEAD_END, HEAD_END, from) == Some(|line|)
    decreases |line| - from
  {
    var d := line + HEAD_END;
    if from == |line| {
      assert d[from..from + 4] == HEAD_END;
    } else {
      assert d[from..from + 4][0] == line[from];
      FirstHeadEnd(line, from + 1);
    }
  }

  lemma {:induction false} NoLineEnd(line: Data, from: nat)
    requires CR !in line
    ensures Find(line, LINE_END, from).None?
    decreases |line| - from
  {
    if from + 2 <= |line| {
      assert line[from..from + 2][0] == line[from];
      NoLineEnd(line, from + 1);
    }
  }

  /** A request line directly followed by the empty line waits for ever: the parser looks for a
      line end inside the head, which ends before it. */
  lemma HeaderlessRequestNeverCompletes(line: Data, extra: Data)
    requires Ascii(line) && Ascii(extra) && CR !in line
    ensures Ascii(line + HEAD_END + extra) && ParseSpec(line + HEAD_END + extra) == Incomplete
  {
    hide Find, Words, HeadersOf;
    var buf := line + HEAD_END;
    FirstHeadEnd(line, 0);
    NoLineEnd(line, 0);
    HeadIsFixed(buf, extra);
    assert buf[..|line|] == line;
  }
}
