/** The static table of HPACK (appendix A of RFC 7541) and its first-match search. */
module HpackStatic {
  import opened Bytes

  datatype Header = Header(name: Data, value: Data)

  /** The bytes of an ASCII literal. */
  function Text(s: string): (d: Data)
    ensures |d| == |s|
  {
    seq(|s|, i requires 0 <= i < |s| => s[i] as int % 0x100)
  }

  const PSEUDO_HEADERS: seq<(string, string)> :=
    [
      (":authority", ""),
      (":method", "GET"),
      (":method", "POST"),
      (":path", "/"),
      (":path", "/index.html"),
      (":scheme", "http"),
      (":scheme", "https"),
      (":status", "200"),
      (":status", "204"),
      (":status", "206"),
      (":status", "304"),
      (":status", "400"),
      (":status", "404"),
      (":status", "500")
    ]

  const HEADERS_A: seq<(string, string)> :=
    [
      ("accept-charset", ""),
      ("accept-encoding", "gzip, deflate"),
      ("accept-language", ""),
      ("accept-ranges", ""),
      ("accept", ""),
      ("access-control-allow-origin", ""),
      ("age", ""),
      ("allow", ""),
      ("authorization", ""),
      ("cache-control", "")
    ]

  const HEADERS_C_D: seq<(string, string)> :=
    [
      ("content-disposition", ""),
      ("content-encoding", ""),
      ("content-language", ""),
      ("content-length", ""),
      ("content-location", ""),
      ("content-range", ""),
      ("content-type", ""),
      ("cookie", ""),
      ("date", ""),
      ("etag", "")
    ]

  const HEADERS_E_I: seq<(string, string)> :=
    [
      ("expect", ""),
      ("expires", ""),
      ("from", ""),
      ("host", ""),
      ("if-match", ""),
      ("if-modified-since", ""),
      ("if-none-match", ""),
      ("if-range", ""),
      ("if-unmodified-since", ""),
      ("last-modified", "")
    ]

  const HEADERS_L_R: seq<(string, string)> :=
    [
      ("link", ""),
      ("location", ""),
      ("max-forwards", ""),
      ("proxy-authenticate", ""),
      ("proxy-authorization", ""),
      ("range", ""),
      ("referer", ""),
      ("refresh", ""),
      ("retry-after", ""),
      ("server", "")
    ]

  const HEADERS_S_W: seq<(string, string)> :=
    [
      ("set-cookie", ""),
      ("strict-transport-security", ""),
      ("transfer-encoding", ""),
      ("user-agent", ""),
      ("vary", ""),
      ("via", ""),
      ("www-authenticate", "")
    ]

  const STATIC_TABLE: seq<(string, string)> :=
    PSEUDO_HEADERS + HEADERS_A + HEADERS_C_D + HEADERS_E_I + HEADERS_L_R + HEADERS_S_W

  const STATIC_COUNT: nat := 61

  lemma StaticSize()
    ensures |STATIC_TABLE| == STATIC_COUNT
  {
  }

  /** Entry `index` of the table, counted from one. */
  function StaticEntry(index: nat): Header
    requires 1 <= index <= STATIC_COUNT
  {
    StaticSize();
    Header(Text(STATIC_TABLE[index - 1].0), Text(STATIC_TABLE[index - 1].1))
  }

  lemma MethodEntries()
    ensures StaticEntry(1) == Header(Text(":authority"), [])
    ensures StaticEntry(2) == Header(Text(":method"), Text("GET"))
    ensures StaticEntry(3) == Header(Text(":method"), Text("POST"))
  {
    assert PSEUDO_HEADERS[0] == (":authority", "");
    assert PSEUDO_HEADERS[1] == (":method", "GET");
    assert PSEUDO_HEADERS[2] == (":method", "POST");
  }

  /** Appendix A of RFC 7541 by its numbers. */
  lemma AppendixA1To14()
    ensures StaticEntry(1) == Header(Text(":authority"), Text(""))
    ensures StaticEntry(2) == Header(Text(":method"), Text("GET"))
    ensures StaticEntry(3) == Header(Text(":method"), Text("POST"))
    ensures StaticEntry(4) == Header(Text(":path"), Text("/"))
    ensures StaticEntry(5) == Header(Text(":path"), Text("/index.html"))
    ensures StaticEntry(6) == Header(Text(":scheme"), Text("http"))
    ensures StaticEntry(7) == Header(Text(":scheme"), Text("https"))
    ensures StaticEntry(8) == Header(Text(":status"), Text("200"))
    ensures StaticEntry(9) == Header(Text(":status"), Text("204"))
    ensures StaticEntry(10) == Header(Text(":status"), Text("206"))
    ensures StaticEntry(11) == Header(Text(":status"), Text("304"))
    ensures StaticEntry(12) == Header(Text(":status"), Text("400"))
    ensures StaticEntry(13) == Header(Text(":status"), Text("404"))
    ensures StaticEntry(14) == Header(Text(":status"), Text("500"))
  {
    hide Text;
    StaticSize();
    assert PSEUDO_HEADERS[0] == STATIC_TABLE[0];
    assert PSEUDO_HEADERS[1] == STATIC_TABLE[1];
    assert PSEUDO_HEADERS[2] == STATIC_TABLE[2];
    assert PSEUDO_HEADERS[3] == STATIC_TABLE[3];
    assert PSEUDO_HEADERS[4] == STATIC_TABLE[4];
    assert PSEUDO_HEADERS[5] == STATIC_TABLE[5];
    assert PSEUDO_HEADERS[6] == STATIC_TABLE[6];
    assert PSEUDO_HEADERS[7] == STATIC_TABLE[7];
    assert PSEUDO_HEADERS[8] == STATIC_TABLE[8];
    assert PSEUDO_HEADERS[9] == STATIC_TABLE[9];
    assert PSEUDO_HEADERS[10] == STATIC_TABLE[10];
    assert PSEUDO_HEADERS[11] == STATIC_TABLE[11];
    assert PSEUDO_HEADERS[12] == STATIC_TABLE[12];
    assert PSEUDO_HEADERS[13] == STATIC_TABLE[13];
  }

  lemma AppendixA15To24()
    ensures StaticEntry(15) == Header(Text("accept-charset"), Text(""))
    ensures StaticEntry(16) == Header(Text("accept-encoding"), Text("gzip, deflate"))
    ensures StaticEntry(17) == Header(Text("accept-language"), Text(""))
    ensures StaticEntry(18) == Header(Text("accept-ranges"), Text(""))
    ensures StaticEntry(19) == Header(Text("accept"), Text(""))
    ensures StaticEntry(20) == Header(Text("access-control-allow-origin"), Text(""))
    ensures StaticEntry(21) == Header(Text("age"), Text(""))
    ensures StaticEntry(22) == Header(Text("allow"), Text(""))
    ensures StaticEntry(23) == Header(Text("authorization"), Text(""))
    ensures StaticEntry(24) == Header(Text("cache-control"), Text(""))
  {
    hide Text;
    StaticSize();
    assert HEADERS_A[0] == STATIC_TABLE[14];
    assert HEADERS_A[1] == STATIC_TABLE[15];
    assert HEADERS_A[2] == STATIC_TABLE[16];
    assert HEADERS_A[3] == STATIC_TABLE[17];
    assert HEADERS_A[4] == STATIC_TABLE[18];
    assert HEADERS_A[5] == STATIC_TABLE[19];
    assert HEADERS_A[6] == STATIC_TABLE[20];
    assert HEADERS_A[7] == STATIC_TABLE[21];
    assert HEADERS_A[8] == STATIC_TABLE[22];
    assert HEADERS_A[9] == STATIC_TABLE[23];
  }

  lemma AppendixA25To34()
    ensures StaticEntry(25) == Header(Text("content-disposition"), Text(""))
    ensures StaticEntry(26) == Header(Text("content-encoding"), Text(""))
    ensures StaticEntry(27) == Header(Text("content-language"), Text(""))
    ensures StaticEntry(28) == Header(Text("content-length"), Text(""))
    ensures StaticEntry(29) == Header(Text("content-location"), Text(""))
    ensures StaticEntry(30) == Header(Text("content-range"), Text(""))
    ensures StaticEntry(31) == Header(Text("content-type"), Text(""))
    ensures StaticEntry(32) == Header(Text("cookie"), Text(""))
    ensures StaticEntry(33) == Header(Text("date"), Text(""))
    ensures StaticEntry(34) == Header(Text("etag"), Text(""))
  {
    hide Text;
    StaticSize();
    assert HEADERS_C_D[0] == STATIC_TABLE[24];
    assert HEADERS_C_D[1] == STATIC_TABLE[25];
    assert HEADERS_C_D[2] == STATIC_TABLE[26];
    assert HEADERS_C_D[3] == STATIC_TABLE[27];
    assert HEADERS_C_D[4] == STATIC_TABLE[28];
    assert HEADERS_C_D[5] == STATIC_TABLE[29];
    assert HEADERS_C_D[6] == STATIC_TABLE[30];
    assert HEADERS_C_D[7] == STATIC_TABLE[31];
    assert HEADERS_C_D[8] == STATIC_TABLE[32];
    assert HEADERS_C_D[9] == STATIC_TABLE[33];
  }

  lemma AppendixA35To44()
    ensures StaticEntry(35) == Header(Text("expect"), Text(""))
    ensures StaticEntry(36) == Header(Text("expires"), Text(""))
    ensures StaticEntry(37) == Header(Text("from"), Text(""))
    ensures StaticEntry(38) == Header(Text("host"), Text(""))
    ensures StaticEntry(39) == Header(Text("if-match"), Text(""))
    ensures StaticEntry(40) == Header(Text("if-modified-since"), Text(""))
    ensures StaticEntry(41) == Header(Text("if-none-match"), Text(""))
    ensures StaticEntry(42) == Header(Text("if-range"), Text(""))
    ensures StaticEntry(43) == Header(Text("if-unmodified-since"), Text(""))
    ensures StaticEntry(44) == Header(Text("last-modified"), Text(""))
  {
    hide Text;
    StaticSize();
    assert HEADERS_E_I[0] == STATIC_TABLE[34];
    assert HEADERS_E_I[1] == STATIC_TABLE[35];
    assert HEADERS_E_I[2] == STATIC_TABLE[36];
    assert HEADERS_E_I[3] == STATIC_TABLE[37];
    assert HEADERS_E_I[4] == STATIC_TABLE[38];
    assert HEADERS_E_I[5] == STATIC_TABLE[39];
    assert HEADERS_E_I[6] == STATIC_TABLE[40];
    assert HEADERS_E_I[7] == STATIC_TABLE[41];
    assert HEADERS_E_I[8] == STATIC_TABLE[42];
    assert HEADERS_E_I[9] == STATIC_TABLE[43];
  }

  lemma AppendixA45To54()
    ensures StaticEntry(45) == Header(Text("link"), Text(""))
    ensures StaticEntry(46) == Header(Text("location"), Text(""))
    ensures StaticEntry(47) == Header(Text("max-forwards"), Text(""))
    ensures StaticEntry(48) == Header(Text("proxy-authenticate"), Text(""))
    ensures StaticEntry(49) == Header(Text("proxy-authorization"), Text(""))
    ensures StaticEntry(50) == Header(Text("range"), Text(""))
    ensures StaticEntry(51) == Header(Text("referer"), Text(""))
    ensures StaticEntry(52) == Header(Text("refresh"), Text(""))
    ensures StaticEntry(53) == Header(Text("retry-after"), Text(""))
    ensures StaticEntry(54) == Header(Text("server"), Text(""))
  {
    hide Text;
    StaticSize();
    assert HEADERS_L_R[0] == STATIC_TABLE[44];
    assert HEADERS_L_R[1] == STATIC_TABLE[45];
    assert HEADERS_L_R[2] == STATIC_TABLE[46];
    assert HEADERS_L_R[3] == STATIC_TABLE[47];
    assert HEADERS_L_R[4] == STATIC_TABLE[48];
    assert HEADERS_L_R[5] == STATIC_TABLE[49];
    assert HEADERS_L_R[6] == STATIC_TABLE[50];
    assert HEADERS_L_R[7] == STATIC_TABLE[51];
    assert HEADERS_L_R[8] == STATIC_TABLE[52];
    assert HEADERS_L_R[9] == STATIC_TABLE[53];
  }

  lemma AppendixA55To61()
    ensures StaticEntry(55) == Header(Text("set-cookie"), Text(""))
    ensures StaticEntry(56) == Header(Text("strict-transport-security"), Text(""))
    ensures StaticEntry(57) == Header(Text("transfer-encoding"), Text(""))
    ensures StaticEntry(58) == Header(Text("user-agent"), Text(""))
    ensures StaticEntry(59) == Header(Text("vary"), Text(""))
    ensures StaticEntry(60) == Header(Text("via"), Text(""))
    ensures StaticEntry(61) == Header(Text("www-authenticate"), Text(""))
  {
    hide Text;
    StaticSize();
    assert HEADERS_S_W[0] == STATIC_TABLE[54];
    assert HEADERS_S_W[1] == STATIC_TABLE[55];
    assert HEADERS_S_W[2] == STATIC_TABLE[56];
    assert HEADERS_S_W[3] == STATIC_TABLE[57];
    assert HEADERS_S_W[4] == STATIC_TABLE[58];
    assert HEADERS_S_W[5] == STATIC_TABLE[59];
    assert HEADERS_S_W[6] == STATIC_TABLE[60];
  }

  datatype Match = Match(index: nat, hasValue: bool)

  /** The source's search: the first entry with this name decides, even when a later entry
      would match the value too. */
  method FindStatic(name: Data, value: Data) returns (r: Option<Match>)
    ensures r == FindFrom(name, value, 1)
  {
    var i := 1;
    while i <= STATIC_COUNT
      invariant 1 <= i <= STATIC_COUNT + 1
      invariant FindFrom(name, value, 1) == FindFrom(name, value, i)
    {
      var e := StaticEntry(i);
      if e.name == name {
        return Some(Match(i, e.value == value));
      }
      i := i + 1;
    }
    return None;
  }

  function FindFrom(name: Data, value: Data, i: nat): (r: Option<Match>)
    requires 1 <= i
    ensures r.Some? ==> i <= r.value.index <= STATIC_COUNT && StaticEntry(r.value.index).name == name
    ensures r.Some? ==> (r.value.hasValue <==> StaticEntry(r.value.index) == Header(name, value))
    ensures r.Some? ==> forall j :: i <= j < r.value.index ==> StaticEntry(j).name != name
    ensures r.None? ==> forall j :: i <= j <= STATIC_COUNT ==> StaticEntry(j).name != name
    decreases STATIC_COUNT + 1 - i
  {
    if i > STATIC_COUNT then None
    else
      var e := StaticEntry(i);
      if e.name == name then Some(Match(i, e.value == value)) else FindFrom(name, value, i + 1)
  }
}
