/**
  The `process_one` functions of the five multi-core stages: what each does to one connection,
  and the methods that do it on the slab under its lock.
*/
module Stages {
  import opened Bytes
  import opened HpackStatic
  import opened ConnSlab

  /** What the request parser says about a read buffer; `Panics` is a panic of the stage's thread. */
  datatype ParseAnswer = Good(requestMethod: Data, path: Data) | NeedMore | Bad | Panics

  /** The sizes, the parser, and the rendered response of each route. */
  datatype Config = Config(slabCapacity: nat, queueCapacity: nat, parse: Data -> ParseAnswer, page: nat -> Data)

  /** What the socket did: the bytes a read found, or how many bytes a write had accepted when it
      returned or failed. */
  datatype Io = Read(input: Data) | Wrote(accepted: nat) | WriteFailed(accepted: nat)

  /** Hand the id on; keep the connection but lose the id; abort the thread; close the connection. */
  datatype Verdict = Forward | Lose | Abort | Close

  datatype One = One(conn: ConnState, verdict: Verdict)

  const PARSE: nat := 0
  const ROUTE: nat := 1
  const APP: nat := 2
  const ENCODE: nat := 3
  const NET_OUT: nat := 4

  function RouteOf(path: Data): nat
  {
    if path == Text("/") then 0 else if path == Text("/api/test") then 1 else 999
  }

  function ReadInto(c: ConnState, io: Io): Data
  {
    if c.stream.Some? && io.Read? then c.readBuf + io.input else c.readBuf
  }

  function ParseOne(cfg: Config, c: ConnState, io: Io): One
  {
    var buf := ReadInto(c, io);
    match cfg.parse(buf)
    case Good(m, p) =>
      One(c.(requestMethod := Some(m), requestPath := Some(p), state := Routed, readBuf := []), Forward)
    case NeedMore => One(c.(readBuf := buf), Lose)
    case Bad => One(c.(readBuf := buf, state := Closed), Lose)
    case Panics => One(c.(readBuf := buf), Abort)
  }

  function RouteOne(c: ConnState): One
  {
    var route := if c.requestPath.Some? then RouteOf(c.requestPath.value) else 999;
    One(c.(routeId := Some(route), state := Processing), Forward)
  }

  function AppOne(cfg: Config, c: ConnState): One
  {
    var route := if c.routeId.Some? && c.routeId.value <= 1 then c.routeId.value else 999;
    One(c.(writeBuf := c.writeBuf + cfg.page(route), state := Sending), Forward)
  }

  function Remaining(c: ConnState): nat
  {
    if c.bytesWritten <= |c.writeBuf| then |c.writeBuf| - c.bytesWritten else 0
  }

  /** How many of the offered bytes the socket took: never more than were offered. */
  function Taken(c: ConnState, io: Io): (n: nat)
    ensures n <= Remaining(c)
  {
    match io
    case Read(_) => 0
    case Wrote(n) => if n <= Remaining(c) then n else Remaining(c)
    case WriteFailed(n) => if n <= Remaining(c) then n else Remaining(c)
  }

  function NetOutOne(c: ConnState, io: Io): One
  {
    if c.stream.None? then One(c, Lose)
    else if io.WriteFailed? then One(c.(state := Closed), Close)
    else
      var written := c.bytesWritten + Taken(c, io);
      if written >= |c.writeBuf| then One(c.(bytesWritten := written, state := Closed), Close)
      else One(c.(bytesWritten := written), Lose)
  }

  function ProcessOne(cfg: Config, stage: nat, c: ConnState, io: Io): One
  {
    if stage == PARSE then ParseOne(cfg, c, io)
    else if stage == ROUTE then RouteOne(c)
    else if stage == APP then AppOne(cfg, c)
    else if stage == NET_OUT then NetOutOne(c, io)
    else One(c, Forward)
  }

  // ---- on the slab ------------------------------------------------------------------------------------

  datatype Effect = Effect(slab: Slab, next: Option<nat>, closed: bool, aborted: bool)

  /** One call of a stage's `process_one`: the slab afterwards, the id handed on, whether the
      connection was removed and `total_conns` decremented, and whether the thread panicked. */
  function ProcessId(cfg: Config, stage: nat, id: nat, s: Slab, io: Io): Effect
  {
    if stage == ENCODE then Effect(s, Some(id), false, false)
    else if !Occupied(s, id) then Effect(s, None, false, false)
    else
      var o := ProcessOne(cfg, stage, s.slots[id].value, io);
      var s' := PutConn(s, id, o.conn);
      match o.verdict
      case Forward => Effect(s', Some(id), false, false)
      case Close => Effect(RemoveConn(s', id), None, true, false)
      case Lose => Effect(s', None, false, false)
      case Abort => Effect(s', None, false, true)
  }

  /** The routes, by numbers and paths: `/` is 0, `/api/test` is 1, anything else, or no path at all,
      is 999; the connection goes on to Processing and nothing else of it or the slab changes. */
  lemma RouteMeans(cfg: Config, id: nat, s: Slab, io: Io)
    requires Occupied(s, id)
    ensures var c, e := s.slots[id].value, ProcessId(cfg, 1, id, s, io);
            && e.next == Some(id) && !e.closed && !e.aborted && Occupied(e.slab, id)
            && (var c' := e.slab.slots[id].value;
                && (c.requestPath == Some([47]) ==> c'.routeId == Some(0))
                && (c.requestPath == Some([47, 97, 112, 105, 47, 116, 101, 115, 116]) ==> c'.routeId == Some(1))
                && (c.requestPath != Some([47]) && c.requestPath != Some([47, 97, 112, 105, 47, 116, 101, 115, 116]) ==>
                      c'.routeId == Some(999))
                && c' == c.(routeId := c'.routeId, state := Processing)
                && e.slab == s.(slots := s.slots[id := Some(c')]))
  {
    RoutesByBytes();
    hide RouteOf;
  }

  lemma RoutesByBytes()
    ensures RouteOf([47]) == 0 && RouteOf([47, 97, 112, 105, 47, 116, 101, 115, 116]) == 1
    ensures forall path :: path != [47] && path != [47, 97, 112, 105, 47, 116, 101, 115, 116] ==> RouteOf(path) == 999
  {
    assert Text("/") == [47];
    assert Text("/api/test") == [47, 97, 112, 105, 47, 116, 101, 115, 116];
  }

  /** Parse's four answers: a complete request is stored, the buffer emptied and the id handed on; an
      incomplete one leaves the bytes in the buffer, an invalid one closes the connection as well, a
      panic leaves them too, and none of these three hands the id on. */
  lemma ParseMeans(cfg: Config, id: nat, s: Slab, input: Data)
    requires Occupied(s, id) && s.slots[id].value.stream.Some?
    ensures var c, e := s.slots[id].value, ProcessId(cfg, 0, id, s, Read(input));
            var buf := c.readBuf + input;
            var c' := match cfg.parse(buf)
                      case Good(m, p) =>
                        c.(readBuf := [], state := Routed, requestMethod := Some(m), requestPath := Some(p))
                      case Bad => c.(readBuf := buf, state := Closed)
                      case _ => c.(readBuf := buf);
            && e.slab == s.(slots := s.slots[id := Some(c')])
            && e.next == (if cfg.parse(buf).Good? then Some(id) else None)
            && !e.closed && e.aborted == cfg.parse(buf).Panics?
  {
  }

  /** App's answers, by route: 0 and 1 have pages of their own, every other route that of 999. */
  lemma AppMeans(cfg: Config, id: nat, s: Slab, io: Io)
    requires Occupied(s, id)
    ensures var c, e := s.slots[id].value, ProcessId(cfg, 2, id, s, io);
            && e.next == Some(id) && !e.closed && !e.aborted && Occupied(e.slab, id)
            && (var c' := e.slab.slots[id].value;
                && (c.routeId == Some(0) ==> c'.writeBuf == c.writeBuf + cfg.page(0))
                && (c.routeId == Some(1) ==> c'.writeBuf == c.writeBuf + cfg.page(1))
                && (c.routeId != Some(0) && c.routeId != Some(1) ==> c'.writeBuf == c.writeBuf + cfg.page(999))
                && c' == c.(writeBuf := c'.writeBuf, state := Sending)
                && e.slab == s.(slots := s.slots[id := Some(c')]))
  {
  }

  class Counter {
    var totalConns: int

    constructor () { totalConns := 0; }
  }

  method ParseStage(cfg: Config, id: nat, slab: ConnTable, io: Io) returns (next: Option<nat>, panicked: bool)
    requires slab.Valid()
    modifies slab
    ensures slab.Valid()
    ensures Effect(slab.Abstract(), next, false, panicked) == ProcessId(cfg, PARSE, id, old(slab.Abstract()), io)
  {
    next, panicked := None, false;
    var found := slab.GetMut(id);
    if found.None? {
      return;
    }
    var conn := found.value;
    if conn.stream.Some? && io.Read? {
      conn := conn.(readBuf := conn.readBuf + io.input);
    }
    var answer := cfg.parse(conn.readBuf);
    panicked := answer.Panics?;
    if answer.Good? {
      conn := conn.(requestMethod := Some(answer.requestMethod), requestPath := Some(answer.path));
      conn := conn.(state := Routed);
      conn := conn.(readBuf := []);
      next := Some(id);
    } else if answer.Bad? {
      conn := conn.(state := Closed);
    }
    slab.WriteBack(id, conn);
  }

  method RouteStage(cfg: Config, id: nat, slab: ConnTable, io: Io) returns (next: Option<nat>)
    requires slab.Valid()
    modifies slab
    ensures slab.Valid()
    ensures Effect(slab.Abstract(), next, false, false) == ProcessId(cfg, ROUTE, id, old(slab.Abstract()), io)
  {
    var found := slab.GetMut(id);
    if found.None? {
      return None;
    }
    var conn := found.value;
    var route := 999;
    if conn.requestPath == Some(Text("/")) {
      route := 0;
    } else if conn.requestPath == Some(Text("/api/test")) {
      route := 1;
    }
    conn := conn.(routeId := Some(route));
    conn := conn.(state := Processing);
    slab.WriteBack(id, conn);
    return Some(id);
  }

  method AppStage(cfg: Config, id: nat, slab: ConnTable, io: Io) returns (next: Option<nat>)
    requires slab.Valid()
    modifies slab
    ensures slab.Valid()
    ensures Effect(slab.Abstract(), next, false, false) == ProcessId(cfg, APP, id, old(slab.Abstract()), io)
  {
    var found := slab.GetMut(id);
    if found.None? {
      return None;
    }
    var conn := found.value;
    var response;
    if conn.routeId == Some(0) {
      response := cfg.page(0);
    } else if conn.routeId == Some(1) {
      response := cfg.page(1);
    } else {
      response := cfg.page(999);
    }
    conn := conn.(writeBuf := conn.writeBuf + response);
    conn := conn.(state := Sending);
    slab.WriteBack(id, conn);
    return Some(id);
  }

  /** Marks the connection closed, counts it down and frees its slot. */
  method CloseConn(id: nat, conn: ConnState, slab: ConnTable, metrics: Counter)
    requires slab.Valid() && Occupied(slab.Abstract(), id)
    modifies slab, metrics
    ensures slab.Valid()
    ensures slab.Abstract() == RemoveConn(PutConn(old(slab.Abstract()), id, conn.(state := Closed)), id)
    ensures metrics.totalConns == old(metrics.totalConns) - 1
  {
    hide SlabInv, RemoveConn;
    slab.WriteBack(id, conn.(state := Closed));
    metrics.totalConns := metrics.totalConns - 1;
    slab.Remove(id);
  }

  method NetOutStage(cfg: Config, id: nat, slab: ConnTable, io: Io, metrics: Counter) returns (next: Option<nat>)
    requires slab.Valid()
    modifies slab, metrics
    ensures slab.Valid()
    ensures var e := ProcessId(cfg, NET_OUT, id, old(slab.Abstract()), io);
            && slab.Abstract() == e.slab && next == e.next && !e.aborted
            && metrics.totalConns == old(metrics.totalConns) - if e.closed then 1 else 0
  {
    hide SlabInv, RemoveConn, PutConn, Taken, OccupiedCount;
    next := None;
    var found := slab.GetMut(id);
    if found.None? {
      return;
    }
    var conn := found.value;
    if conn.stream.Some? {
      if io.WriteFailed? {
        CloseConn(id, conn, slab, metrics);
        return;
      }
      conn := conn.(bytesWritten := conn.bytesWritten + Taken(conn, io));
      if conn.bytesWritten >= |conn.writeBuf| {
        CloseConn(id, conn, slab, metrics);
        return;
      }
    }
    slab.WriteBack(id, conn);
  }
}
