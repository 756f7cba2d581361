/** The pipeline with the HTTP/1.1 parser in it. */
module Served {
  import opened Bytes
  import opened ConnSlab
  import opened Stages
  import opened Pipeline
  import opened PipelineTheorems
  import opened PipelineDeath
  import HttpParser
  import opened HttpRoundTrip

  /** What Parse makes of the parser's outcome. */
  function Answer(o: HttpParser.Outcome): ParseAnswer
  {
    match o
    case Complete(request, _) => Good(request.requestMethod, request.path)
    case Incomplete => NeedMore
    case Invalid => Bad
    case Aborted => Panics
  }

  /** On ASCII buffers the stage's parser is the parser of `HttpParser`. */
  ghost predicate ParsesHttp(cfg: Config)
  {
    forall buf :: HttpParser.Ascii(buf) ==> cfg.parse(buf) == Answer(HttpParser.ParseSpec(buf))
  }

  /** Under every interleaving of all threads, a peer that sent a well-formed request for a path,
      with anything behind it, is sent a prefix of the page of that path and nothing else, and the
      whole page once its connection was closed after a complete write. */
  lemma PrintedRequestGetsItsPage(cfg: Config, steps: seq<Step>, k: nat,
                                  m: Data, p: Data, v: Data, fs: seq<Field>, body: Data, rest: Data)
    requires ParsesHttp(cfg) && k < |Run(cfg, steps).peers|
    requires Word(m) && Word(p) && Word(v) && GoodFields(fs) && HttpParser.Ascii(body) && HttpParser.Ascii(rest)
    requires var all := fs + [LengthField(|body|)];
             |Print(m, p, v, all, body)| < TWO_64
             && Run(cfg, steps).peers[k].received == Print(m, p, v, all, body) + rest
    ensures var s := Run(cfg, steps);
            && s.peers[k].sent <= cfg.page(RouteOf(p))
            && (k in s.answered ==> s.peers[k].sent == cfg.page(RouteOf(p)))
  {
    hide Run, Print, RouteOf, HttpParser.ParseSpec, HttpParser.Ascii, GoodFields, Word, LengthField;
    RequestRoundTrip(m, p, v, fs, body, rest);
    PeersGetOwnResponse(cfg, steps, k);
  }

  /** The page of a path, by its bytes. */
  function PageNumber(path: Data): nat
  {
    if path == [47] then 0 else if path == [47, 97, 112, 105, 47, 116, 101, 115, 116] then 1 else 999
  }

  /** The same by numbers: whoever asks for `/` is sent page 0 and nothing else, for `/api/test` page
      1, for anything else page 999. */
  lemma PrintedRequestGetsItsNumberedPage(cfg: Config, steps: seq<Step>, k: nat,
                                          m: Data, p: Data, v: Data, fs: seq<Field>, body: Data, rest: Data)
    requires ParsesHttp(cfg) && k < |Run(cfg, steps).peers|
    requires Word(m) && Word(p) && Word(v) && GoodFields(fs) && HttpParser.Ascii(body) && HttpParser.Ascii(rest)
    requires var all := fs + [LengthField(|body|)];
             |Print(m, p, v, all, body)| < TWO_64
             && Run(cfg, steps).peers[k].received == Print(m, p, v, all, body) + rest
    ensures var s := Run(cfg, steps);
            && s.peers[k].sent <= cfg.page(PageNumber(p))
            && (k in s.answered ==> s.peers[k].sent == cfg.page(PageNumber(p)))
  {
    hide Run, Print, RouteOf, HttpParser.ParseSpec, HttpParser.Ascii, GoodFields, Word, LengthField;
    PrintedRequestGetsItsPage(cfg, steps, k, m, p, v, fs, body, rest);
    RoutesByBytes();
  }

  /** The step in which Parse reads a request announcing 2^64 - 1 bytes is the thread's last. */
  lemma HugeLengthStopsParse(cfg: Config, s: Sys, id: nat, m: Data, p: Data, v: Data, rest: Data)
    requires ParsesHttp(cfg) && Inv(cfg, s) && s.hands[PARSE] == Working(id)
    requires Word(m) && Word(p) && Word(v) && HttpParser.Ascii(rest)
    ensures var request := Print(m, p, v, [LengthField(TWO_64 - 1)], []) + rest;
            Move(cfg, s, Work(PARSE, Read(request))).hands[PARSE].Dead?
  {
    hide Inv, Print, LengthField, Word, HttpParser.ParseSpec, HttpParser.Ascii;
    var request := Print(m, p, v, [LengthField(TWO_64 - 1)], []) + rest;
    HugeLengthAborts(m, p, v, rest);
    ShapeOf(cfg, s);
    FreshAtParse(cfg, s, id);
    assert ReadInto(s.slab.slots[id].value, Read(request)) == request;
    DiesIff(cfg, s, Work(PARSE, Read(request)), PARSE);
  }

  lemma FreshAtParse(cfg: Config, s: Sys, id: nat)
    requires Inv(cfg, s) && s.hands[PARSE] == Working(id)
    ensures Occupied(s.slab, id) && s.slab.slots[id].value.readBuf == [] && s.slab.slots[id].value.stream.Some?
  {
    hide SlabInv, Counting, PeersInv, Counters, Locking;
    assert HandOk(cfg, s.slab, s.peers, PARSE, s.hands[PARSE]);
  }
}
