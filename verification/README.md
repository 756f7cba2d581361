# NERS: proofs about the HTTP/2 codec, the connection state machine and the stage pipeline

NERS is a staged HTTP server. This project models four parts of it and proves what they promise
over all inputs, all runs and all interleavings.

1. **HPACK and HTTP/2 frames.** Prefix-coded integers and strings (`hpack_integer.dfy`), the
   evicting dynamic table (`hpack_table.dfy`), the static table (`hpack_static.dfy`), the decoder
   (`hpack_decoder.dfy`) with a meaning for everything it accepts (`hpack_meaning.dfy`), the
   encoder and its lockstep with any decoder (`hpack_encoder.dfy`), frames (`frames.dfy`) and frame
   streams cut into chunks (`frame_stream.dfy`), and what stands on the wire, byte by byte, for both
   (`hpack_wire.dfy`, `frame_wire.dfy`).
2. **The HTTP/2 connection.** Streams (`stream.dfy`), the connection (`connection.dfy`), invariants
   of all its runs (`connection_runs.dfy`), SETTINGS and window arithmetic
   (`connection_windows.dfy`), what a connection holds told by its events alone
   (`connection_facts.dfy`), and delivery from one endpoint to another (`delivery.dfy`).
3. **The multi-core pipeline.** The lock-free ring as single loads and stores (`ring_queue.dfy`),
   the free-list slab (`conn_slab.dfy`), the stages' `process_one` (`stages.dfy`), six threads
   interleaved (`pipeline.dfy`, `pipeline_safety.dfy`, `pipeline_theorems.dfy`), the executor's loop
   (`executor.dfy`, `executor_runs.dfy`), the accept loop (`accept.dfy`), when connections are lost
   (`pipeline_drops.dfy`) and threads die (`pipeline_death.dfy`), the pipeline over its rings load by
   load (`pipeline_rings.dfy`), and with the HTTP/1.1 parser in it (`served.dfy`).
4. **Around them.** The HTTP/1.1 parser (`http_parser.dfy`) with a printer for it
   (`http_roundtrip.dfy`), the latency maximum under any number of threads (`stage_metrics.dfy`), the
   tuning engine and the policies' clamps (`tuner.dfy`), and integers and bytes (`bytes.dfy`).

`dafny verify dfyconfig.toml` checks the whole project.

Objects that the source updates in place are classes here, and each method is proved against a
function of the old state; the theorems are then about those functions, over runs of any length.

## Conventions

- Bytes are integers below 256 and bit tests are written arithmetically. Integer widths are
  explicit: i32 and u64 results wrap as in a release build (the manifests do not turn overflow
  checks on), `saturating_add` saturates, a shift count is taken modulo 64, and `usize` has 64 bits.
  `SlicePanic`, `Aborted` and `Panics` stand for a panic, which ends the calling thread.
- Header strings are byte sequences; `from_utf8_lossy` is the identity, as it is on valid UTF-8.
- Encoder and decoder each have the fields and eviction loops of `DynamicTable`; the class is
  written once. A stream is borrowed out of the connection's map, changed and written back.
- Atomics are sequentially consistent and every load and store is a step of its own. In the
  pipeline a queue operation is one step of a bounded FIFO, which `PipelineRings` shows to be no loss:
  the pipeline over rings, load by load, refines it. Locking, `process_one`, each counter update and
  unlocking are separate steps.
- What a socket read found and how much a write took are arbitrary (`Io`); the request parser and
  the page of each route are parameters of the pipeline (`Config`).

## What the proofs say about the code

- A new stream's `send_window` starts from the local initial window, not from the peer's as section
  6.9.2 of RFC 7540 asks. `FollowsRfcIffSettingsAgreed` gives the exact condition,
  `PeerInitialWindowIgnored` a run where it fails.
- A stream's send window saturates and never gets the lost credit back: it is exact at the end of a
  run if and only if it never saturated in it (`ExactAtTheEndIff`, `SendWindowTelescopes`, and
  `SaturationLosesCredit` for a run where it is not); the connection's own window wraps
  (`ConnectionWindowExactIff`, `ConnectionWindowWraps`).
- An HTTP/1.1 request line followed at once by the empty line never completes
  (`HeaderlessRequestNeverCompletes`); `CanCompleteIff` says exactly which heads can.
- The multi-core pipeline never looks at an id again that it dropped, and its slot stays occupied
  (`DroppedForever`). It drops an id if and only if the request was incomplete at its only read,
  malformed or made the parser panic, the next queue was full, or the response was written in part (`DropsIff`,
  `DroppedIffLost`); `EmptyReadIsDropped` is such a run. The comment "put back in queue"
  (ners-core/src/stage.rs:209) does not describe the code.
- The HPACK encoder sends a header as an index if and only if it is the first static entry of its
  name, and never refers to the dynamic table it keeps (`IndexedIff`); so `:method: POST` is sent as a
  literal (`PostIsALiteral`).
- The aggressive policy's "increase" enlarges a queue only from 5 to 9999 entries and shrinks it above
  10000 (`AggressiveIncreaseByLength`; `IncreaseThatShrinks` is a queue of 20000).
- The HPACK decoder takes a Huffman-coded string for raw bytes (`HuffmanBitIgnored`).
- The HPACK decoder panics instead of returning an error exactly on the blocks of
  `DecoderPanicsIff`; `OverlongNamePanics` is one.
- A request whose announced length overflows makes the parser panic (`AbortedIff`,
  `HugeLengthAborts`). In the multi-core pipeline that ends the Parse thread, and nothing is taken
  from its queue again (`DeadIff`, `DeadForever`, `HugeLengthStopsParse`).
- `remove` breaks the free list exactly when the slot is already empty (`RemoveNeedsOccupied`); the
  pipeline never does that (`RemovesOccupiedSlots`).

## Model

| member | source | states |
|---|---|---|
| `HpackInteger.DecodeInteger` | ners-proto-http/src/h2/hpack.rs:142-173 | the decoding loop, wrapping sums and wrapped shift counts included, computes the integer that `IntegerRoundTrip` shows to be the one encoded, or the source's error |
| `HpackInteger.EncodeInteger` | ners-proto-http/src/h2/hpack.rs:335-349 | appends the prefix byte with its flag bits and the seven-bit groups that `IntegerRoundTrip` decodes |
| `HpackInteger.IntegerRoundTrip` | ners-proto-http/src/h2/hpack.rs:142-173 | every 64-bit value comes back from its encoding with the exact byte count, whatever follows, and the flag bits of the first byte survive |
| `HpackInteger.ContinueUndoesRest` | ners-proto-http/src/h2/hpack.rs:152-172 | the continuation loop entered anywhere undoes the continuation bytes from there on, adding the shifted rest to the partial sum |
| `HpackInteger.IntegerLength` | ners-proto-http/src/h2/hpack.rs:335-349 | no 64-bit value takes more than eleven bytes |
| `HpackInteger.IntegerNeverOverflows` | ners-proto-http/src/h2/hpack.rs:152-172 | over the encoder's output every shift is at most 63 and every partial sum, prefix included, at most the value |
| `HpackInteger.StringRoundTrip` | ners-proto-http/src/h2/hpack.rs:201-224 | a raw string comes back with its exact byte count, whatever follows |
| `HpackInteger.IntegerIgnoresSuffix` | ners-proto-http/src/h2/hpack.rs:142-173 | an integer that decodes is self-delimiting: appended bytes change nothing |
| `HpackInteger.StringIgnoresSuffix` | ners-proto-http/src/h2/hpack.rs:201-224 | a string that decodes is self-delimiting |
| `HpackWire.IntegerStandsFor` | ners-proto-http/src/h2/hpack.rs:142-173 | any encoding, canonical or not and overflowing or not: the prefix if it is not all ones, else that plus the sum of the seven-bit groups, least significant first, shifted modulo 64 and summed modulo 2^64 |
| `HpackWire.PrintedInteger` | ners-proto-http/src/h2/hpack.rs:335-349 | what is written: flags plus value, or flags plus all ones and one run of groups whose last byte alone has its top bit clear |
| `HpackWire.PrintedString` | ners-proto-http/src/h2/hpack.rs:351-355 | a string is written raw: Huffman bit 0, the length, and the very bytes |
| `HpackWire.HuffmanBitIgnored` | ners-proto-http/src/h2/hpack.rs:201-224 | a string that claims to be Huffman-coded is taken for raw bytes |
| `HpackTable.FitIsLongest` | ners-proto-http/src/h2/hpack.rs:245-260 | `Fit` keeps k entries if and only if the k newest fit the budget: it is the longest fitting prefix |
| `HpackTable.FitAfterInsert` | ners-proto-http/src/h2/hpack.rs:245-260 | evicting before an insertion loses nothing that would not be evicted after it |
| `HpackTable.EvictionIsExact` | ners-proto-http/src/h2/hpack.rs:245-260 | after any run of insertions the table is the longest prefix of the newest-first history that fits |
| `HpackTable.OversizedInsertEmpties` | ners-proto-http/src/h2/hpack.rs:245-260 | an insertion empties the table if and only if the entry is larger than the limit |
| `HpackTable.ResizedTableIsExact` | ners-proto-http/src/h2/hpack.rs:245-269 | with arbitrary resizes the table is a prefix of its history, and holds the k newest entries if and only if they fitted together at every moment since they were inserted |
| `HpackTable.TablesNest` | ners-proto-http/src/h2/hpack.rs:357-371 | of two tables fed the same insertions the smaller stays a prefix of the larger |
| `HpackTable.DynamicTable.AddEntry` | ners-proto-http/src/h2/hpack.rs:245-260 | the eviction loop, which subtracts sizes one by one without underflow, leaves the longest fitting prefix of new entry plus old table, and `current_size` is its total |
| `HpackTable.DynamicTable.SetLimit` | ners-proto-http/src/h2/hpack.rs:262-269 | the resize loop leaves the longest prefix that fits the new limit |
| `HpackStatic.FindStatic` | ners-proto-http/src/h2/hpack.rs:323-333 | the loop returns the first static entry with this name and whether that entry, not a later one, has the value |
| `HpackStatic.FindFrom` | ners-proto-http/src/h2/hpack.rs:323-333 | the entry found has the name, no earlier one has, and `hasValue` holds if and only if the whole header equals it; None means that no entry has the name |
| `HpackStatic.AppendixA1To14` | ners-proto-http/src/h2/hpack.rs:9-71 | entries 1 to 14 of the static table, by number |
| `HpackStatic.AppendixA15To24` | ners-proto-http/src/h2/hpack.rs:9-71 | entries 15 to 24 of the static table, by number |
| `HpackStatic.AppendixA25To34` | ners-proto-http/src/h2/hpack.rs:9-71 | entries 25 to 34 of the static table, by number |
| `HpackStatic.AppendixA35To44` | ners-proto-http/src/h2/hpack.rs:9-71 | entries 35 to 44 of the static table, by number |
| `HpackStatic.AppendixA45To54` | ners-proto-http/src/h2/hpack.rs:9-71 | entries 45 to 54 of the static table, by number |
| `HpackStatic.AppendixA55To61` | ners-proto-http/src/h2/hpack.rs:9-71 | entries 55 to 61 of the static table, by number |
| `HpackDecoder.Decoder.GetIndexed` | ners-proto-http/src/h2/hpack.rs:226-243 | index 0 and indices beyond both tables are errors; otherwise the static or the dynamic entry, newest first |
| `HpackDecoder.Decoder.DecodeString` | ners-proto-http/src/h2/hpack.rs:201-224 | the string, its length, or the source's error, slices with wrapped bounds included |
| `HpackDecoder.Decoder.DecodeLiteral` | ners-proto-http/src/h2/hpack.rs:175-199 | the literal from its own name or a table's; the table changes only by the new entry and only on success |
| `HpackDecoder.Decoder.Decode` | ners-proto-http/src/h2/hpack.rs:106-140 | the whole loop: the headers in order or the first error, and the table that either leaves behind |
| `HpackDecoder.LiteralIgnoresSuffix` | ners-proto-http/src/h2/hpack.rs:175-199 | a literal that decodes is self-delimiting |
| `HpackDecoder.DecodeConcat` | ners-proto-http/src/h2/hpack.rs:106-140 | if block a decodes, decoding a followed by b is decoding a, then b with the table that a left |
| `HpackDecoder.DecoderPanicsIff` | ners-proto-http/src/h2/hpack.rs:201-224 | the decoder panics if and only if the first representation it cannot decode is a literal one of whose strings announces a length that with its position reaches 2^64 |
| `HpackDecoder.OverlongNamePanics` | ners-proto-http/src/h2/hpack.rs:201-224 | there is such a block, of at most twelve bytes, whatever the table |
| `HpackMeaning.DecodingIsInterpreting` | ners-proto-http/src/h2/hpack.rs:106-269 | for every list of well-formed representations, errors included, decoding their serialization gives the headers and table of an interpreter that never sees a byte |
| `HpackWire.IndexedMeans` | ners-proto-http/src/h2/hpack.rs:226-243 | what decoding an index gives, by number: 0 an error, 1 to 61 a static entry, then name and value of the same dynamic entry, newest first, beyond it an error; nothing is inserted |
| `HpackWire.LiteralMeans` | ners-proto-http/src/h2/hpack.rs:175-199 | a literal with its own name in each mode: only the incremental one inserts, an entry of 32 bytes more than its strings |
| `HpackWire.NamedLiteralMeans` | ners-proto-http/src/h2/hpack.rs:175-199 | a literal named by an index in each mode, static, dynamic or invalid |
| `HpackWire.SizeUpdateMeans` | ners-proto-http/src/h2/hpack.rs:262-269 | a size update emits nothing and keeps the longest prefix that fits |
| `HpackWire.FirstByteTells` | ners-proto-http/src/h2/hpack.rs:110-135 | the first byte tells the representation, by the ranges of section 6 of RFC 7541 |
| `HpackWire.InsertedComesBack` | ners-proto-http/src/h2/hpack.rs:226-260 | after any header list, the k-th newest of the inserted headers that still fits, sent as the one index 62 + k, comes back whole |
| `HpackMeaning.EvictedNameSurvives` | ners-proto-http/src/h2/hpack.rs:175-199 | a name taken from an entry that its own insertion evicts is still the right name |
| `HpackMeaning.AcceptedHasMeaning` | ners-proto-http/src/h2/hpack.rs:106-140 | whatever the decoder accepts is some list of representations, whose meaning is the result |
| `HpackEncoder.Encoder.EncodeHeader` | ners-proto-http/src/h2/hpack.rs:296-321 | one header: appends the spelling of its representation, and inserts exactly when that is not an indexed field |
| `HpackEncoder.Encoder.Encode` | ners-proto-http/src/h2/hpack.rs:296-321 | the whole loop: the block that `BlockRoundTrip` decodes, and the insertions a decoder of that block performs |
| `HpackEncoder.IndexedIff` | ners-proto-http/src/h2/hpack.rs:296-333 | a header is sent as an index if and only if it is the first static entry of its name, and no index sent reaches into the dynamic table |
| `HpackEncoder.PostIsALiteral` | ners-proto-http/src/h2/hpack.rs:323-333 | `:method: POST`, entry 3 of the static table, is sent as a literal |
| `HpackWire.PrintedHeader` | ners-proto-http/src/h2/hpack.rs:296-355 | every byte of an encoded header with strings below 127 bytes: 0x80 plus an index, or 0x40 plus a name index and the value, or 0x40 and both strings |
| `HpackWire.PrintedValueIsRaw` | ners-proto-http/src/h2/hpack.rs:296-355 | whatever the lengths, a literal ends with its value, raw, behind a length with Huffman bit 0 |
| `HpackEncoder.BlockRoundTrip` | ners-proto-http/src/h2/hpack.rs:296-371 | every encoded block decodes, in a table of any size and content, to the list it came from, inserting what the encoder inserted |
| `HpackEncoder.RunRoundTrip` | ners-proto-http/src/h2/hpack.rs:296-371 | the same over any number of blocks and from any pair of tables |
| `HpackEncoder.Lockstep` | ners-proto-http/src/h2/hpack.rs:106-371 | fresh encoder and decoder of any two sizes: every block decodes exactly, each table is the longest fitting prefix of one common history, equal sizes stay equal, unequal ones nested |
| `Frames.ParseFrame` | ners-proto-http/src/h2/frame.rs:153-299 | the parser with its settings loop: frame, error or nothing, and what stays in the buffer |
| `Frames.Serialize` | ners-proto-http/src/h2/frame.rs:302-374 | appends nine header bytes and the payload that `FrameRoundTrip` parses |
| `Frames.FrameRoundTrip` | ners-proto-http/src/h2/frame.rs:153-374 | for every frame in range, parsing its bytes followed by anything gives the frame and leaves what followed |
| `Frames.RoundTripIffInRange` | ners-proto-http/src/h2/frame.rs:302-374 | the printer loses nothing if and only if the fields fit the wire format |
| `Frames.ParsedInRange` | ners-proto-http/src/h2/frame.rs:175-298 | every frame the parser produces is in range |
| `Frames.ReparseIsIdentity` | ners-proto-http/src/h2/frame.rs:153-374 | printing a parsed frame and parsing it again is the identity, whatever the first parse ignored |
| `FrameWire.PrintedFrame` | ners-proto-http/src/h2/frame.rs:302-374 | every byte printed, frame by frame: length, numeric type code, exact flag byte, reserved bit 0, stream id, and each payload field as the number its bytes spell |
| `FrameWire.ParsedFrame` | ners-proto-http/src/h2/frame.rs:153-299 | every field parsed, frame by frame and for any flag byte: bit 0 and bit 2 whatever the others, reserved bits and surplus payload ignored |
| `FrameWire.AnswerIff` | ners-proto-http/src/h2/frame.rs:153-299 | for any buffer, exactly when the parser wants more, fails and how, what it consumes, or yields a frame |
| `FrameWire.SettingsRead` | ners-proto-http/src/h2/frame.rs:187-197 | the i-th six bytes of a SETTINGS payload are its i-th entry, an incomplete rest is ignored |
| `FrameStream.DrainBuffer` | ners-proto-http/src/h2/frame.rs:153-173 | calling `parse` until it yields no frame: the frames, the leftover bytes and the error of `Drain` |
| `FrameStream.ParsedShrinks` | ners-proto-http/src/h2/frame.rs:153-173 | a frame takes exactly nine bytes plus its announced length |
| `FrameStream.ParseIgnoresSuffix` | ners-proto-http/src/h2/frame.rs:153-173 | once `parse` has decided, more bytes only stay behind |
| `FrameStream.ChunkingIndependence` | ners-proto-http/src/h2/frame.rs:153-173 | however a byte stream is cut into chunks, frames, leftover bytes and first error are those of the whole |
| `FrameStream.SameStreamSameFrames` | ners-proto-http/src/h2/frame.rs:153-173 | two ways to cut one stream give the same receiver |
| `FrameStream.FrameListRoundTrip` | ners-proto-http/src/h2/frame.rs:153-374 | frames printed back to back are read back in order; an unfinished frame behind them stays |
| `FrameStream.FramesOverChunks` | ners-proto-http/src/h2/frame.rs:153-374 | a frame list arrives intact over a stream cut anywhere |
| `Streams.Stream.OpenStream` | ners-proto-http/src/h2/stream.rs:65-69 | Idle becomes Open and no other state changes |
| `Streams.Stream.HalfCloseRemote` | ners-proto-http/src/h2/stream.rs:72-78 | Open becomes half-closed (remote), half-closed (local) becomes Closed, nothing else changes |
| `Streams.Stream.HalfCloseLocal` | ners-proto-http/src/h2/stream.rs:81-87 | Open becomes half-closed (local), half-closed (remote) becomes Closed, nothing else changes |
| `Streams.Stream.Close` | ners-proto-http/src/h2/stream.rs:90-92 | any state becomes Closed and nothing else changes |
| `Streams.Stream.UpdateSendWindow` | ners-proto-http/src/h2/stream.rs:105-107 | adds to the send window, saturating at the bounds of i32 |
| `Connection.H2Connection.constructor` | ners-proto-http/src/h2/connection.rs:68-86 | a fresh connection: default remote settings, both windows from the local initial size, the decoder's table at 4096, the encoder's at the announced size |
| `Connection.H2Connection.ProcessPreface` | ners-proto-http/src/h2/connection.rs:94-118 | answers true exactly on the client preface and then queues the local settings |
| `Connection.H2Connection.UpdateAllSendWindows` | ners-proto-http/src/h2/connection.rs:134-139 | every stored stream, in whatever order the map yields them, is credited exactly once |
| `Connection.H2Connection.ProcessSettings` | ners-proto-http/src/h2/connection.rs:126-150 | the entries in order, 0x4 moving every stream by the wrapped difference |
| `Connection.H2Connection.ProcessHeaders` | ners-proto-http/src/h2/connection.rs:153-170 | a block that decodes opens or continues the stream; one that does not changes the decoder's table only |
| `Connection.H2Connection.ProcessData` | ners-proto-http/src/h2/connection.rs:171-186 | body and both receive windows change only for a stored stream that may receive |
| `Connection.H2Connection.ProcessWindowUpdate` | ners-proto-http/src/h2/connection.rs:187-193 | stream 0 credits the connection, wrapping; a stored stream saturates; an unknown one is ignored |
| `Connection.H2Connection.ProcessFrame` | ners-proto-http/src/h2/connection.rs:121-212 | the whole new state and the result of every frame type, as the theorems below use them |
| `Connection.H2Connection.SendHeaders` | ners-proto-http/src/h2/connection.rs:215-231 | queues the encoded block, and on a stored stream records the list and closes the local end if asked |
| `Connection.H2Connection.SendData` | ners-proto-http/src/h2/connection.rs:234-246 | queues the data, and closes the local end of a stored stream if asked |
| `Connection.H2Connection.TakeOutgoing` | ners-proto-http/src/h2/connection.rs:249-251 | returns the queue and empties it |
| `ConnectionRuns.StepKeepsInv` | ners-proto-http/src/h2/connection.rs:121-251 | one call keeps the invariant and moves every stored stream forward |
| `ConnectionRuns.RunsKeepInv` | ners-proto-http/src/h2/connection.rs:121-251 | in every reachable state no stored stream is Idle or Reserved, receive windows modulo 2^32 are the initial size minus what was received, and `last_stream_id` is the largest key ever created |
| `ConnectionRuns.RunsMoveForward` | ners-proto-http/src/h2/stream.rs:65-92 | between any two moments of a run streams stay stored, go only forward, Closed is absorbing, bodies only grow and are frozen once the remote side ended |
| `ConnectionRuns.ReceiveWindowsConserved` | ners-proto-http/src/h2/connection.rs:158-186 | for any settings and any run: each stream's window plus its body, and the connection's window plus the sum of all bodies over the map, equal the local initial window if and only if the remaining window is within i32 |
| `ConnectionWindows.RunShadow` | ners-proto-http/src/h2/connection.rs:128-145 | a stored stream's send window is moved by SETTINGS 0x4 and its own WINDOW_UPDATEs and by nothing else |
| `ConnectionWindows.TelescopesIffNeverSaturates` | ners-proto-http/src/h2/stream.rs:105-107 | for values up to 2^31-1, if the sum of creation value, change of the initial size and increments never leaves i32, the window is that sum at every moment; and only then |
| `ConnectionWindows.WindowAccounts` | ners-proto-http/src/h2/stream.rs:105-107 | after every run of operations the window is that sum minus everything that saturation has cut off |
| `ConnectionWindows.ExactAtTheEndIff` | ners-proto-http/src/h2/stream.rs:105-107 | what was cut off is never given back: the window at the end is at most the sum, and equal to it if and only if the sum never left i32 on the way |
| `ConnectionWindows.SendWindowTelescopes` | ners-proto-http/src/h2/connection.rs:128-145 | the same over whole runs of the connection, however many 0x4 entries a frame holds: the exact sum minus what was cut off, and exact if and only if nothing ever was |
| `ConnectionWindows.SaturationLosesCredit` | ners-proto-http/src/h2/stream.rs:105-107 | a run of a connection with default settings whose stream ends 65535 below the exact sum |
| `ConnectionWindows.FollowsRfcIffSettingsAgreed` | ners-proto-http/src/h2/connection.rs:158-164 | after any run, a new stream's window differs from the peer's announced size plus all increments by local minus remote initial size at its creation, less what saturation cut off; so without saturation it is that window if and only if the sizes agreed, and with a local size not above the remote one if and only if they agreed and nothing saturated |
| `ConnectionWindows.PeerInitialWindowIgnored` | ners-proto-http/src/h2/connection.rs:158-164 | a run with default settings in which the peer's announced 100 is ignored and 65535 used |
| `ConnectionFacts.OutgoingConserved` | ners-proto-http/src/h2/connection.rs:121-251 | over any run, frames taken plus frames waiting are, in order, exactly what the events called for: each SETTINGS and PING answered once, each send queued once, nothing lost or repeated by `take_outgoing` |
| `ConnectionFacts.RemoteSettingsAreLast` | ners-proto-http/src/h2/connection.rs:126-150 | after any run each remote setting is the last value announced for its identifier, or what held before |
| `ConnectionFacts.DecoderIsItsHistory` | ners-proto-http/src/h2/connection.rs:153-156 | after any run the decoder's table is a function of the header blocks received |
| `ConnectionFacts.StreamsAreTheirHistory` | ners-proto-http/src/h2/connection.rs:153-246 | told by the events alone: a stream is stored if and only if some HEADERS for it was accepted; its state follows from which ends were closed and whether it was reset, in whatever order; its header lists and body are those of the events, and its priority fields never change |
| `ConnectionFacts.ConnectionWindowExactIff` | ners-proto-http/src/h2/connection.rs:187-190 | the connection's send window is the local initial size plus all increments for stream 0 if and only if that sum is below 2^31 |
| `ConnectionFacts.ConnectionWindowWraps` | ners-proto-http/src/h2/connection.rs:187-190 | a fresh connection with default settings whose window one increment brings below zero |
| `ConnectionFacts.FlagsAreEvents` | ners-proto-http/src/h2/connection.rs:94-202 | the three flags are up if and only if an acknowledgement, a GOAWAY, a preface has been received |
| `ConnectionFacts.PrefaceBytes` | ners-proto-http/src/h2/connection.rs:94-103 | the client preface, byte by byte |
| `ConnectionFacts.PrefaceAnnouncesSettings` | ners-proto-http/src/h2/connection.rs:94-118 | after the preface one frame is queued, and processed by any peer it gives that peer exactly the local table size, stream limit, window and frame size |
| `ConnectionFacts.DefaultAnnouncement` | ners-proto-http/src/h2/connection.rs:22-33 | the defaults announced, and those assumed of a silent peer, in numbers |
| `ConnectionFacts.RefusedIff` | ners-proto-http/src/h2/connection.rs:153-157 | a frame is refused if and only if it is HEADERS whose block does not decode; the error is reported and nothing but the decoder has changed |
| `ConnectionFacts.EncoderIsItsHistory` | ners-proto-http/src/h2/connection.rs:215-231 | after any run the encoder's table has the announced size and holds the header lists sent |
| `Delivery.ProcessedDelivers` | ners-proto-http/src/h2/connection.rs:153-246 | frame by frame, every stream at the receiver holds what the calls on it say, and no frame is refused |
| `Delivery.EndToEndDelivery` | ners-proto-http/src/h2/connection.rs:153-246 | any calls on A, printed, cut into any chunks, parsed and processed by a fresh B give on every stream the last header list sent and the data sent after the first HEADERS through the first END_STREAM |
| `RingQueue.MoveRefinesFifo` | ners-core/src/queue.rs:38-70 | every atomic step of either side, stale local copies included, keeps the invariant and is invisible or a legal return of a bounded FIFO |
| `RingQueue.RunsAreFifo` | ners-core/src/queue.rs:38-70 | under every interleaving, the values taken are a prefix of the successfully pushed ids, in order, and never more than capacity-1 wait |
| `RingQueue.FailuresAreHonest` | ners-core/src/queue.rs:38-70 | a failed push saw a full queue and a failed pop an empty one at its load of the other index; the `usize::MAX` branch is taken exactly when that value is at the front |
| `RingQueue.RealIdsAreNeverLost` | ners-core/src/queue.rs:64-69 | in every run in which no one pushes `usize::MAX` itself, that branch is never taken |
| `RingQueue.UnreadSlotsKept` | ners-core/src/queue.rs:38-50 | no step overwrites a slot whose value was not popped |
| `RingQueue.LenDuringRun` | ners-core/src/queue.rs:73-82 | in any run, with both sides running between its two loads, `len` reports the ids pushed by the second load and not popped by the first, exactly if and only if they are fewer than the capacity, and short by whole capacities otherwise |
| `RingQueue.LenWhenQuiet` | ners-core/src/queue.rs:73-82 | without interference `len` is the number of waiting ids |
| `RingQueue.SpscRing.Push` | ners-core/src/queue.rs:38-50 | for any id, succeeds if and only if one slot beyond the new value stays free, and appends |
| `RingQueue.SpscRing.Pop` | ners-core/src/queue.rs:54-70 | removes the oldest value and returns it, or None exactly when there is none or it is `usize::MAX` |
| `RingQueue.SpscRing.Length` | ners-core/src/queue.rs:73-82 | returns the number of waiting ids |
| `ConnSlab.InsertKeepsInv` | ners-core/src/conn.rs:118-125 | the free list stays duplicate-free and exactly the set of empty slots |
| `ConnSlab.RemoveNeedsOccupied` | ners-core/src/conn.rs:138-146 | removing an id in range keeps the free list exact if and only if the slot was occupied |
| `ConnSlab.NextSlot` | ners-core/src/conn.rs:101-146 | slots are handed out from 0, and the one freed last is reused first |
| `ConnSlab.ActiveCountIsOccupied` | ners-core/src/conn.rs:154-156 | capacity minus length of a duplicate-free list of exactly the empty slots is the number of occupied ones |
| `ConnSlab.ConnTable.constructor` | ners-core/src/conn.rs:101-115 | all slots empty and the free list ending with slot 0, the first to be given out |
| `ConnSlab.ConnTable.Insert` | ners-core/src/conn.rs:118-125 | takes an empty slot, or returns None exactly when there is none, and keeps the free list exact |
| `ConnSlab.ConnTable.Remove` | ners-core/src/conn.rs:138-146 | for any id: empties the slot and lists its id, ignoring one out of range; the slab stays valid if and only if the slot was occupied or the id out of range |
| `ConnSlab.ConnTable.Active` | ners-core/src/conn.rs:154-156 | counts the occupied slots |
| `Stages.ParseStage` | ners-core/src/stage.rs:187-220 | `process_one` of Parse: reads, parses, and hands the id on only for a complete request |
| `Stages.ParseMeans` | ners-core/src/stage.rs:197-219 | what each of the parser's answers does to the connection, and that only a complete request hands the id on |
| `Stages.RouteStage` | ners-core/src/stage.rs:289-307 | `process_one` of Route: the route of the path, 999 if there is none |
| `Stages.RouteMeans` | ners-core/src/stage.rs:298-306 | by bytes and numbers: `/` is route 0, `/api/test` route 1, any other path or none 999, and nothing else changes but the state |
| `Stages.AppStage` | ners-core/src/stage.rs:376-394 | `process_one` of App: appends the response of the route |
| `Stages.AppMeans` | ners-core/src/stage.rs:383-393 | by numbers: routes 0 and 1 get their own pages, every other route that of 999, appended to the write buffer |
| `Stages.NetOutStage` | ners-core/src/stage.rs:538-571 | `process_one` of NetOut: closes, counts down and removes exactly on a complete write or an error |
| `Executor.ProcessNext` | ners-core/src/executor.rs:16-28 | `process_one` of whichever stage the executor runs: slab, id handed on, counter and panic |
| `Executor.StageExecutor.RunBatch` | ners-core/src/executor.rs:90-114 | one pass of the loop over ring, slab and counter: at most a hundred ids, each processed and pushed in order, until the queue is empty or the thread panics |
| `ExecutorRuns.ItemIsARun` | ners-core/src/executor.rs:96-111 | one item of the executor is an uninterrupted passage of its thread through the pipeline: same slab, queues and counter, lock free again, the other threads untouched |
| `ExecutorRuns.BatchIsARun` | ners-core/src/executor.rs:95-114 | a whole pass of the executor is a run of the pipeline |
| `Accept.AcceptStreams` | ners-core/src/main.rs:61-76 | the accept loop over slab, counter and ring does exactly `AcceptSpec` |
| `Accept.AcceptTakesWhatFits` | ners-core/src/main.rs:61-76 | a batch of streams with no stage running in between: as many are taken and counted as there are free slots, the first of them queued in order, as many as fit |
| `Accept.AcceptIsARun` | ners-core/src/main.rs:61-76 | one accepted stream is an uninterrupted run of the accept thread in the pipeline |
| `Accept.BatchOfAcceptsIsARun` | ners-core/src/main.rs:61-76 | an uninterrupted batch of any number of streams is a run of the accept thread, with the slab, queue and counter of `AcceptSpec` |
| `PipelineTheorems.MoveKeepsInv` | ners-core/src/stage.rs:187-571 | every step of each of the six threads keeps the pipeline invariant |
| `PipelineTheorems.IdsAreExclusive` | ners-core/src/executor.rs:95-114 | in every run an id is in at most one queue or hand; a slot is occupied if and only if its id is in transit or dropped, never both; ids are below the slab's capacity, so never `usize::MAX` |
| `PipelineTheorems.QueueFixesConnection` | ners-core/src/stage.rs:187-456 | the queue that holds an id fixes its lifecycle state, request method and path, and empty read buffer; the write buffer is empty before App and afterwards exactly the one response for the path read from that connection's own peer |
| `PipelineTheorems.NoReuseWhileOccupied` | ners-core/src/main.rs:65-75 | no step gives an occupied slot to another peer |
| `PipelineTheorems.NoReuseDuringRun` | ners-core/src/main.rs:65-75 | between any two moments of a run throughout which an id stays occupied, its slot belongs to the same peer |
| `PipelineTheorems.RemovesOccupiedSlots` | ners-core/src/stage.rs:545-570 | `remove` meets only occupied slots, and the counter is positive when it is counted down |
| `PipelineTheorems.CounterMatchesSlab` | ners-metrics/src/lib.rs:183-190 | whenever the slab lock is free, `total_conns` equals `active_count()` |
| `PipelineTheorems.PeersGetOwnResponse` | ners-core/src/stage.rs:538-571 | at every moment a peer has received a prefix of the one response to its own request, and all of it once the connection was closed after a complete write |
| `PipelineDrops.DropsIff` | ners-core/src/stage.rs:187-220 | a step drops an id if and only if it finds no room in the next queue, or Parse's one read holds no complete valid request, or NetOut's write is neither complete nor an error |
| `PipelineDrops.DroppedIffLost` | ners-core/src/executor.rs:95-114 | in every run the dropped ids are exactly those that some step of it lost in one of these ways |
| `PipelineDrops.LostOnce` | ners-core/src/executor.rs:95-114 | an id is lost at most once in a run |
| `PipelineDrops.EmptyReadIsDropped` | ners-core/src/stage.rs:207-212 | nine steps from the start: a connection whose bytes were not there yet is in no queue and no hand, and its slot occupied |
| `PipelineTheorems.DroppedForever` | ners-core/src/stage.rs:207-219 | once an id was dropped its slot stays occupied and its peer hears nothing more, for the rest of every run |
| `Served.PrintedRequestGetsItsPage` | ners-core/src/stage.rs:201-206 | with the HTTP/1.1 parser in the pipeline: under every interleaving, a peer that sent a well-formed request for a path is sent a prefix of that path's page, and all of it once closed after a complete write |
| `Served.PrintedRequestGetsItsNumberedPage` | ners-core/src/stage.rs:298-393 | the same by bytes and numbers: whoever asks for `/` gets page 0, for `/api/test` page 1, for anything else page 999 |
| `PipelineDeath.DeadIff` | ners-core/src/stage.rs:201-206 | in every run a stage thread is dead if and only if it is Parse and its parser has panicked |
| `PipelineDeath.DeadForever` | ners-core/src/executor.rs:90-99 | from then on, for the rest of every run, nothing is taken from its queue |
| `Served.HugeLengthStopsParse` | ners-core/src/stage.rs:197-206 | with the HTTP/1.1 parser in the pipeline, the step in which Parse reads a request announcing 2^64-1 bytes is its thread's last |
| `PipelineRings.FineStepRefines` | ners-core/src/queue.rs:38-70 | with all threads running between the single loads and stores of a queue call, every load and store is invisible or one step of the pipeline over atomic queues |
| `PipelineRings.RingsRefineQueues` | ners-core/src/queue.rs:38-70 | every run over the five rings, load by load, is, by what the rings hold, a run of the pipeline over queues |
| `PipelineRings.SafeLoadByLoad` | ners-core/src/executor.rs:95-114 | so load by load, too, an id is in at most one ring or hand, occupied slots are those in transit or dropped, and each peer gets its own response |
| `HttpParser.Parse` | ners-proto-http/src/parser.rs:48-109 | the parser's loop and early returns: request and length, Incomplete, Invalid, or the panic on an overflowing length |
| `HttpParser.FindIsFirst` | ners-proto-http/src/parser.rs:52-56 | the position found is the first occurrence, and none is found only if there is none |
| `HttpParser.RequestsArePrefixFree` | ners-proto-http/src/parser.rs:48-109 | a completed parse consumes part of the buffer, is the same on every extension, and Incomplete on every proper prefix of the consumed bytes |
| `HttpParser.NoRequestInsideAnother` | ners-proto-http/src/parser.rs:48-109 | no complete request is a proper prefix of another |
| `HttpParser.FailureIsFinal` | ners-proto-http/src/parser.rs:59-62 | Invalid stays Invalid under every extension |
| `HttpParser.CanCompleteIff` | ners-proto-http/src/parser.rs:52-88 | once the empty line has arrived, some continuation completes the request if and only if the head holds a line end with three words before it and the length does not overflow |
| `HttpParser.AbortedIff` | ners-proto-http/src/parser.rs:80-88 | the length panic happens exactly when a head with three words announces a length that, behind the head, reaches 2^64 |
| `HttpRoundTrip.HugeLengthAborts` | ners-proto-http/src/parser.rs:80-95 | a well-formed request that announces 2^64-1 bytes is such a request, whatever follows it |
| `HttpParser.HeaderlessRequestNeverCompletes` | ners-proto-http/src/parser.rs:52-56 | a request without header lines stays Incomplete for ever |
| `HttpRoundTrip.HeadRoundTrip` | ners-proto-http/src/parser.rs:52-77 | of a printed head every word and field is read back: names in lower case, values trimmed, the last of equal names kept |
| `HttpRoundTrip.RequestRoundTripIff` | ners-proto-http/src/parser.rs:48-109 | a printed request followed by anything is parsed to itself with its exact length if and only if its fields announce the length of its body |
| `HttpRoundTrip.RequestRoundTrip` | ners-proto-http/src/parser.rs:48-109 | a request that ends its fields with its own length comes back whole, whatever follows |
| `HttpRoundTrip.FieldIsAdded` | ners-proto-http/src/parser.rs:70-76 | a field line, with any spaces and tabs or none behind the colon and behind the value, sets the folded name to the trimmed value |
| `HttpRoundTrip.RequestLineMeans` | ners-proto-http/src/parser.rs:58-67 | a request line is cut at white space of any kind and amount; fewer than three words are invalid, more than three are ignored |
| `HttpRoundTrip.LinesOfEnded` | ners-proto-http/src/parser.rs:70 | header lines end at CR LF or a bare LF |
| `HttpRoundTrip.LowerMeans` | ners-proto-http/src/parser.rs:72 | names are folded letter by letter |
| `HttpRoundTrip.ContentLengthMeans` | ners-proto-http/src/parser.rs:79-83 | the announced length is a decimal below 2^64 with or without a plus sign; missing, too large or malformed counts as 0 |
| `StageMetrics.RunsKeepInv` | ners-metrics/src/lib.rs:56-72 | for any number of threads and any interleaving, spurious failures included, the maximum is 0 or a recorded value and the sum is exact modulo 2^64 |
| `StageMetrics.MaximumNeverFalls` | ners-metrics/src/lib.rs:56-72 | the maximum never decreases |
| `StageMetrics.QuiescentIsExact` | ners-metrics/src/lib.rs:56-72 | when no thread is inside, the maximum is the greatest and the sum the sum of all records |
| `StageMetrics.HonestRetrySeesProgress` | ners-metrics/src/lib.rs:60-71 | a compare-exchange that failed for a reason has seen a larger maximum |
| `StageMetrics.Counters.RecordLatency` | ners-metrics/src/lib.rs:56-72 | the loop alone: adds the latency and raises the maximum if it is larger |
| `Tuner.UpdateExactIff` | ners-core/src/tuner.rs:192-202 | for any 64-bit values, one update is the truncated true average if and only if it does not overflow |
| `Tuner.BaselineTrueIff` | ners-core/src/tuner.rs:192-202 | for any 64-bit averages the baseline is the true truncating average throughout a run if and only if no update overflows |
| `Tuner.TrueBaselineWithinAverages` | ners-core/src/tuner.rs:192-202 | the truncating average over unbounded numbers stays between any bounds on the nonzero averages seen, and is 0 if and only if all were 0 |
| `Tuner.BaselineWithinAverages` | ners-core/src/tuner.rs:192-202 | so does the baseline in any run without overflow |
| `Tuner.SafeAveragesNeverOverflow` | ners-core/src/tuner.rs:192-202 | averages up to 2^64/10 nanoseconds, some 58 years, never overflow |
| `Tuner.UpdateMoves` | ners-core/src/tuner.rs:192-202 | where one update goes from above and from below, and that it stands still exactly from the average down to 9 below it |
| `Tuner.FallsToAverage` | ners-core/src/tuner.rs:192-202 | under a constant average the baseline falls strictly until it is exactly that average |
| `Tuner.RisesNearAverage` | ners-core/src/tuner.rs:192-202 | from below it rises strictly, never crosses the average, and rests within 9 of it |
| `Tuner.LogKeepsNewest` | ners-core/src/tuner.rs:151-161 | logging is appending and keeping the newest thousand entries |
| `Tuner.StepHistory` | ners-core/src/tuner.rs:94-189 | one call changes at most the last entry, from Applied to RolledBack and only after a latency jump, and keeps the bound |
| `Tuner.RollbackIff` | ners-core/src/tuner.rs:164-189 | a call rolls back if and only if the last entry was applied and the average is more than one and a half times a known baseline; it marks that entry and no other |
| `Tuner.RejectedIff` | ners-core/src/tuner.rs:129-142 | an action is refused exactly outside its bounds, with the default bounds in numbers |
| `Tuner.AppliedCounts` | ners-core/src/tuner.rs:107-117 | a call returns each valid action as often as it was proposed and no other |
| `Tuner.AppliedInOrder` | ners-core/src/tuner.rs:107-117 | and in the order proposed |
| `Tuner.AverageLatencyMeans` | ners-core/src/tuner.rs:205-216 | the average over the stages is the mean of their averages rounded down, 0 without stages |
| `Tuner.StageAverageMeans` | ners-metrics/src/lib.rs:105-112 | a stage's average is its time per request rounded down, 0 without requests |
| `Tuner.HistoryIsNewest` | ners-core/src/tuner.rs:151-161 | after any run the history is the newest thousand entries of the log since the start |
| `Tuner.NoVerdictReturns` | ners-core/src/tuner.rs:164-189 | between any two moments of any run that log only grows, an entry changes only from Applied to RolledBack and never back, and at most one entry per call |
| `Tuner.RunFacts` | ners-core/src/tuner.rs:94-202 | over any run the log is bounded, the constraints stay, and the baseline is that of the averages seen |
| `Tuner.PoliciesNeverRejected` | ners-core/src/policy.rs:94-121 | whatever the scaling computes, the clamps of both policies meet the default constraints |
| `Tuner.RunsNeverReject` | ners-core/src/tuner.rs:129-142 | over any run whose calls all came from the built-in policies, whichever and whatever the readings, nothing is ever Rejected |
| `Tuner.AggressiveIncreaseIff` | ners-core/src/policy.rs:190-211 | whatever else the aggressive policy proposes, exactly its first action is an increase, and it enlarges the queue if and only if the scaled size is larger and the queue is below the cap |
| `Tuner.AggressiveIncreaseByLength` | ners-core/src/policy.rs:160-199 | with a step of 20 percent the increase enlarges the queue if and only if its length is from 5 to 9999, and shrinks it if and only if it is above 10000 |
| `Tuner.IncreaseThatShrinks` | ners-core/src/policy.rs:190-199 | a queue of 20000, scaled to 24000, is told to "increase" to 10000 |
| `Tuner.ConservativeMeans` | ners-core/src/policy.rs:82-141 | nothing while cooling down and at most three actions; first an increase if and only if it enlarges the bottleneck; the others shrink queues above 100 under pressure or batch overflowing stages, and below three none is missing |
| `Tuner.ConservativeGrowsByLength` | ners-core/src/policy.rs:60-104 | with a step of 10 percent it grows a bottleneck if and only if its length is from 10 to 9999 |
| `Tuner.ConservativeAnalyze` | ners-core/src/policy.rs:82-141 | the loops that push, clamp and truncate the conservative policy's actions |
| `Tuner.AggressiveAnalyze` | ners-core/src/policy.rs:180-221 | the loops that push, clamp and truncate the aggressive policy's actions |
| `Tuner.TuningEngine.Process` | ners-core/src/tuner.rs:94-126 | one call: actions validated and logged in order, rollback judged by the old baseline, baseline updated last; returns exactly the valid actions |

## Left out

- Sockets, `accept_all`, `read_all`, `write_all`, `IoMultiplexer`, thread spawning, CPU pinning, sleeping and logging: operating system calls. A read is arbitrary bytes, a write an arbitrary accepted length or an error.
- Liveness: the multi-core stages drop ids, so only safety and conservation are stated.
- Response rendering and header order (ners-proto-http/src/response.rs, ners-core/src/handlers.rs): one abstract page per route.
- Flow control on sending: `send_data` debits no window, so only the frame-driven accounting is a property of this code; `consume_send_window` and `update_recv_window` are never called by the connection.
- Huffman strings, padding, the priority fields inside HEADERS and CONTINUATION reassembly: not implemented by the source.
- `ready_streams`, `active_stream_count`, `get_stream` and the other readers of the connection: single expressions.
- `HttpParser.Parse`: ASCII buffers only; other UTF-8 has further white space and letter case, and invalid UTF-8 is Invalid.
- `HpackDecoder.Decoder.DecodeString`: `from_utf8_lossy` is the identity, so the replacement of invalid UTF-8 is not modelled.
- `Executor.StageExecutor.RunBatch`: one pass of up to a hundred items; the outer loop until shutdown, the idle counter and the statistics beside `total_conns` are not modelled.
- Shutdown and the joining of threads: runs of `Pipeline.Move` go on for as long as they like.
- Memory orders weaker than sequential consistency in `RingQueue`, and the relaxed counters.
- A ring of capacity 0, where the source panics on `% 0`: a precondition of `RingQueue`.
- `ExecutorRuns.BatchIsARun`, `PipelineRings.FineRun`: the slab's capacity is at most `usize::MAX`, as the length of a vector is.
- The Phase 1 `process` loops of ners-core/src/stage.rs: single-threaded forms of the same steps.
- ners-core/src/slab/sharded.rs and numa.rs: the free-list argument of `ConnSlab` again, unused by the pipeline.
- ners-ml, the analyzer's trends and float step sizes: the policies' scaled sizes are arbitrary numbers, their cooldowns and pressure tests arbitrary booleans.
- `Tuner.AggressiveIncreaseByLength`: the scaled length is six fifths of the length, rounded down, to which the floating-point product comes out for every length below 2^50.
- `Tuner.BaselineWithinAverages`: runs in which no update overflows, the exact condition of `Tuner.BaselineTrueIff` for the code to compute the true average.
