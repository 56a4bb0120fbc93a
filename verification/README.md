# A Dafny model of the connection cores

The repository is a Go network library: an event-driven engine with WebSocket, HTTP/2, HTTP/3,
gRPC and TLS 1.3 on top of it. This project models the parts that carry state from one event to
the next, and proves what they keep over every history of events.

| files | what they model |
|---|---|
| `TaskRing`, `TaskParse`, `TaskWork`, `TaskAlone` | the bounded multi-producer multi-consumer ring of the parse pool, one atomic load, store or compare-and-swap at a time and for any number of threads, and the sleep and wake protocol around it; what becomes of the tasks that are sent; what each operation does when its thread runs alone |
| `Framing`, `Bytes`, `ByteBuffer` | what all self-delimiting parsers have in common: a cutter takes one item off the front of the bytes; a parse loop calls back with it; what is left is kept in a buffer and moved in place |
| `Http2Frame`, `Http3`, `Grpc`, `TlsRecord` | the frame, message and record formats, with their parsers as objects and their printers |
| `Http2Send`, `Http2Runs` | two-level send windows, slicing into DATA frames, the queue of what had to wait; whole runs of writes, updates and settings |
| `Http2Conn`, `Http2Safety`, `Http2History`, `Http2Recv` | the receiving side: stream table, header blocks, receive credit; `Http2Conn` says what each frame does, `Http2Safety` what all histories keep, `Http2History` what they tell the handler and what ends them; `Http2Recv` is the object that takes bytes and keeps all of that on its own fields |
| `Http2Wire` | header blocks from one side's printer to the other side's handler, and the client preface |
| `Http2Meaning`, `WsMeaning`, `TlsMeaning` | what bytes, frames and messages of any content mean, in the numbers of RFC 9113, RFC 6455 and RFC 8446; these statements do not use the tables and helpers of the model that they are about |
| `WsFrame`, `WsRead`, `WsWrite` | the decoder and the reassembly of sections 5.2 and 5.4 of RFC 6455; the reader on its moving and growing buffer; the writer with its backlog and its cork |
| `Engine`, `WriteQueue`, `Socket` | the read buffer and the write backlog of an engine connection, under every behaviour of the kernel |
| `TlsCrypto`, `TlsHello`, `TlsMachine`, `TlsHandshake`, `TlsSecrets`, `TlsTransport` | two TLS 1.3 machines and the byte streams between them, with symbolic cryptography; the secrets of a handshake by their labels |
| `TlsConn`, `TlsInner` | the machine as an object, a handshake and a transfer between two of them; the protocol inside, and what it is handed |

Objects of the source are classes with its fields. Each of their methods is proved to do what a
function says, or to keep a history invariant, and the lemmas are about those functions and
invariants. The kernel is a parameter (what reads will find) or a free choice (what a write takes).
Handlers are parameters: what they answer may depend on everything they were told so far, and they
may call the connection from inside a callback.

## Where the code does not do what is expected of it

The model follows the code. Where a property fails, a lemma shows an input that the code can meet,
and another says exactly when the property holds.

- HTTP/2, `writeDataLocked`: the test for the fast path looks at the connection's window only, not
  at the queue, and the fast path charges no window (http2/conn.go:1092-1094). A body, or an
  END_STREAM without a body, can leave before bytes that its stream has queued: `OrderKeptExactly`,
  `Overtakes`; the accounting is off exactly then: `ChargedExactly`. When every write meets that
  condition, all bodies leave in order: `ManyBodiesInOrder`. Over whole runs:
  `ConnChargedExactly`, `StreamChargedExactly`.
- HTTP/2, `flushPending`: END_STREAM is set only when one item is queued (http2/conn.go:1202), so
  two bodies that end in one flush lose an END_STREAM: `EndStreamExactly`, `EndStreamCanBeLost`;
  `EndsAreRightExactly` over whole runs.
  A flush does not cut by the peer's frame limit either: `FlushFitsExactly`,
  `FlushFrameCanBeTooLong`.
- HTTP/2, `onSettings`: a new INITIAL_WINDOW_SIZE does not adjust the windows of open streams, as
  section 6.9.2 of RFC 9113 asks (http2/conn.go:361-365): `WindowsMoveExactly`,
  `WindowStays`.
- HTTP/2, `Feed`: when the preface and frames arrive in one call, all of that call is reported as
  consumed and its error is dropped (http2/conn.go:231-235): `FramesBehindPreface` with one
  condition for the error, by guards on frames and state, and one for the bytes, by length fields;
  `FrameBehindPrefaceIsLost`, `ErrorBehindPrefaceIsDropped`.
- HTTP/2, `Feed`: the comments at http2/conn.go:249-271 say that a stream error ends only its
  stream; the error is returned to the engine all the same (http2/conn.go:243-246) and the engine
  closes the connection: `GoesOnExactly`, `StreamErrorsExactly` and
  `ConnErrorsExactly` for the frames that cause an error of either kind,
  `StreamErrorEndsAll` for an input with another stream open.
- HTTP/2, `onData`: an empty DATA frame with END_STREAM ends the stream without telling the handler
  (http2/conn.go:819-843): `EndsAreToldExactly` over whole histories, `EndCanBeUntold`.
- WebSocket: after an empty Close frame the reader goes on, and messages behind it are delivered
  (websocket/conn_core.go:576-605): `CloseEndsReading`, `MessageAfterClose`.
- WebSocket: a text message in one frame that is not UTF-8 is reported to the application as an end
  of file, one in several frames as what it is (websocket/conn_core.go:489-496, 683-690):
  `BadTextIsReported`.
- WebSocket: when the first read of an event fills the buffer and the socket has ended behind it,
  frames that are in the buffer are never delivered (websocket/conn_unix.go:487-582). No frame is
  lost by any other way of ending, and for one read before the end it is said exactly what is:
  `ProcessWebsocketFrame`, `Serve`, `FullIsHandled`, `NothingLostExactly`, `FirstByte`,
  `MessageIsLost`.
- Engine: a read buffer that is full at its largest size is never read into again while anything in
  it is unconsumed, however little (engine/conn.go:249-258, 383-410): `ReadSide.Read`, `FillUp`,
  `GetsStuck`.
- Engine: `Write` and `Writev` report success when only the flush of an older backlog fails
  (engine/conn.go:418-499): the `broken` clauses of `WriteSide.Write`, `FailureIsNotReported`.
- TLS: `OnData` gives the inner protocol each batch of plaintext once and ignores how much of it was
  consumed (tls/engine.go:137-155), so an inner item must not cross a batch: `HandedExactly`,
  `FramesHandedExactly`, `FrameOverTwoEventsIsLost`.
- TLS: padding behind a record's real type is not taken off (tls/aead.go:152-181):
  `PaddingIsNotTakenOff`.
- Task ring: a `pop` of an empty ring goes round without an answer while another `pop` has taken the
  last task and not handed its cell back (websocket/task_ring.go:104-125): `PopAlone`. A shard has
  one worker, so there it cannot happen.
- TLS: the client checks neither the certificate nor CertificateVerify (tls/state.go:334-385), and
  no handshake message is cut over several records, so the handshake completes exactly when the
  server's certificate and its signature each fit one record: `HandshakeCompletes`; there are
  machines for which they do not: `SomeDoNotFit`.

## Model

| member | source | states |
|---|---|---|
| TaskRing.NewTaskRing | websocket/task_ring.go:54-67 | a new ring has a power-of-two number of cells, at least two and enough for the limit but less than twice as many as needed, and satisfies the invariant with no task in it |
| TaskRing.SlotIsMask | websocket/task_ring.go:56-82 | for a ring of 2^k cells, `pos & mask` is the position modulo the ring size, for every position |
| TaskRing.SlotsDiffer | websocket/task_ring.go:76-99 | two positions less than a lap apart never share a cell |
| TaskRing.ApplyKeepsInv | websocket/task_ring.go:71-125 | whatever thread takes its next atomic step, the invariant on counters, cells, claims under way and deliveries is kept, so `tail - head <= limit` in every reachable state |
| TaskRing.StepRefinesFifo | websocket/task_ring.go:71-125 | each atomic step is one step of a FIFO queue of at most `limit` tasks: the compare-and-swaps of `push` and `pop` that succeed put in and take out, all other steps change nothing |
| TaskRing.RunRefinesFifo | websocket/task_ring.go:71-125 | every interleaving of any number of pushes and pops by any number of threads refines that bounded FIFO |
| TaskRing.HistoryIsTrace | websocket/task_ring.go:71-125 | the claims and the takings on record are exactly the enqueues and dequeues of the history, in order |
| TaskRing.ReturnsMatchFifo | websocket/task_ring.go:71-125 | what a `pop` returns is the task that the FIFO dequeued at that call's swap, and tasks are dequeued in the order in which they were enqueued |
| TaskRing.DeliveredOnce | websocket/task_ring.go:104-125 | a step delivers at most one position, never one that was delivered before, and hands its task to the thread that took it |
| TaskRing.NothingLost | websocket/task_ring.go:71-125 | when all calls have returned, every task pushed has been delivered unchanged exactly once or sits published and unchanged in its own cell |
| TaskRing.EmptyAnswer | websocket/task_ring.go:104-116 | `pop` answers false only when, at that instant, the ring is empty or its oldest position is claimed and not published yet |
| TaskRing.FullAnswer | websocket/task_ring.go:71-91 | `push` answers false only when, at that instant, `limit` tasks are queued or the cell it needs is still being read by a `pop` of the lap before |
| TaskAlone.PushAlone | websocket/task_ring.go:71-99 | a `push` whose thread runs alone answers within six steps: false exactly when the ring has its limit of tasks or a `pop` has not handed the next cell back, and nothing has changed; else its task is published at the end of the queue |
| TaskAlone.PopAlone | websocket/task_ring.go:104-125 | a `pop` whose thread runs alone, within six steps, takes the oldest task exactly when that is published, and hands its cell to the next lap, or answers false when the cell at the head is still to be written; it tries again without an end only when the ring is empty and another `pop` has not handed that cell back |
| TaskParse.EventKeepsInv | websocket/task_parse.go:147-274 | every step of any sender and of the worker keeps the wake-up invariant: a claim that a waiting worker will not see belongs to a `send` that has not yet done its check, or a signal is in the channel |
| TaskParse.NoLostWakeup | websocket/task_parse.go:147-274 | in every reachable state in which the worker sleeps on an empty channel, every claimed and untaken position belongs to a `send` that has not finished |
| TaskParse.SleepMeansDone | websocket/task_parse.go:147-274 | when a worker sleeps and its senders have all returned, every task that was ever sent has been taken off the ring, unchanged; that all of them are processed as well is `TaskWork.AllSentIsProcessed` |
| TaskWork.ProcessedInOrder | websocket/task_parse.go:209-256 | in every run, the processed tasks, followed by at most one in hand, are the tasks of the taken positions, each once and in the order of their claims |
| TaskWork.AllSentIsProcessed | websocket/task_parse.go:147-256 | when every `send` has returned and the worker sleeps, it has called `processOne` with every task sent and with no other, each once, those of one sender in the order sent |
| TaskAlone.SendAlone | websocket/task_parse.go:147-170 | a `send` whose thread runs alone puts its task in the ring and returns, having signalled a waiting worker; while the ring is full it tries again |
| TaskAlone.WorkerGetsOn | websocket/task_parse.go:209-256 | a worker that runs alone for fifty steps processes a task or goes to sleep, unless the position at the head is claimed by a `send` that has not published it |
| Framing.Resume | http2/frame.go:190-244 | for any self-delimiting parser, parsing `a + b` is parsing `a` and then its leftover followed by `b`, or ends at the error `a` ends at |
| Framing.ChunkingDoesNotMatter | http2/frame.go:190-244 | feeding a stream piecewise, each time with the leftover in front, gives the same items, the same first error and the same leftover as feeding it at once |
| Framing.ParserUndoesPrinter | http3/frame.go:136-191 | a parser whose cutter undoes the printer of one item undoes the printing of any list of items that may follow one another |
| ByteBuffer.Buffer.KeepFrom | http3/frame.go:176-180 | the overlapping move in place brings the kept bytes to the front and changes none of them |
| ByteBuffer.Buffer.Append | http3/frame.go:136-141 | new bytes come behind the kept ones, in the spare room or in larger memory |
| Http2Frame.CutFrameLawful | http2/frame.go:190-244 | the HTTP/2 parser decides by the front of its bytes: it makes progress, and more bytes do not change a decision, in any state of the continuation check |
| Http2Frame.CutUndoesFrame | http2/frame.go:190-366 | a printed frame of good shape is read back whole, whatever follows, with the parser state the continuation check needs |
| Http2Frame.FrameParser.Parse | http2/frame.go:190-244 | the loop's items, bytes consumed, first error and new parser state are those of the specified parse, for every callback; what a step of that parse takes and refuses is said in numbers by `Http2Meaning.FrameDecodes` |
| Http2Frame.FrameParser.SetMaxFrameSize | http2/frame.go:174-179 | whatever is asked for, the limit stays in 1..2^24-1 and the continuation state as it is; a value in that range becomes the limit |
| Http2Frame.FrameChunking | http2/frame.go:190-244 | however a byte stream is cut, the same frames, first error and leftover come out |
| Http2Frame.FramesRoundTrip | http2/frame.go:190-442 | any list of frames that may follow one another is parsed back from its printed bytes, frame by frame and with nothing left over |
| Http2Frame.HeaderBlocksAreNotInterrupted | http2/frame.go:252-283 | while a header block is open the only frame the parser hands over is a CONTINUATION of the same stream |
| Http2Frame.AppendSettings | http2/frame.go:371-380 | the loop prints one SETTINGS frame with all settings in order, behind what was there |
| Http2Frame.SettingsRoundTrip | http2/conn.go:344-347 | the receiver's loop over a SETTINGS payload reads back any list of settings, in order |
| Http2Frame.PrintersRoundTrip | http2/frame.go:190-442 | whatever a printer of a single frame is given, the parser takes what it wrote, whatever was there before and whatever follows, and the receiver reads every field back; for all seven printers |
| Http2Frame.HeadersIsFrame | http2/frame.go:422-432 | a printed HEADERS frame has the right shape, neither padding nor priority, and both end flags just as asked for |
| Http2Meaning.FrameDecodes | http2/frame.go:190-353 | for any nine bytes and whatever follows: length, type, flags and the 31-bit stream number are read; too long a frame is refused at once, then place and shape decide, by conditions in numbers on type, flags, stream number and length |
| Http2Meaning.FrameOnTheWire | http2/frame.go:359-442 | the nine bytes in front of every printed frame |
| Http2Meaning.UnknownIsIgnored | http2/conn.go:304-317 | a frame of a type above 9, on any stream and of any content, is handed over where no header block is open, causes no error and changes nothing |
| Http2Meaning.UnprintedRefused | http2/frame.go:289-353 | PRIORITY, PUSH_PROMISE, CONTINUATION and SETTINGS frames are refused for their shape exactly by these stream numbers and lengths |
| Http2Send.OverflowTestIsExact | http2/conn.go:403-467 | the 32-bit overflow test, though it may wrap twice, refuses an increment exactly when window plus increment exceeds 2^31-1, for every 32-bit window and increment, and the accepted sum does not wrap (section 6.9.1 of RFC 9113) |
| Http2Send.StepKeepsValid | http2/conn.go:403-467 | each event of the sending side keeps every send window in 0..2^31-1 and every queued rest non-empty |
| Http2Send.EveryRunIsValid | http2/conn.go:403-1210 | so does every sequence of writes, flushes, settings and window updates |
| Http2Send.FlushConserves | http2/conn.go:1161-1210 | on every stream, the bytes a flush sends followed by those it leaves are those that were queued |
| Http2Send.FlushStops | http2/conn.go:1161-1210 | after a flush the queue is empty or the smaller of its head's two windows is 0 |
| Http2Send.FlushedItems | http2/conn.go:1161-1210 | used-up items leave whole and in order, with END_STREAM only when asked for and nothing is queued behind |
| Http2Send.UsedUpExactly | http2/conn.go:1161-1210 | a flush uses up the first n items exactly when the connection's window covers their lengths together and each stream's window those of its own |
| Http2Send.EndStreamExactly | http2/conn.go:1195-1206 | END_STREAM is right on every item a flush uses up exactly when, of the items that windows and queue lengths cover, none but the last of the queue asks for it |
| Http2Runs.EndStreamCanBeLost | http2/conn.go:1161-1210 | after a run from a new connection in which two bodies wait on two open streams, each with its END_STREAM, one window update sends both, the first without it |
| Http2Send.FlushReaches | http2/conn.go:1161-1210 | a flush has a frame for an item exactly when the windows cover all items in front and leave some for it; the frame is as long as the smaller of the two |
| Http2Send.FlushFitsExactly | http2/conn.go:1161-1210 | all frames of a flush are within the peer's limit exactly when, for every item it reaches, the smaller of its length and of what the windows leave for it is |
| Http2Runs.FlushFrameCanBeTooLong | http2/conn.go:1161-1210 | from a new connection, any body longer than the limit that had to wait on an open stream leaves in one frame when one update covers it |
| Http2Send.QueuedBehind | http2/conn.go:1149-1152 | what is queued for a stream comes behind what that stream has queued, and changes no other stream's bytes |
| Http2Send.SlicesAreRight | http2/conn.go:1090-1136 | a sliced body is its frames followed by at most one queued rest; frames are non-empty and within the limit, and END_STREAM is on exactly the frame that ends the body |
| Http2Meaning.ShortBodyMeans | http2/conn.go:1090-1095 | a body within the frame limit and the connection window leaves at once as one frame, and no window is charged |
| Http2Meaning.CutBodyMeans | http2/conn.go:1096-1136 | any other is cut: each frame is as long as limit, room and rest allow, charged on both levels; what there is no room for is queued behind all that waits |
| Http2Meaning.FlushMeans | http2/conn.go:1161-1210 | the queue from its front: no room stops the flush, an item that is too long leaves in part and without END_STREAM, one that fits leaves whole |
| Http2Meaning.BlockOnTheWire | http2/conn.go:1016-1037 | a header block is one HEADERS frame, or is cut at the limit, END_STREAM on the first frame and END_HEADERS on the last |
| Http2Send.ChargedExactly | http2/conn.go:1090-1136 | the connection's window drops by what was sent exactly when the fast path is not taken or nothing is sent |
| Http2Runs.ConnChargedExactly | http2/conn.go:1090-1210 | over any run, the connection's window is what it was, plus all increments, less all bytes sent, exactly when no body with bytes meets the guard of the fast path |
| Http2Runs.StreamChargedExactly | http2/conn.go:1090-1210 | and so is the window of a stream that stays in the table, for the bodies on it |
| Http2Send.OrderKeptExactly | http2/conn.go:1090-1136 | for every body length: bytes leave in the order written, and END_STREAM behind them, for all bodies of that length exactly when the stream has nothing queued or the windows make the body wait |
| Http2Send.Overtakes | http2/conn.go:1092-1094 | otherwise a body that starts differently, or a bare END_STREAM, goes out before bytes written earlier |
| Http2Send.BodyArrivesWhole | http2/conn.go:1090-1210 | for a body written in one call to an empty queue, under any later window updates, settings and flushes, the DATA payloads sent followed by what waits are the body, and END_STREAM is on exactly the frame that ends it (section 6.9 of RFC 9113) |
| Http2Runs.ManyBodiesInOrder | http2/conn.go:1090-1210 | in every run in which each write meets the condition of `OrderKeptExactly`, the bytes sent on any stream followed by those it has queued are all its bodies in order |
| Http2Runs.EndsAreRightExactly | http2/conn.go:1090-1210 | in a run from a new connection in which each write meets the condition of `OrderKeptExactly` and none follows the end of its stream, END_STREAM is on the last of a stream's frames, sent or waiting, and on no other, exactly when no flush finds the stream's last item covered by the windows and something queued behind it |
| Http2Runs.WindowsMoveExactly | http2/conn.go:339-379 | the windows of open streams move along with a new initial window exactly when none is open or the value is the old one |
| Http2Runs.WindowStays | http2/conn.go:339-379 | from a new connection: a stream is opened, the peer announces any other initial window, and the stream's window is the old one |
| Http2Send.SendSide.WriteData | http2/conn.go:1090-1136 | the loop's frames, windows and queue are those of the specified write |
| Http2Send.SendSide.WriteSlices | http2/conn.go:1096-1135 | the slicing loop alone: its frames, windows and queue are those of the specified slices |
| Http2Send.SendSide.FlushPending | http2/conn.go:1161-1210 | the loop's frames, windows and queue are those of the specified flush |
| Http2Send.SendSide.OnConnWindowUpdate | http2/conn.go:403-426 | an increment of 0 and an overflow are connection errors and change no window; else the window grows by it and the queue is flushed |
| Http2Send.SendSide.OnStreamWindowUpdate | http2/conn.go:429-467 | likewise for a stream; an unknown stream changes nothing |
| Http2Send.SendSide.OnSettings | http2/conn.go:339-379 | settings apply in order up to the first bad one; only a frame without one is acknowledged |
| Http2Send.SendSide.RegisterStream | http2/conn.go:920-938 | a new stream starts with the peer's initial window, a known one keeps its own |
| Http2Send.SendSide.ForgetStream | http2/conn.go:646-648 | a forgotten stream has no window of its own any more; what it has queued stays queued |
| Http2Send.SendSide.WriteHeaderBlock | http2/conn.go:1016-1037 | the loop prints HEADERS and as many CONTINUATION frames as the limit demands, the last one ending the block |
| Http2Safety.StartInv | http2/engine.go:96-118 | the connection OnOpen leaves satisfies the invariant; a server's enlarged windows match the credit it has announced |
| Http2Safety.ActsKeepInv | http2/conn.go:646-1210 | nothing the local side calls between frames breaks the invariant |
| Http2Safety.CallbackKeeps | http2/conn.go:533-648 | nothing a handler calls inside a callback does either, even when it closes the very stream and registers it again |
| Http2Safety.OnFrameKeeps | http2/conn.go:280-337 | every frame, under every HPACK verdict and every handler, keeps the invariant or ends in an error that keeps its safety part |
| Http2Safety.CheckRecvKeeps | http2/conn.go:677-760 | a frame that passes the check is on a stream that has not ended, or opens one whose number the invariant allows and of which nothing has been heard; the rest of the invariant stays |
| Http2Safety.OpenKeeps | http2/conn.go:920-938 | a stream made for such a number keeps the invariant |
| Http2Safety.GiveKeepsInv | http2/conn.go:869-897 | so does charging and refilling both receive windows |
| Http2Safety.FinishHeadersKeeps | http2/conn.go:533-607 | and a finished header block, refused or delivered, under every verdict |
| Http2Safety.DeliverHeadersKeeps | http2/conn.go:574-607 | and its delivery, whatever the handler calls meanwhile |
| Http2Safety.OnHeadersKeeps | http2/conn.go:469-515 | and every HEADERS frame, with or without an error |
| Http2Safety.OnContinuationKeeps | http2/conn.go:517-530 | and every CONTINUATION frame |
| Http2Safety.OnDataKeeps | http2/conn.go:780-843 | a DATA frame keeps the invariant, or ends in an error that keeps its safety part |
| Http2Safety.DeliverDataKeeps | http2/conn.go:819-843 | so does the delivery of its bytes and its end, whatever the handler calls meanwhile |
| Http2Safety.EndRecvKeeps | http2/conn.go:624-643 | an accepted END_STREAM, with its stream still in the table or not, keeps the invariant that nothing of an ended stream is accepted |
| Http2Safety.OnRSTStreamKeeps | http2/conn.go:899-914 | and every RST_STREAM frame |
| Http2Safety.DropKeeps | http2/conn.go:646-648 | a forgotten stream leaves the rest of the invariant as it was, in both halves of the table |
| Http2Safety.RejectedExactly | http2/conn.go:869-897 | a DATA frame is refused for flow control exactly when the bytes accepted so far and its own exceed initial credit plus increments given, on the connection or on the stream |
| Http2Safety.GiveKeepsCredit | http2/conn.go:869-897 | an accepted frame keeps `initial credit + increments written - bytes accepted = recvWindow` on both levels, padding included |
| Http2Safety.OnFrameAgrees | http2/conn.go:469-530 | after each frame without an error the parser waits for a CONTINUATION exactly when a header block is open, and on the same stream |
| Http2Safety.LiveKeeps | http2/conn.go:207-337 | the invariant and this agreement hold after any bytes in any pieces, with local calls between them |
| Http2Safety.EveryRunIsSafe | http2/conn.go:533-897 | in every life of a connection, on either side: opened stream numbers are strictly increasing and of the peer's parity, no HEADERS or DATA of a stream reaches the handler after its END_STREAM, and without an error every receive window is exactly the credit given less the bytes taken (sections 5.1 and 5.1.1 of RFC 9113) |
| Http2Safety.NothingAfterEndStream | http2/conn.go:630-760 | content of a stream behind its accepted END_STREAM means that the local side registered that stream number again in between |
| Http2History.EndsAreToldExactly | http2/conn.go:533-843 | in every life of a connection, the handler is told of an accepted END_STREAM exactly when a header block carried it, or a DATA frame with bytes behind its padding |
| Http2History.EndIsToldExactly | http2/conn.go:819-843 | for one DATA frame with END_STREAM, the marks it adds to the history tell of the end exactly when there are bytes to deliver, whatever the handler calls; the end is on record either way |
| Http2History.EndCanBeUntold | http2/conn.go:819-843 | from a new server: a request and an empty DATA frame with END_STREAM give a history in which the end is accepted and not told |
| Http2History.GoesOnExactly | http2/conn.go:207-277 | the pass over the bytes goes on behind a frame exactly when the frame has no error of either kind; what follows an error is not consumed |
| Http2History.StreamErrorsExactly | http2/conn.go:280-337 | the frames that end in the error of one stream are exactly those named by guards on frame and state |
| Http2History.ConnErrorsExactly | http2/conn.go:280-337 | the frames that end in an error of the connection are exactly those named by guards: padding, settings, pushes, an open block, header decoding, parity and order of stream numbers, unknown streams, window overflow, receive credit |
| Http2History.StreamErrorEndsAll | http2/conn.go:243-271 | from a new server: with two requests open, a stream error of the first ends the pass, and the bytes behind it are not consumed though the second stream is open |
| Http2Meaning.DataMeans | http2/conn.go:780-843 | for every body and every padding of at most 255 bytes: a DATA frame on a stream that may get data and within the credit adds to the history that its whole payload was taken of the credit, that its body was accepted, that the handler was told of it when it is not empty, and the end; it has an error exactly when it ends a request of another length than was declared |
| Http2Meaning.DataSettles | http2/conn.go:806-897 | such a frame is answered by two updates of its whole payload, in front of whatever the handler sends; windows are what they were, and the stream has its bytes counted and its end recorded |
| Http2Meaning.DataRefusals | http2/conn.go:780-897 | any other DATA frame: bad padding, an unknown stream, an ended one, and too much for either window, with the error of each |
| Http2Meaning.WrapsOrBad | http2/conn.go:780-792 | every payload is a body, with padding around it when the flag says so, or has a pad length that is missing or too long |
| Http2Meaning.HeadersMean | http2/conn.go:469-515 | for every block, priority and padding: HEADERS gives the decoder exactly the block, or opens it for the CONTINUATION frames to come |
| Http2Meaning.HeadersRefusals | http2/conn.go:469-501 | bad padding, a priority that is cut short, and a stream that depends on itself, with the error of each |
| Http2Meaning.ContinuationMeans | http2/conn.go:517-530 | a CONTINUATION is appended to the open block of its stream and completes it when it says so; anywhere else it is an error |
| Http2Meaning.BlockMeans | http2/conn.go:533-572 | the decoder is given the block behind all blocks before; each refusal, by decoder, stream number, state or fields, has its error |
| Http2Meaning.BlockDelivered | http2/conn.go:533-643 | a good block opens a new stream when there is none, the handler is told of it, its declared length is kept for a request, and its END_STREAM ends the receiving direction |
| Http2Meaning.ConnFramesMean | http2/conn.go:280-401 | PING, GOAWAY, PUSH_PROMISE, PRIORITY and acknowledgements: what each answers, changes or ends |
| Http2Meaning.SettingMeans | http2/conn.go:348-374 | settings 2, 4 and 5 are refused exactly outside their ranges; 4 and 5 are kept, all others are passed over |
| Http2Meaning.ResetMeans | http2/conn.go:899-914 | a reset tells the handler its 32-bit code and its stream is gone; of an unknown stream it ends the connection |
| Http2Meaning.ConnUpdateMeans | http2/conn.go:403-426 | an increment of all 32 bits: 0 and more than the window can hold are refused, any other widens it and sends what it lets through |
| Http2Meaning.StreamUpdateMeans | http2/conn.go:429-467 | the same for the window of a stream, with an error of the stream for too much and of the connection for 0 and for an unknown stream |
| Http2Meaning.StartMeans | http2/engine.go:84-118 | the bytes of the first settings of both sides, the update that widens the window of a server, and all windows and limits at the start |
| Http2History.PoliteLifeIsNotRefused | http2/conn.go:806-897 | in every life in which each DATA frame stays within the credit that its peer has seen by then, however many updates are under way, no frame is refused for flow control |
| Http2Wire.HeaderBlocksSurviveSplitting | http2/conn.go:469-1037 | a header block printed with any positive frame limit the receiver allows is put together again as the same block with the same END_STREAM, and leaves no block open (sections 4.3 and 6.10 of RFC 9113) |
| Http2Wire.PrefaceInPieces | http2/conn.go:207-240 | the client preface is recognised, or refused, in the same way however it is cut |
| Http2Wire.PrefaceText | http2/conn.go:207-240 | the 24 bytes of the preface, letter by letter (section 3.4 of RFC 9113) |
| Http2Wire.WrongPreface | http2/conn.go:207-240 | anything else in their place is an error, and none of it reaches the connection |
| Http2Wire.ClientIsWelcome | http2/engine.go:84-93 | what a client writes first, a new server consumes whole and without an error, and answers with the acknowledgement of the settings only |
| Http2Wire.FramesBehindPreface | http2/conn.go:207-247 | frames that arrive with the preface have the same effect as arriving behind it; the error is the same exactly when every complete frame fits the limit, may come where it does, has a good shape and meets no guard by which its stream or the connection refuses it, and then the leftover is right exactly when the bytes are whole frames by their length fields |
| Http2Wire.FrameBehindPrefaceIsLost | http2/conn.go:231-235 | up to eight bytes of a frame behind the preface are reported as consumed and gone |
| Http2Wire.PassExactly | http2/conn.go:231-247 | a pass over bytes has an error exactly when some complete frame meets one of those guards, and without one consumes all exactly when they are whole frames by their length fields |
| Http2Wire.ErrorBehindPrefaceIsDropped | http2/conn.go:231-235 | a frame that ends any connection, behind the preface: the call reports no error, the same frame in the next call does |
| Http2Recv.RecvSide.SendServerSettings | http2/engine.go:96-118 | a server's start: settings, enlarged windows and the update that announces them, with the invariant kept |
| Http2Recv.RecvSide.OnOpen | http2/engine.go:58-82 | a new object of either side is healthy, announces itself and stays healthy; a client has then written the preface and its settings |
| Http2Recv.RecvSide.SendPreface | http2/engine.go:84-93 | a client's start: the plain bytes of the preface in front of all frames, then its settings, with the invariant kept |
| Http2Recv.RecvSide.OnFrame | http2/conn.go:280-337 | every frame of a good shape keeps the safety invariant on the object's own fields, and without an error all of it; object and specified step agree; what that step hands over, padding and priority apart, is said by `Http2Meaning.DataMeans` and `HeadersMean` |
| Http2Recv.RecvSide.ParseFrames | http2/frame.go:190-244 | the parse loop with `onFrame` as callback is one pass of the lawful cutter, so cutting does not matter to it; it keeps the object healthy up to the first error, and safe even behind it |
| Http2Recv.RecvSide.Feed | http2/conn.go:207-247 | fed from the preface on, the object opens streams in increasing order and never hands over content of an ended stream, on its own fields; up to the first error it stays healthy |
| Http2Recv.RecvSide.Serve | http2/conn.go:207-337 | the same over any bytes in any pieces with local calls between them; at the end every receive window is exactly the credit given less the bytes taken |
| Http3.ReadVarint | http3/varint.go:97-112 | the accumulating loop reads the big-endian number of the class that the first byte names, or reports too few bytes |
| Http3.VarintRoundTrip | http3/varint.go:59-112 | for every value below 2^62 and whatever follows, reading undoes appending and takes `VarintLen` bytes (section 16 of RFC 9000) |
| Http3.VarintPrefixTooShort | http3/varint.go:97-112 | every proper prefix of an encoding is reported as too short |
| Http3.VarintIsShortest | http3/varint.go:59-91 | no encoding of the same value that `ReadVarint` accepts is shorter |
| Http3.VarintMeans | http3/varint.go:97-112 | the two top bits of any first byte name the number of bytes; the other bits, most significant byte first, are the value |
| Http3.VarintOnTheWire | http3/varint.go:77-91 | the bytes of a number below 2^30, and none for one that does not fit |
| Http3.LongVarint | http3/varint.go:77-91 | and the eight bytes of a larger one |
| Http3.VarintLenRoundTrip | http3/varint.go:117-132 | length-prefixed content of any length below 2^62 is read back whole, whatever follows |
| Http3.CutFrameLawful | http3/frame.go:136-184 | the HTTP/3 parser decides by the front of its bytes and makes progress |
| Http3.CutUndoesFrame | http3/frame.go:136-191 | an appended frame of any type within the size limit is read back whole, whatever follows |
| Http3.FrameMeans | http3/frame.go:136-184 | two numbers in any of their encodings and whatever follows: more than 2^24 bytes are refused at once, else the payload is waited for and taken |
| Http3.FrameParser.Parse | http3/frame.go:136-184 | the parser hands over the frames of kept and new bytes as specified, and its buffer, moved in place or grown, then holds exactly the bytes that make no frame yet |
| Http3.FrameChunking | http3/frame.go:136-184 | however the stream is cut, the same frames, first error and leftover come out |
| Http3.FramesRoundTrip | http3/frame.go:136-191 | any list of appended frames is parsed back with nothing left over |
| Http3.AppendSettings | http3/frame.go:222-230 | the loop appends one SETTINGS frame with all settings in order |
| Http3.ParseSettings | http3/frame.go:235-251 | the loop reads settings up to the end, and refuses a payload that ends inside one |
| Http3.SettingsRoundTrip | http3/frame.go:222-251 | settings lists of any length, followed by anything, are read back in order |
| Http3.SettingsCutShort | http3/frame.go:235-251 | a payload that ends inside a setting is refused, wherever it is cut |
| Grpc.EncodeAll | grpc/message.go:154-168 | the loop appends header and message of each, in order |
| Grpc.CutMsgLawful | grpc/message.go:86-149 | the gRPC parser decides by the front of its bytes, for every size limit |
| Grpc.CutUndoesMsg | grpc/message.go:86-160 | an encoded message within the limit is read back whole, whatever follows |
| Grpc.MessageOnTheWire | grpc/message.go:86-125 | for any flag and four bytes of length: a compressed message and one beyond the limit are refused before their bytes are there |
| Grpc.MessageBytes | grpc/message.go:154-160 | the five bytes in front of every message |
| Grpc.MessageParser.constructor | grpc/message.go:70-75 | a limit that is not positive becomes the default of 4 MB, which is 4194304 |
| Grpc.MessageParser.Parse | grpc/message.go:86-149 | the parser hands over the messages of kept and new bytes as specified, ends at a compressed or too large one, and its buffer, moved in place or grown, then holds exactly the bytes that make no message yet |
| Grpc.MessageChunking | grpc/message.go:86-149 | however DATA payloads cut the stream, the same messages come out |
| Grpc.MessagesRoundTrip | grpc/message.go:86-168 | parsing undoes `EncodeAll` on any list of messages within the limit |
| Grpc.PercentEncode | grpc/status.go:244-269 | the loop escapes exactly the bytes outside 0x20..0x7e and the percent sign |
| Grpc.PercentDecode | grpc/status.go:212-241 | the loop replaces each percent sign followed by two hex digits, of either case, and leaves any other as it is |
| Grpc.UnescapeUndoesEscape | grpc/status.go:212-269 | decoding undoes encoding on every byte string |
| Grpc.EscapeIsPrintable | grpc/status.go:244-269 | an encoded value has only bytes 0x20..0x7e |
| Grpc.EscapeMeans | grpc/status.go:244-269 | byte by byte: printable ASCII but the percent sign stays, any other byte becomes a percent sign and two upper-case digits |
| Grpc.UnescapePair | grpc/status.go:212-241 | a percent sign and two hex digits of either case are one byte |
| Grpc.UnescapeOther | grpc/status.go:212-241 | every other byte stays, a percent sign that no two digits follow among them |
| Grpc.StatusFromHeaders | grpc/status.go:167-186 | the loop takes code and message from the trailer fields, with the unknown code when the status is missing or bad |
| Grpc.AppendStatus | grpc/status.go:189-205 | the code in decimal, and the message only when there is one, behind the other fields |
| Grpc.StatusRoundTrip | grpc/status.go:167-205 | for every 32-bit code, every byte-string message and any other fields in front, the status read is the status written |
| Grpc.StatusMissing | grpc/status.go:167-186 | fields among which there is no grpc-status have code 2 |
| Grpc.StatusMalformed | grpc/status.go:167-186 | at the first grpc-status that is no 32-bit decimal the code is 2 and reading stops |
| Grpc.StatusLast | grpc/status.go:167-186 | otherwise the last grpc-status gives the code, and the last grpc-message behind it the message |
| TlsRecord.CutUndoesRecord | tls/record.go:90-147 | a record within the ciphertext limit is read back whole, whatever follows |
| TlsMeaning.RecordDecodes | tls/record.go:90-139 | any five bytes of a header and whatever follows; more than 2^14 + 256 bytes are refused at once |
| TlsRecord.ParseRecords | tls/record.go:90-139 | the loop's records, bytes consumed and first error are those of the specified parse |
| TlsRecord.RecordChunking | tls/record.go:90-139 | however the stream is cut, the same records, first error and leftover come out |
| TlsRecord.RecordsRoundTrip | tls/record.go:90-147 | any list of records is parsed back with nothing left over |
| TlsRecord.CutUndoesHandshake | tls/record.go:191-255 | a handshake message within the limit is read back whole, whatever follows |
| TlsMeaning.HandshakeDecodes | tls/record.go:191-248 | any four bytes of a header and whatever follows; more than 2^20 bytes are refused at once |
| TlsRecord.HandshakeParser.Parse | tls/record.go:191-248 | the parser hands over the messages of kept and new bytes as specified, its buffer, moved in place or grown, holds what is no message yet, and it counts what it took of the new bytes |
| TlsRecord.HandshakeChunking | tls/record.go:191-248 | however records cut the handshake stream, the same messages come out |
| TlsRecord.HandshakesRoundTrip | tls/record.go:191-255 | any list of handshake messages is parsed back with nothing left over |
| WsFrame.CutWsLawful | websocket/conn_core.go:169-394 | the frame decoder decides by the front of its bytes, for every size limit |
| WsFrame.CutUndoesWs | websocket/conn_core.go:169-394 | decoding undoes the encoding of section 5.2 of RFC 6455 for every opcode, key, length form and payload up to 2^31-1 bytes, whatever follows |
| WsMeaning.WireDecodes | websocket/conn_core.go:169-394 | any header, of whatever form of the length, with whatever follows: length and key are read as section 5.2 of RFC 6455 says, and too large a length is refused without waiting for the payload |
| WsMeaning.OnTheWire | websocket/ws_header.go:22-37 | the bytes of every frame, with the shortest form of its length |
| WsFrame.MaskTwice | websocket/conn_core.go:326-394 | masking twice with one key gives the payload back; which byte of the key goes with which byte is `WsMeaning.MaskAt` |
| WsMeaning.MaskAt | websocket/conn_core.go:437-446 | byte k of a payload is combined with byte k mod 4 of the key |
| Bytes.XorBitwise | tls/aead.go:78-89 | each bit of a combined byte is the sum of the two bits without carry |
| WsFrame.ControlsPass | websocket/conn_core.go:424-575 | control frames between fragments are answered where they stand and do not disturb the message being put together |
| WsFrame.PiecesJoin | websocket/conn_core.go:424-640 | fragments with control frames between them come out as one message with their payloads joined in order |
| WsFrame.MessagesReassemble | websocket/conn_core.go:424-640 | for every sequence of messages with any masking, fragmentation and interleaved control frames, `OnMessage` and the replies are exactly those of the pure decoder (section 5.4 of RFC 6455); for single frames of any raw bytes and key it is said without the masking function by `WsMeaning.FirstFrameMeans` and `NextFrameMeans` |
| WsFrame.BytesToMessages | websocket/conn_core.go:169-640 | and this for the bytes of those frames under every split into reads, with nothing left over |
| WsMeaning.RefusedExactly | websocket/conn_core.go:424-642 | for raw bytes and key of an arbitrary frame on an open connection: it is refused exactly when a reserved bit is set, its opcode is not assigned or out of place, a control frame is cut or too long, or a Close body is bad; then a Close frame with code 1002 leaves, the application is told why once, and the connection is closed |
| WsMeaning.RefusedInSilence | websocket/conn_core.go:424-642 | the same frames when nothing can be sent |
| WsMeaning.FirstFrameMeans | websocket/conn_core.go:484-552 | a text or binary frame outside a message: the handler gets its bytes combined with its key, whole, or they open a message; bad text and a closed connection |
| WsMeaning.NextFrameMeans | websocket/conn_core.go:437-500 | a continuation inside a message comes behind its bytes, and the last one completes it |
| WsMeaning.CloseMeans | websocket/conn_core.go:576-612 | an empty Close is answered with code 1000 and reading goes on; one with a valid code and text is answered with the same bytes, and the connection is closed |
| WsMeaning.PingPongMeans | websocket/conn_core.go:614-640 | a ping is answered with its own bytes and handed over; what happens when it is not answered, and to pongs |
| WsMeaning.AnswerFails | websocket/conn_core.go:576-640 | the same control frames when the answer cannot be sent |
| WsFrame.CloseEndsReading | websocket/conn_core.go:576-605 | a Close frame ends the read loop exactly when it has a body |
| WsFrame.MessageAfterClose | websocket/conn_core.go:576-605 | a message behind an empty Close frame is still delivered |
| WsFrame.BadTextIsReported | websocket/conn_core.go:424-695 | a text message that is not UTF-8 closes the connection; the application is told why exactly when the message came in several frames |
| WsRead.ReadSide.LeftMove | websocket/conn_core.go:264-274 | the overlapping move brings the unread bytes to the front and changes none |
| WsRead.ReadSide.GrowReadBuffer | websocket/conn_core.go:304-311 | the larger buffer holds the same unread bytes at the same place |
| WsRead.ReadSide.ReadBufferSize | websocket/conn_core.go:279-281 | the size asked for is the payload length times the multiple, and the longest header; it has room for the whole payload and the next header, for every multiple from 1.0 |
| WsRead.ReadSide.RoomForHeader | websocket/conn_core.go:172-176 | before a header is read there is room for the longest one, and no unread byte is lost |
| WsRead.ReadSide.ReadFirstTwo | websocket/conn_core.go:172-218 | two header bytes are passed, or none; what is passed followed by what is unread stays the same bytes |
| WsRead.ReadSide.ReadLenAndMask | websocket/conn_core.go:220-245 | length and key are taken, or the decoder's own error is raised, with the same bytes passed and unread |
| WsRead.ReadSide.ReadHeader | websocket/conn_core.go:169-248 | the header states accept or refuse exactly what the decoder does, never lose a byte, and never leave a full buffer full without having passed a byte |
| WsRead.ReadSide.RoomForPayload | websocket/conn_core.go:326-359 | behind an unfinished payload there is room for all that is missing of it |
| WsRead.ReadSide.TakePayload | websocket/conn_core.go:359-394 | exactly the payload leaves the unread bytes, also when the rest is moved to the front |
| WsRead.ReadSide.ReadPayload | websocket/conn_core.go:326-394 | the frame handed over is exactly the decoder's next frame, and the bytes behind it stay |
| WsRead.ReadSide.ReadPayloadAndCallback | websocket/conn_core.go:726-757 | the callback gets the decoder's next frame, once |
| WsRead.ReadSide.ParseOne | websocket/conn_unix.go:584-603 | one turn handles at most one frame, as the pure decoder and handler would; a full buffer gets room or loses bytes |
| WsRead.ReadSide.MakeRoom | websocket/conn_unix.go:551-569 | each pass over a full buffer strictly decreases a measure, so the read loop cannot spin |
| WsRead.ReadSide.ReadTurn | websocket/conn_unix.go:487-582 | each turn of the read loop uses up input or lowers the measure of the full buffer, and keeps handled messages and unhandled bytes in step with the bytes read |
| WsRead.ReadSide.ReadAll | websocket/conn_unix.go:487-582 | the first loop ends, and what it has handled so far equals what the decoder makes of the bytes read; without an error these are at least all that the first read could find, and an end or failure that comes first breaks the loop |
| WsRead.ReadSide.ParseAll | websocket/conn_unix.go:584-603 | the second loop leaves no whole frame unhandled |
| WsRead.FullIsHandled | websocket/conn_unix.go:551-569 | what is handled while a buffer of batch size or more is full is what the flat decoder would handle next, the first whole frame at least, whatever lends or copies payloads |
| WsRead.ReadSide.ReadAndParse | websocket/conn_unix.go:484-624 | both loops on a buffer with room: the promises of the whole event |
| WsRead.ReadSide.ReleaseBuffer | websocket/conn_unix.go:604-624 | after a call without an error the buffer is given back only when nothing in it is unread |
| WsRead.ReadSide.ProcessWebsocketFrame | websocket/conn_unix.go:471-624 | one readable event: messages and error are exactly those of decoder and handler on all bytes received so far, under every kernel, buffer move, growth and release, and what the first read could find is among them; on a failing socket, those of a first part, and `left` is the rest; something whole is lost only if the first read fills the free space; for one read before the end, in buffers of every size, it is said exactly what has been handled and what is lost |
| WsRead.ReadSide.Serve | websocket/conn_unix.go:471-624 | the same over any number of readable events, the failing one included: something whole is lost only if the first read of that event fills the free space it began with |
| WsRead.NothingLostExactly | websocket/conn_unix.go:487-624 | bytes that were received and not handled would have changed nothing exactly when they hold no whole frame and nothing to refuse |
| WsRead.FirstByte | websocket/conn_unix.go:471-624 | a new reader that got the first byte of a message, in a small buffer, waits for the rest of it |
| WsRead.MessageIsLost | websocket/conn_unix.go:487-582 | a run of the reader in which a whole message has been received and is not delivered, because its last read fills the buffer |
| WsRead.SettleCases | websocket/conn_unix.go:584-603 | handling all whole frames goes frame by frame, and its result does not depend on when it stops for want of bytes |
| WsRead.MessagesSettle | websocket/conn_core.go:169-640 | what the reader is proved to compute is, on the bytes of any messages, exactly those messages |
| WsWrite.WsHeader | websocket/ws_header.go:22-37 | the bytes written in place are the header of an unmasked final frame in its shortest length form; the rest of the buffer is untouched |
| WsWrite.ServerFrameDecodes | websocket/ws_header.go:22-37 | the peer's decoder reads a server frame back: opcode, end mark, no key, payload |
| WsWrite.WriteSide.AppendToWbufList | websocket/conn_unix.go:285-328 | the backlog grows by exactly the bytes given, at its end; they share the last buffer exactly when it has room for them, and else make one more |
| WsWrite.WriteSide.CompactWbufList | websocket/conn_unix.go:270-280 | when the slots in front have been written out, what was sent followed by the remaining list is still all that was accepted |
| WsWrite.WriteSide.QueueRest | websocket/conn_unix.go:331-363 | after a partial write exactly the bytes not taken are queued behind the backlog |
| WsWrite.WriteSide.WriteList | websocket/conn_unix.go:392-464 | whatever the kernel takes, bytes sent followed by the backlog stay what was accepted; something is left only if the socket has just taken less than it was given, and then its event is registered |
| WsWrite.WriteSide.Write | websocket/conn_unix.go:369-464 | so it is with new bytes, which come behind the backlog |
| WsWrite.WriteSide.SendOrQueue | websocket/conn_core.go:819-865 | a frame on an idle socket is taken whole, or its rest is the backlog, with its event registered unless that fails, for both copied and gathered writes |
| WsWrite.WriteSide.WriteMessage | websocket/conn_core.go:763-868 | each accepted message adds exactly its frame to the output, corked or not, and outside a cork waits only for a socket that has just taken less than it was given; text that is not UTF-8 changes nothing |
| WsWrite.WriteSide.CorkStartLocked | websocket/cork.go:94-106 | corking starts with one buffer, no bytes, and room for a quarter more than the hint, of which at most 32 KB count |
| WsWrite.WriteSide.MaybeCork | websocket/cork.go:72-91 | corking starts exactly when it has not started, more bytes of the batch follow and the backlog is empty; else nothing changes |
| WsWrite.WriteSide.GrowCork | websocket/cork.go:193-207 | a new cork buffer has room for what is needed, and there is none when the old one has 16 KB or more is needed |
| WsWrite.WriteSide.CorkWrite | websocket/cork.go:112-180 | a corked frame is the next frame of the output; when the buffer holds it the socket is not called; else the cork grows, or overflows in order |
| WsWrite.WriteSide.CorkOverflow | websocket/cork.go:140-180 | cork buffer, header and payload leave or queue in this order, at any cut the kernel makes |
| WsWrite.WriteSide.CorkEnd | websocket/cork.go:211-241 | corking ends, no byte is lost or added, and what is left waits for a socket that has just taken less than it was given |
| WsWrite.WriteSide.Drive | websocket/cork.go:72-241 | corking is invisible: over any sequence of messages, cork marks and writable events, under every kernel, bytes taken by the socket followed by the backlog are the frames in call order, while corking the backlog has at most one buffer, and a backlog has its event to come unless registering for it failed |
| WriteQueue.SlotWritten | engine/conn.go:518-544 | writing a slot in full or in part keeps what is owed: sent bytes followed by the rest of the list |
| Engine.ReadSide.GrowReadBuffer | engine/conn.go:383-410 | the buffer grows exactly when it is below 4 MB, to 16 KB or twice its size as far as that allows, and keeps the unconsumed bytes |
| Engine.ReadSide.Read | engine/conn.go:229-311 | what a read adds is all that the socket has ready, in order, and the error it reports is what the socket has behind that, unless the buffer gets stuck; if there are data, something is read exactly when the buffer was not stuck; the end of the stream is reported only when nothing is unconsumed |
| Engine.ReadSide.ConsumeRead | engine/conn.go:326-355 | exactly the first `n` unconsumed bytes go, and the memory is kept until the next read |
| Engine.ReadSide.ReadAndDispatch | engine/eventloop.go:194-226 | the handler is given exactly the received and unconsumed bytes, once, and the rest is there the next time; new data are among them exactly when the buffer was not stuck; an end or failure of the socket is reported behind them |
| Engine.ReadSide.Serve | engine/eventloop.go:194-226 | over any number of events, a self-delimiting protocol has done what one pass over all received bytes does, and the buffer holds just its leftover; received is all that was ready, when it is less than 4 MB |
| Engine.FillUp | engine/conn.go:229-410 | a run from a new connection that leads to a stuck buffer with unconsumed bytes in it, though the protocol uses some up at every event |
| Engine.GetsStuck | engine/conn.go:229-410 | from then on nothing is read, whatever the socket has |
| Engine.WriteSide.AppendToWbufList | engine/conn.go:556-576 | the backlog grows by exactly the bytes given, at its end; they share the last buffer exactly when it has room for them |
| Engine.WriteSide.FlushLocked | engine/conn.go:518-544 | until the first hard error, bytes sent followed by the backlog are what was accepted; something is left only if the socket has just taken less than it was given, and then a write event is armed; on a hard error slots may be left empty |
| Engine.WriteSide.Write | engine/conn.go:418-455 | new bytes come behind the backlog, under every kernel, and are left there only if the socket has just taken less than it was given; an older backlog that fails is not reported |
| Engine.WriteSide.Writev | engine/conn.go:461-499 | the same for two pieces, in order |
| Engine.FailureIsNotReported | engine/conn.go:418-499 | a run under a scripted kernel: nothing of a first piece is taken, the flush that a second write makes fails, and that write, of either kind, reports success |
| Engine.WriteSide.OnWritable | engine/eventloop.go:147-188 | the writable event sends on from where the last one stopped, as far as the socket takes it, and arms the next when bytes are left |
| Engine.WriteSide.Drive | engine/conn.go:187-576 | over any mix of writes and events, until the first hard error, socket-accepted bytes followed by the backlog are all written bytes in order, and a non-empty backlog has an armed write event |
| TlsCrypto.NonceBytes | tls/aead.go:78-89 | the loop fills the array with the iv, its last eight bytes combined with the record number |
| TlsCrypto.NonceInjective | tls/aead.go:78-89 | different record numbers give different nonces (section 5.3 of RFC 8446) |
| TlsMeaning.NonceMeans | tls/aead.go:78-89 | the twelve bytes of a nonce: four of the iv, and eight combined with the bytes of the record number |
| TlsMeaning.SealMeans | tls/aead.go:93-127 | what is sealed, under which nonce and with which five bytes of additional data; nothing when the numbers are used up |
| TlsMeaning.OpenMeans | tls/aead.go:130-182 | what is opened, and the three ways in which it can fail |
| TlsMeaning.ExpandLabelMeans | tls/keyschedule.go:70-84 | the bytes that HKDF-Expand is given for a label and a context (section 7.1 of RFC 8446) |
| TlsMeaning.KeySchedule | tls/keyschedule.go:54-250 | the steps from zeros to the handshake and the master secret, the key of a Finished message, and key and iv of a direction |
| TlsCrypto.OpenUndoesSeal | tls/aead.go:107-182 | for equal key, iv and number, opening gives back content and real type of every sealed record, even when the content ends in zeros, and both numbers move by one (section 5.2 of RFC 8446) |
| TlsCrypto.PaddingIsNotTakenOff | tls/aead.go:130-182 | a record with zeros behind its real type is read as it was meant exactly when there are none |
| TlsCrypto.RecordProtector.SealRecord | tls/aead.go:107-127 | the object seals as specified and refuses when its numbers are used up |
| TlsCrypto.RecordProtector.OpenRecord | tls/aead.go:130-182 | the object opens exactly the authentic records with a real type, content as specified; its number moves exactly when the record is authentic, also for one without content, so a forged record leaves it |
| TlsHello.ExtensionsRoundTrip | tls/handshake.go:394-410 | any list of extensions is read back in order |
| TlsHello.AlpnListRoundTrip | tls/handshake.go:217-496 | a protocol list is read back name by name |
| TlsHello.NegotiateAlpn | tls/handshake.go:379-391 | the loops find the server's choice |
| TlsHello.NegotiateIsBest | tls/handshake.go:379-391 | whenever the client offers a name of the server's list there is a choice, and it stands at or before that name in the list |
| TlsHello.AlpnAnswerRoundTrip | tls/handshake.go:698-741 | the client reads the protocol the server chose, or none |
| TlsHello.KeyShareRoundTrip | tls/handshake.go:415-679 | a key share reads back from the client's form and from the server's, though the reader tries the server's form first |
| TlsHello.ClientHelloRoundTrip | tls/handshake.go:147-289 | the server reads back every field, every suite, the server name, the protocols and the key share of any ClientHello that is printed |
| TlsHello.ServerHelloRoundTrip | tls/handshake.go:292-350 | the client reads back every field and the key share of any ServerHello that is printed |
| TlsMeaning.ClientHelloOnTheWire | tls/handshake.go:227-289 | the bytes of a ClientHello, extension by extension |
| TlsMeaning.ServerHelloOnTheWire | tls/handshake.go:317-350 | and those of a ServerHello |
| TlsMeaning.ChoiceOnTheWire | tls/handshake.go:698-715 | and those of EncryptedExtensions |
| TlsMeaning.ClientHelloRead | tls/handshake.go:147-224 | a ClientHello of any content, from any peer: when it is accepted and what is read of it, also without extensions |
| TlsMeaning.ClientHelloForm | tls/handshake.go:147-224 | whatever is accepted has the form that statement is about |
| TlsMeaning.ServerHelloRead | tls/handshake.go:292-315 | a ServerHello of any content: what is read of it and where its extensions begin |
| TlsMeaning.ExtensionRead | tls/handshake.go:394-404 | extensions of any content are read one by one |
| TlsMeaning.ExtensionMeans | tls/handshake.go:183-222 | which extensions of a ClientHello count, and what for |
| TlsMeaning.ChoiceMeans | tls/handshake.go:718-741 | of the extensions a server sends encrypted, in any form, the name that the client takes |
| TlsMeaning.ShareMeans | tls/handshake.go:415-679 | the key share of any list of extensions is the first that is one, and its first entry of the group |
| TlsMachine.RecordOnce | tls/state.go:270-320 | whatever record arrives, no key object seals twice with one number, also while handshake and application fields share an object |
| TlsMachine.WriteOnce | tls/state.go:754-777 | nor does it for plaintext of any size |
| TlsMachine.NoncesAreUnique | tls/state.go:476-777 | in every history of either side, any two seals on record under the same key object used different nonces |
| TlsMeaning.RecordMeans | tls/state.go:270-331 | what a record of each outer type leads to; a fatal alert is an error, unknown types are passed over |
| TlsMeaning.ProtectedMeans | tls/state.go:293-315 | what a protected record of each inner type leads to; one that is not authentic changes nothing |
| TlsMeaning.MessageMeans | tls/state.go:334-385 | what a handshake message of each type leads to: transcript, phase, protocol, refusal |
| TlsMeaning.FinishedChecked | tls/state.go:597-612 | a Finished message with any other data is refused and changes nothing |
| TlsMeaning.HelloRefused | tls/state.go:388-470 | a server refuses a hello exactly when it cannot be read, has no suite of ours, no share, or a share that gives no secret |
| TlsMeaning.WriteMeans | tls/state.go:754-777 | application data leave in records of 2^14 bytes, the last as long as what is left |
| TlsMeaning.FirstRecords | tls/state.go:183-238 | the first records of both sides, by type and version |
| TlsHandshake.ServerAnswers | tls/state.go:388-488 | the server accepts an honest ClientHello and is then in the state that the handshake theorem goes on from; which secret is whose is `TlsSecrets.ServerHandshakeSecrets` |
| TlsHandshake.ClientGreets | tls/state.go:545-594 | the client accepts the answer and derives keys from the same transcript and the same shared secret; which secret is whose is `TlsSecrets.ClientHandshakeSecrets` |
| TlsHandshake.SayReaches | tls/state.go:727-739 | a protected handshake message reaches the other side's handshake parser unchanged and moves both numbers by one |
| TlsHandshake.FlightMessage | tls/state.go:334-488 | each message of the server's flight keeps both sides paired: same keys, numbers and transcript |
| TlsHandshake.AppCrossed | tls/state.go:673-688 | from equal transcripts, each side's application read secret is the other's write secret; under which label is said by `TlsSecrets.ServerAppSecrets` and `ClientAppSecrets` |
| TlsHandshake.FinishedHeard | tls/state.go:597-659 | the client's check of the server's Finished passes, at the same transcript point (section 4.4.4 of RFC 8446) |
| TlsHandshake.FinishedAnswered | tls/state.go:597-659 | and so does the server's check of the client's |
| TlsHandshake.FinishedCrosses | tls/state.go:597-714 | both Finished messages pass and both sides switch to application keys that cross over |
| TlsHandshake.Delivered | tls/state.go:248-320 | however the bytes of some records are cut, a machine does what it does with the records |
| TlsHandshake.FittingCompletes | tls/state.go:183-714 | the handshake completes under every chunking when both messages fit |
| TlsHandshake.TooLongFails | tls/record.go:90-139 | when one of them does not, the client meets an error, under every chunking of the flight |
| TlsHandshake.SomeDoNotFit | tls/state.go:727-739 | there are honest machines whose certificate does not fit |
| TlsHandshake.ModestIsHonest | tls/state.go:183-238 | names of a modest length, and a certificate and signatures below the record limit, are enough for a handshake that completes |
| TlsHandshake.HandshakeCompletes | tls/state.go:183-714 | for two honest machines and every chunking of all three flights: no side fails, no byte is left over, both end Established with the same suite and the same protocol, the server's best, and their keys cross over, exactly when certificate and signature message each fit one record |
| TlsSecrets.ServerHandshakeSecrets | tls/state.go:462-488 | after its answer to an honest hello the server writes under the secret of "s hs traffic" and reads under that of "c hs traffic", made of the shared secret and the transcript up to ServerHello (section 7.1 of RFC 8446) |
| TlsSecrets.ClientHandshakeSecrets | tls/state.go:572-594 | the client, on reading that answer, the other way round |
| TlsSecrets.ServerAppSecrets | tls/state.go:388-543 | behind its flight the transcript of the server is the six messages in order, its signature over 64 spaces, the purpose and the hash up to Certificate among them, and its Finished under "s hs traffic"; its application secrets are those of "s ap traffic" for writing and "c ap traffic" for reading, of the master secret and that transcript |
| TlsSecrets.ClientAppSecrets | tls/state.go:597-714 | the client that has heard it holds the same secrets the other way round, with a new key object for each, and its own Finished is under "c hs traffic" |
| TlsSecrets.ServerEnds | tls/state.go:597-714 | and so does the server when it has heard that Finished |
| TlsTransport.CrossedIsLinked | tls/state.go:698-714 | after the handshake both directions start with equal keys and numbers |
| TlsTransport.RecordCrosses | tls/aead.go:107-182 | one record of application data arrives as written and moves both numbers by one |
| TlsTransport.WriteCrosses | tls/state.go:754-789 | plaintext of any size comes out of the other side unchanged and in order |
| TlsTransport.DataCrosses | tls/state.go:248-789 | any number of writes, under every chunking of the bytes, come out unchanged and in order with nothing left over |
| TlsTransport.InFlight | tls/aead.go:107-182 | at every moment the two sequence numbers differ by exactly the records under way |
| TlsInner.HandedExactly | tls/engine.go:109-158 | for any self-delimiting protocol: it records the same items as from the whole plaintext, whatever the second batch is, exactly when the first ends where an item ends or holds one that is refused |
| TlsInner.HandedWhole | tls/engine.go:109-158 | and then, over any number of batches and for any handler, all it does is the same, first error included |
| TlsInner.FramesHandedExactly | tls/engine.go:109-158 | for HTTP/2 inside: exactly when the plaintext of the event is whole frames by their length fields, or holds a frame that is refused |
| TlsInner.FrameOverTwoEventsIsLost | tls/engine.go:137-155 | a PING whose header and payload come in two events never arrives |
| TlsConn.StateMachine.Begin | tls/state.go:183-238 | only a client starts; a new client then holds exactly the first flight of the handshake theorem and is in the state that theorem starts the client from; nothing put out before is lost |
| TlsConn.StateMachine.FeedHandshake | tls/state.go:270-320 | handshake bytes are cut and dispatched as specified, across records |
| TlsConn.StateMachine.FeedRecord | tls/state.go:270-331 | each record type is opened, dispatched or refused as specified |
| TlsConn.StateMachine.Feed | tls/state.go:248-264 | the object takes as many whole records as there are; after an error it takes nothing more; what it has put out and received only grows |
| TlsConn.StateMachine.Write | tls/state.go:754-777 | the loop seals records of at most 2^14 bytes as specified, and nothing before the handshake is done |
| TlsConn.StateMachine.TakeOutput | tls/state.go:742-749 | after every call, all bytes ever put out for the peer have been handed out, each once and in order |
| TlsConn.StateMachine.ReadPlaintext | tls/state.go:782-789 | after every call, all plaintext ever received has been handed out, each byte once and in order |
| TlsConn.Connect | tls/state.go:183-714 | two new objects that pass their output to each other, flight by flight, end Established, without error, with the same protocol and linked in both directions |
| TlsConn.Transfer | tls/state.go:754-789 | data written to one of two linked objects comes out of the other as it was, and they stay linked |

## Left out

- Concurrency other than the ring and its worker: the locks of a connection are taken as held, so its methods are steps; work started from another goroutine is a call between two steps.
- Task pools for callbacks; a shard has one worker, since the source reduces any larger number to one (websocket/task_parse.go:87-89); ring positions are unbounded, where the source's wrap at 2^64.
- Aliasing of payloads: item payloads and callback arguments are byte sequences, so zero-copy hand-over and the life of pooled buffers are not captured. The buffers that move and grow, of connections and parsers, are arrays; the HTTP/2 assembly of a header block and the preface are sequences, since they are only appended to.
- HTTP/2 streams are values in a map, where the source has objects; a stream object that a handler keeps after it has left the table is modelled by `Attached`.
- The HTTP/2 connection is split: its sending half is `SendSide`, its receiving half `RecvSide`, which has the state of the sending half as one field and takes its steps by the function `SendSide` is proved against.
- HPACK and the rules for header fields: an arbitrary verdict on each header block (undecodable, bad, or good with a declared length).
- Stream numbers chosen by the local side, GOAWAY and PING contents kept for the application, and the text of errors.
- Http2Send.SendSide.WriteData: takes bodies of less than 2^31 bytes, as the source's 32-bit windows do.
- Http2Send.BodyArrivesWhole: is about one body on a queue that was empty; for many bodies there are `OrderKeptExactly` and `ManyBodiesInOrder`.
- WebSocket compression and context takeover, clients and their masking, dialing, the upgrade, fragmentation on writing, deadlines, and handing callbacks to other goroutines.
- WsFrame.MessagesReassemble: assumes that no callback closes the connection and no reply fails, since after that nothing is delivered; the single steps and the reader are proved without it.
- WsFrame.CutUndoesWs: payloads have at most 2^31-1 bytes; longer ones are refused in the model, where the source's conversion to a signed number is out of scope.
- UTF-8 checking of WebSocket text is an arbitrary predicate.
- The buffer size multiple of the WebSocket reader is a real number of at least 1.0, not a 32-bit float; the longest frame header is taken as 14 bytes.
- Buffers from the pool have at least the length asked for; their capacity above it is arbitrary. The pool is not part of this model.
- Engine.WriteSide.FlushLocked: after the first hard error only that the connection is broken and which slots are empty is said.
- The engine's poll and accept loops, timers, write hooks, statistics, flow back-pressure and connection tables; the kernel is an arbitrary script of reads and an arbitrary choice for each write.
- Cryptography: hash, HMAC, HKDF, key agreement, AEAD and signatures are functions of which only lengths, commuting key agreement and open-after-seal are known. The byte loop of HKDF-Expand is one of them.
- TlsHandshake.HandshakeCompletes: both sides hold the same primitives, the client's names and protocols fit their length fields and its hello one record, the server has a certificate and a key that signs, and certificate and signature are not so long that the 16-bit length of a record wraps. `ModestIsHonest` says what suffices for this, `SomeAreModest` and `SomeDoNotFit` that both sides of the condition can be met.
- WsRead.ReadSide.ProcessWebsocketFrame: with several reads before the socket ends, the exact place where handling stops depends on the sizes of pooled buffers, which are arbitrary; `left` is what is lost, and that the first read must have filled the buffer holds for every script.
- TlsTransport.DataCrosses: the record numbers stay below 2^64-1; beyond that the source refuses to seal.
- Failures of random number and key generation, session tickets' contents, pre-shared keys and key updates, which the source does not do.
- The wrapper of the standard library's TLS (tls/conn.go, tls/memconn.go), HTTP/1.1, and the HTTP/3 transport, which is an external library.
- gRPC status details other than code and message, and content types.
