/** The receiving side of an HTTP/2 connection, with everything a received frame or a
    call of the local side changes (http2/conn.go, http2/engine.go). */
module Http2Conn {
  import opened Bytes
  import opened Framing
  import opened Http2Frame
  import opened Http2Send

  const MAX_RECV_WINDOW := 0x10_0000

  // ---- state ------------------------------------------------------------------------

  datatype StreamState = Open | HalfClosedRemote | HalfClosedLocal | Closed

  /** `declared` is the content length the headers gave, -1 without one. */
  datatype Stream = Stream(state: StreamState, recvWindow: int, declared: int, bodyLen: nat)

  datatype HeaderBlock = HeaderBlock(id: nat, block: seq<byte>, endStream: bool)

  /** The block being put together from HEADERS and CONTINUATION. */
  datatype Assembly = Assembly(active: bool, id: nat, block: seq<byte>, endStream: bool)

  /** What HPACK decoding and header validation say of a block. */
  datatype Verdict = Undecodable | BadFields | Good(contentLength: Option<nat>)

  /** What the local side may do between frames, or in a handler callback. */
  datatype Local =
    | Register(id: nat)
    | Close(id: nat)
    | SendData(id: nat, data: seq<byte>, end: bool)
    | SendHeaders(id: nat, block: seq<byte>, endStream: bool)

  type Call = l: Local | l.SendData? ==> |l.data| <= MAX_WINDOW witness Close(0)

  type VSend = s: Send | Valid(s) witness NewSend

  /** The history of a connection: streams coming into being, DATA frames accepted with the
      bytes behind their padding, what the handler was told, END_STREAM accepted, and
      flow-controlled bytes accepted. */
  datatype Mark =
    | Opened(id: nat)
    | Registered(id: nat)
    | Accepted(id: nat, data: seq<byte>, endStream: bool)
    | GotHeaders(id: nat, endStream: bool)
    | GotData(id: nat, data: seq<byte>, endStream: bool)
    | GotReset(id: nat, code: nat)
    | Ended(id: nat)
    | Taken(id: nat, n: nat)

  /** What the code calls but does not contain. The decoder is stateful: its answer depends on
      all blocks it was given so far; the handler's calls on all it was told. */
  datatype Env = Env(verdict: seq<HeaderBlock> -> Verdict, handler: seq<Mark> -> seq<Call>)

  datatype Conn = Conn(
    isClient: bool, send: VSend, streams: map<nat, Stream>, maxPeer: nat, lastId: nat, hdr: Assembly,
    recvWindow: int, localInitial: int, closed: bool,
    out: seq<Frame>, blocks: seq<HeaderBlock>, trace: seq<Mark>)

  function NewConn(isClient: bool): Conn {
    Conn(isClient, NewSend, map[], 0, 0, Assembly(false, 0, [], false),
         DEFAULT_INITIAL_WINDOW, DEFAULT_INITIAL_WINDOW, false, [], [], [])
  }

  function CreditFrame(id: nat, n: nat): Frame {
    Frame(WINDOW_UPDATE, 0, id, ToBE(n, 4))
  }

  /** What OnOpen leaves: a server opens both kinds of window wide (http2/engine.go:96-118). */
  function Start(isClient: bool): Conn {
    var c := NewConn(isClient);
    if isClient then c.(out := [Frame(SETTINGS, 0, 0, SettingsPayload([Setting(5, DEFAULT_MAX_FRAME_SIZE)]))])
    else
      c.(out := [Frame(SETTINGS, 0, 0,
          SettingsPayload([Setting(5, DEFAULT_MAX_FRAME_SIZE), Setting(4, MAX_RECV_WINDOW)])),
                 CreditFrame(0, MAX_RECV_WINDOW - DEFAULT_INITIAL_WINDOW)],
         localInitial := MAX_RECV_WINDOW, recvWindow := MAX_RECV_WINDOW)
  }

  type Result = (Conn, Option<Error>)

  // ---- the local side -----------------------------------------------------------------

  function DataFrames(cs: seq<Chunk>): seq<Frame> {
    if cs == [] then [] else [Frame(DATA, Bits(cs[0].end, 1), cs[0].id, cs[0].data)] + DataFrames(cs[1..])
  }

  /** A step of the sending side, on a connection. */
  function Sending(c: Conn, e: Event): (r: Result)
    requires Possible(e)
  {
    StepKeepsValid(c.send, e);
    var r := Step(c.send, e);
    (c.(send := r.s, out := c.out + DataFrames(r.frames)), r.error)
  }

  /** stream(id): a stream that is not there is made, by the peer's HEADERS or by a call. */
  function Make(c: Conn, id: nat, mark: Mark): Conn {
    if id in c.streams then c
    else
      Sending(c, Event.Register(id)).0.(
        streams := c.streams[id := Stream(Open, c.localInitial, -1, 0)], trace := c.trace + [mark])
  }

  function Drop(c: Conn, id: nat): Conn {
    Sending(c, Forget(id)).0.(streams := c.streams - {id})
  }

  function Act(c: Conn, l: Call): Conn {
    match l
    case Register(id) => Make(c, id, Registered(id))
    case Close(id) => Drop(c, id)
    case SendData(id, data, end) => Sending(c, WriteData(id, data, end)).0
    case SendHeaders(id, block, endStream) =>
      var c' := Make(c, id, Registered(id));
      c'.(out := c'.out + BlockFrames(c'.send.maxFrame, id, block, endStream))
  }

  function Acts(c: Conn, ls: seq<Call>): Conn
    decreases |ls|
  {
    if ls == [] then c else Acts(Act(c, ls[0]), ls[1..])
  }

  // ---- the stream table -----------------------------------------------------------------

  datatype Kind = HeadersKind | DataKind | ResetKind | UpdateKind

  /** checkStreamRecv: whether a frame of this kind may come on the stream now. */
  function CheckRecv(c: Conn, id: nat, kind: Kind): (r: Result)
    ensures r.0 == c.(maxPeer := r.0.maxPeer) && r.0.maxPeer >= c.maxPeer
    ensures r.1.None? ==> r.0.maxPeer >= id
  {
    if id !in c.streams then
      if kind != HeadersKind then (c, Some(ConnError(PROTOCOL_ERROR)))
      else if c.isClient && id % 2 == 1 then (c, Some(ConnError(PROTOCOL_ERROR)))
      else if !c.isClient && id % 2 == 0 then (c, Some(ConnError(PROTOCOL_ERROR)))
      else if id <= c.maxPeer then (c, Some(ConnError(PROTOCOL_ERROR)))
      else (c.(maxPeer := id), None)
    else
      var state := c.streams[id].state;
      if (state == HalfClosedRemote || state == Closed) && (kind == DataKind || kind == HeadersKind) then
        (c, Some(StreamError(id, STREAM_CLOSED)))
      else if state == HalfClosedLocal && kind == HeadersKind then (c, Some(StreamError(id, STREAM_CLOSED)))
      else (c.(maxPeer := if id > c.maxPeer then id else c.maxPeer), None)
  }

  predicate LengthWrong(c: Conn, s: Stream) {
    !c.isClient && s.declared >= 0 && s.bodyLen != s.declared
  }

  /** applyRecvEndStream and forgetIfClosed on a stream object that the table may no longer
      hold, when the handler closed it in the callback. */
  function EndRecv(c: Conn, id: nat, s: Stream, attached: bool, endStream: bool): Conn {
    if !endStream then c
    else
      var s' := s.(state := if s.state == Open then HalfClosedRemote
                         else if s.state == HalfClosedLocal then Closed else s.state);
      var c' := if attached then c.(streams := c.streams[id := s']) else c;
      if s'.state == Closed then Drop(c', id) else c'
  }

  predicate Attached(ls: seq<Call>, id: nat) {
    Close(id) !in ls
  }

  /** The end marks of a frame: what the handler is told, then that END_STREAM was accepted. */
  function Marks(told: seq<Mark>, id: nat, endStream: bool): seq<Mark> {
    told + (if endStream then [Ended(id)] else [])
  }

  /** The state in which a callback about a stream starts. */
  function Telling(c: Conn, id: nat, s: Stream, told: seq<Mark>, endStream: bool): Conn {
    c.(streams := c.streams[id := s], trace := c.trace + Marks(told, id, endStream))
  }

  function HandlerCalls(env: Env, told: seq<Mark>, trace: seq<Mark>): seq<Call> {
    if told == [] then [] else env.handler(trace)
  }

  // ---- received frames ----------------------------------------------------------------------

  /** The stream, with the length the request declared. */
  function WithLength(c: Conn, id: nat, contentLength: Option<nat>): Stream
    requires id in c.streams
  {
    if c.isClient then c.streams[id]
    else c.streams[id].(declared := if contentLength.Some? then contentLength.value else -1)
  }

  /** Mark, call back, and end the receiving direction when the frame does. */
  function DeliverHeaders(env: Env, c: Conn, id: nat, contentLength: Option<nat>, endStream: bool): Result
    requires id in c.streams
  {
    var s := WithLength(c, id, contentLength);
    var told := [GotHeaders(id, endStream)];
    var c1 := Telling(c, id, s, told, endStream);
    var calls := HandlerCalls(env, told, c1.trace);
    var c2 := EndRecv(Acts(c1, calls), id, s, Attached(calls, id), endStream);
    (c2, if endStream && LengthWrong(c, s) then Some(StreamError(id, PROTOCOL_ERROR)) else None)
  }

  /** The stream of a header block: checked, and made when it is new. */
  function Admit(c: Conn, id: nat): (r: Result)
    ensures r.1.None? ==> id in r.0.streams
  {
    var (c1, e) := CheckRecv(c, id, HeadersKind);
    if e.Some? then (c1, e) else (Make(c1, id, Opened(id)), None)
  }

  function FinishHeaders(env: Env, c: Conn, id: nat, block: seq<byte>, endStream: bool): Result {
    var c1 := c.(blocks := c.blocks + [HeaderBlock(id, block, endStream)]);
    var v := env.verdict(c1.blocks);
    if v.Undecodable? then (c1, Some(ConnError(COMPRESSION_ERROR)))
    else
      var (c2, e) := Admit(c1, id);
      if e.Some? then (c2, e)
      else if v.BadFields? then (c2, Some(StreamError(id, PROTOCOL_ERROR)))
      else DeliverHeaders(env, c2, id, v.contentLength, endStream)
  }

  /** The payload without padding; `None` when the pad length is missing or too long. */
  function Unpad(f: Frame): (r: Option<seq<byte>>)
    ensures r.Some? ==> |r.value| <= |f.payload|
  {
    if !Flag(f.flags, PADDED) then Some(f.payload)
    else if f.payload == [] then None
    else
      var rest := f.payload[1..];
      if f.payload[0] > |rest| then None else Some(rest[..|rest| - f.payload[0]])
  }

  /** The stream a priority field depends on; its top bit is dropped. */
  function DependsOn(b: seq<byte>): nat
    requires |b| >= 4
  {
    FromBE(b[..4]) % 0x8000_0000
  }

  function OnHeaders(env: Env, c: Conn, f: Frame): Result {
    var p := Unpad(f);
    if p.None? then (c, Some(Malformed))
    else if Flag(f.flags, PRIORITY_FLAG) && |p.value| < 5 then (c, Some(ConnError(FRAME_SIZE_ERROR)))
    else if Flag(f.flags, PRIORITY_FLAG) && DependsOn(p.value) == f.id then (c, Some(StreamError(f.id, PROTOCOL_ERROR)))
    else
      var payload := if Flag(f.flags, PRIORITY_FLAG) then p.value[5..] else p.value;
      var endStream := Flag(f.flags, END_STREAM);
      if !Flag(f.flags, END_HEADERS) then (c.(hdr := Assembly(true, f.id, payload, endStream)), None)
      else FinishHeaders(env, c, f.id, payload, endStream)
  }

  function OnContinuation(env: Env, c: Conn, f: Frame): Result {
    if !c.hdr.active || c.hdr.id != f.id then (c, Some(Malformed))
    else
      var c1 := c.(hdr := c.hdr.(block := c.hdr.block + f.payload));
      if !Flag(f.flags, END_HEADERS) then (c1, None)
      else FinishHeaders(env, c1.(hdr := c1.hdr.(active := false)), f.id, c1.hdr.block, c.hdr.endStream)
  }

  function Deduct(c: Conn, id: nat, n: int): Conn {
    c.(recvWindow := c.recvWindow - n,
       streams := if id in c.streams then c.streams[id := c.streams[id].(recvWindow := c.streams[id].recvWindow - n)]
           else c.streams)
  }

  /** giveRecvWindow: deduct, check, and give the same credit back on both levels. */
  function GiveRecvWindow(c: Conn, id: nat, n: nat): Result {
    var c1 := Deduct(c, id, n);
    if c1.recvWindow < 0 then (c.(recvWindow := c1.recvWindow), Some(FlowControl))
    else if id in c1.streams && c1.streams[id].recvWindow < 0 then (c1, Some(FlowControl))
    else if n <= 0 then (c1.(trace := c.trace + [Taken(id, n)]), None)
    else
      (Deduct(c1, id, -(n as int)).(
         out := c.out + [CreditFrame(0, n)] + (if id in c.streams then [CreditFrame(id, n)] else []),
         trace := c.trace + [Taken(id, n)]), None)
  }

  /** Body bytes go to the handler; an empty body does not, not even with END_STREAM. */
  function DeliverData(env: Env, c: Conn, id: nat, body: seq<byte>, endStream: bool): Result
    requires id in c.streams
  {
    var s := c.streams[id].(bodyLen := c.streams[id].bodyLen + |body|);
    var told := if |body| > 0 then [GotData(id, body, endStream)] else [];
    var c0 := c.(trace := c.trace + [Accepted(id, body, endStream)]);
    var c1 := Telling(c0, id, s, told, endStream);
    var calls := HandlerCalls(env, told, c1.trace);
    var c2 := Acts(c1, calls);
    if endStream && LengthWrong(c, s) then (c2, Some(StreamError(id, PROTOCOL_ERROR)))
    else (EndRecv(c2, id, s, Attached(calls, id), endStream), None)
  }

  function OnData(env: Env, c: Conn, f: Frame): Result {
    var p := Unpad(f);
    if p.None? then (c, Some(Malformed))
    else
      var (c1, e) := CheckRecv(c, f.id, DataKind);
      if e.Some? then (c1, e)
      else if f.id !in c1.streams then (c1, Some(ConnError(PROTOCOL_ERROR)))
      else
        var (c2, e2) := GiveRecvWindow(c1, f.id, |f.payload|);
        if e2.Some? then (c2, e2) else DeliverData(env, c2, f.id, p.value, Flag(f.flags, END_STREAM))
  }

  function OnRSTStream(env: Env, c: Conn, f: Frame): Result {
    var (c1, e) := CheckRecv(c, f.id, ResetKind);
    if e.Some? then (c1, e)
    else
      var told := [GotReset(f.id, FromBE(f.payload))];
      var c2 := c1.(trace := c1.trace + told);
      (Drop(Acts(c2, HandlerCalls(env, told, c2.trace)), f.id), None)
  }

  function OnStreamWindowUpdate(c: Conn, f: Frame): Result
    requires |f.payload| == 4
  {
    Powers();
    var (c1, e) := CheckRecv(c, f.id, UpdateKind);
    if e.Some? then (c1, e) else Sending(c1, StreamUpdate(f.id, FromBE(f.payload)))
  }

  function OnConnWindowUpdate(c: Conn, f: Frame): Result
    requires |f.payload| == 4
  {
    Powers();
    Sending(c, ConnUpdate(FromBE(f.payload)))
  }

  function OnSettings(c: Conn, f: Frame): Result {
    if Flag(f.flags, ACK) then (c, None)
    else
      var (c1, e) := Sending(c, PeerSettings(ReadSettings(f.payload)));
      if e.Some? then (c1, e) else (c1.(out := c1.out + [Frame(SETTINGS, 1, 0, [])]), None)
  }

  function OnPing(c: Conn, f: Frame): Result {
    if Flag(f.flags, ACK) then (c, None) else (c.(out := c.out + [Frame(PING, 1, 0, f.payload)]), None)
  }

  function OnPriority(c: Conn, f: Frame): Result {
    if |f.payload| != 5 then (c, Some(ConnError(FRAME_SIZE_ERROR)))
    else if DependsOn(f.payload) == f.id then (c, Some(StreamError(f.id, PROTOCOL_ERROR)))
    else (c, None)
  }

  /** onFrame. A frame of the wrong shape never gets here: the parser has checked it. */
  function OnFrame(env: Env, c: Conn, f: Frame): Result {
    if !GoodShape(f) then (c, CheckShape(f))
    else if f.ftype == SETTINGS then OnSettings(c, f)
    else if f.ftype == PING then OnPing(c, f)
    else if f.ftype == GOAWAY then (c.(closed := true), None)
    else if f.ftype == WINDOW_UPDATE && f.id == 0 then OnConnWindowUpdate(c, f)
    else if f.ftype == PRIORITY then OnPriority(c, f)
    else if f.ftype == PUSH_PROMISE then (c, Some(ConnError(PROTOCOL_ERROR)))
    else
      var c1 := c.(lastId := if f.id > c.lastId then f.id else c.lastId);
      if f.ftype == HEADERS then OnHeaders(env, c1, f)
      else if f.ftype == CONTINUATION then OnContinuation(env, c1, f)
      else if f.ftype == DATA then OnData(env, c1, f)
      else if f.ftype == RST_STREAM then OnRSTStream(env, c1, f)
      else if f.ftype == WINDOW_UPDATE then OnStreamWindowUpdate(c1, f)
      else (c, None)                       // unknown types are ignored
  }

  function Callback(env: Env): (Conn, Frame) -> (Conn, Option<Error>) {
    (c: Conn, f: Frame) => OnFrame(env, c, f)
  }
}
