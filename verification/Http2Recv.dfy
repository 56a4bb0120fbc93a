/** The receiving side as the object it is, field by field (http2/conn.go): it takes bytes in any
    pieces, and its fields keep what every history keeps. */
module Http2Recv {
  import opened Bytes
  import opened Framing
  import opened Http2Frame
  import opened Http2Send
  import opened Http2Conn
  import opened Http2Safety
  import opened Http2Wire

  class RecvSide {
    const env: Env
    const isClient: bool
    var send: VSend
    var streams: map<nat, Stream>
    var maxPeer: nat
    var lastId: nat
    var hdr: Assembly
    var recvWindow: int
    var localInitial: int
    var closed: bool
    var out: seq<Frame>
    var blocks: seq<HeaderBlock>
    var trace: seq<Mark>
    var parser: Parser
    var waiting: bool                      // for the client's preface
    var held: seq<byte>
    var raw: seq<byte>                     // written in front of all frames

    function State(): Conn
      reads this
    {
      Conn(isClient, send, streams, maxPeer, lastId, hdr, recvWindow, localInitial, closed, out, blocks, trace)
    }

    function Now(): Front
      reads this
    {
      Front(waiting, held, parser, State())
    }

    /** Up to the first error: all that holds in every history, on the object's own fields. */
    ghost predicate Healthy()
      reads this
    {
      && Inv(State()) && Agree(parser, State()) && (waiting ==> |held| < |Preface()|)
    }

    /** All that has been written to the peer. */
    ghost function Written(): seq<byte>
      reads this
    {
      raw + PrintAll(FrameBytes, out)
    }

    /** A server waits for the preface. */
    constructor (env: Env, isClient: bool)
      ensures State() == NewConn(isClient) && this.env == env && Healthy()
      ensures parser == NewParser && waiting == !isClient && held == [] && Written() == []
    {
      NewInv(isClient);
      raw := [];
      parser, waiting, held := NewParser, !isClient, [];
      this.env, this.isClient := env, isClient;
      send, streams, maxPeer, lastId, hdr := NewSend, map[], 0, 0, Assembly(false, 0, [], false);
      recvWindow, localInitial, closed := DEFAULT_INITIAL_WINDOW, DEFAULT_INITIAL_WINDOW, false;
      out, blocks, trace := [], [], [];
    }

    /** OnOpen: each side announces itself, and the object stays healthy. What a client writes is
        what `ClientIsWelcome` says a server accepts. */
    method OnOpen()
      requires State() == NewConn(isClient) && Healthy() && raw == []
      modifies this`raw, this`out, this`localInitial, this`recvWindow
      ensures State() == Start(isClient) && Healthy()
      ensures Written() == (if isClient then Preface() else []) + PrintAll(FrameBytes, Start(isClient).out)
    {
      if isClient {
        SendPreface();
      } else {
        SendServerSettings();
      }
    }

    /** sendPreface: the plain bytes of the preface, and behind them the settings. */
    method SendPreface()
      requires isClient && State() == NewConn(true) && Healthy() && raw == []
      modifies this`raw, this`out
      ensures State() == Start(true) && raw == Preface() && Healthy()
    {
      StartInv(true);
      raw := raw + Preface();
      out := [Frame(SETTINGS, 0, 0, SettingsPayload([Setting(5, DEFAULT_MAX_FRAME_SIZE)]))];
    }

    /** sendServerSettings. */
    method SendServerSettings()
      requires !isClient && State() == NewConn(false) && Healthy()
      modifies this`out, this`localInitial, this`recvWindow
      ensures State() == Start(false) && Healthy()
    {
      StartInv(false);
      out := [Frame(SETTINGS, 0, 0,
          SettingsPayload([Setting(5, DEFAULT_MAX_FRAME_SIZE), Setting(4, MAX_RECV_WINDOW)]))];
      out := out + [CreditFrame(0, MAX_RECV_WINDOW - DEFAULT_INITIAL_WINDOW)];
      localInitial := MAX_RECV_WINDOW;
      recvWindow := MAX_RECV_WINDOW;
    }

    /** A step of the sending side, which has an object of its own; see Http2Send.SendSide. */
    method SendStep(e: Event) returns (err: Option<Error>)
      requires Possible(e)
      modifies this`send, this`out
      ensures (State(), err) == Sending(old(State()), e)
    {
      StepKeepsValid(send, e);
      var r := Step(send, e);
      send := r.s;
      out := out + DataFrames(r.frames);
      err := r.error;
    }

    method StreamFor(id: nat, mark: Mark)
      modifies this`send, this`out, this`streams, this`trace
      ensures State() == Make(old(State()), id, mark)
    {
      if id !in streams {
        var err := SendStep(Event.Register(id));
        streams := streams[id := Stream(Open, localInitial, -1, 0)];
        trace := trace + [mark];
      }
    }

    method ForgetStream(id: nat)
      modifies this`send, this`out, this`streams
      ensures State() == Drop(old(State()), id)
    {
      var err := SendStep(Forget(id));
      streams := streams - {id};
    }

    method Perform(l: Call)
      modifies this`send, this`out, this`streams, this`trace
      ensures State() == Act(old(State()), l)
    {
      match l
      case Register(id) => StreamFor(id, Registered(id));
      case Close(id) => ForgetStream(id);
      case SendData(id, data, end) =>
        var err := SendStep(WriteData(id, data, end));
      case SendHeaders(id, block, endStream) =>
        StreamFor(id, Registered(id));
        out := out + BlockFrames(send.maxFrame, id, block, endStream);
    }

    /** The handler's callback: its calls, one after the other. */
    method CallHandler(calls: seq<Call>)
      modifies this`send, this`out, this`streams, this`trace
      ensures State() == Acts(old(State()), calls)
    {
      hide Act;
      assert calls[0..] == calls;
      for i := 0 to |calls|
        invariant Acts(State(), calls[i..]) == Acts(old(State()), calls)
      {
        assert calls[i..][1..] == calls[i + 1..];
        Perform(calls[i]);
      }
    }

    method CheckStreamRecv(id: nat, kind: Kind) returns (err: Option<Error>)
      modifies this`maxPeer
      ensures (State(), err) == CheckRecv(old(State()), id, kind)
    {
      if id !in streams && kind == HeadersKind {
        if isClient && id % 2 == 1 {
          return Some(ConnError(PROTOCOL_ERROR));
        }
        if !isClient && id % 2 == 0 {
          return Some(ConnError(PROTOCOL_ERROR));
        }
        if id <= maxPeer {
          return Some(ConnError(PROTOCOL_ERROR));
        }
        maxPeer := id;
      }
      if id !in streams {
        match kind
        case HeadersKind => return None;
        case UpdateKind => return Some(ConnError(PROTOCOL_ERROR));
        case ResetKind => return Some(ConnError(PROTOCOL_ERROR));
        case DataKind => return Some(ConnError(PROTOCOL_ERROR));
      }
      match streams[id].state {
        case HalfClosedRemote =>
          if kind == DataKind || kind == HeadersKind { return Some(StreamError(id, STREAM_CLOSED)); }
        case Closed =>
          if kind == DataKind || kind == HeadersKind { return Some(StreamError(id, STREAM_CLOSED)); }
        case HalfClosedLocal =>
          if kind == HeadersKind { return Some(StreamError(id, STREAM_CLOSED)); }
        case Open =>
      }
      if id > maxPeer {
        maxPeer := id;
      }
      return None;
    }

    /** applyRecvEndStream, then forgetIfClosed. */
    method ApplyRecvEndStream(id: nat, s: Stream, attached: bool, endStream: bool)
      requires attached ==> id in streams
      modifies this`send, this`out, this`streams
      ensures State() == EndRecv(old(State()), id, s, attached, endStream)
    {
      if !endStream {
        return;
      }
      var state := s.state;
      match s.state {
        case Open => state := HalfClosedRemote;
        case HalfClosedLocal => state := Closed;
        case HalfClosedRemote =>
        case Closed =>
      }
      if attached {
        streams := streams[id := s.(state := state)];
      }
      if state == Closed {
        ForgetStream(id);
      }
    }

    method GiveRecvWindow(id: nat, n: nat) returns (err: Option<Error>)
      requires id in streams
      modifies this`recvWindow, this`streams, this`out, this`trace
      ensures (State(), err) == Http2Conn.GiveRecvWindow(old(State()), id, n)
    {
      recvWindow := recvWindow - n;
      if recvWindow < 0 {
        return Some(FlowControl);
      }
      streams := streams[id := streams[id].(recvWindow := streams[id].recvWindow - n)];
      if streams[id].recvWindow < 0 {
        return Some(FlowControl);
      }
      trace := trace + [Taken(id, n)];
      if n <= 0 {
        return None;
      }
      out := out + [CreditFrame(0, n)];
      recvWindow := recvWindow + n;
      out := out + [CreditFrame(id, n)];
      streams := streams[id := streams[id].(recvWindow := streams[id].recvWindow + n)];
      return None;
    }

    method FinishHeaders(id: nat, block: seq<byte>, endStream: bool) returns (err: Option<Error>)
      modifies this`send, this`out, this`streams, this`trace, this`maxPeer, this`blocks, this`hdr, this`recvWindow,
          this`lastId, this`closed
      ensures (State(), err) == Http2Conn.FinishHeaders(env, old(State()), id, block, endStream)
    {
      hide Make, Acts, EndRecv, Sending, CheckRecv, Valid;
      blocks := blocks + [HeaderBlock(id, block, endStream)];
      var v := env.verdict(blocks);
      if v.Undecodable? {
        return Some(ConnError(COMPRESSION_ERROR));
      }
      err := CheckStreamRecv(id, HeadersKind);
      if err.Some? {
        return;
      }
      MakePresent(State(), id, Opened(id));
      StreamFor(id, Opened(id));
      if v.BadFields? {
        return Some(StreamError(id, PROTOCOL_ERROR));
      }
      err := Deliver(id, v.contentLength, endStream);
    }

    method Deliver(id: nat, contentLength: Option<nat>, endStream: bool) returns (err: Option<Error>)
      requires id in streams
      modifies this`send, this`out, this`streams, this`trace, this`maxPeer, this`blocks, this`hdr, this`recvWindow,
          this`lastId, this`closed
      ensures (State(), err) == DeliverHeaders(env, old(State()), id, contentLength, endStream)
    {
      hide Acts, EndRecv, Sending, Valid;
      var s := streams[id];
      if !isClient {
        s := s.(declared := if contentLength.Some? then contentLength.value else -1);
      }
      streams := streams[id := s];
      ghost var c1 := Telling(old(State()), id, s, [GotHeaders(id, endStream)], endStream);
      trace := trace + Marks([GotHeaders(id, endStream)], id, endStream);
      assert State() == c1;
      var calls := env.handler(trace);
      AttachedStays(State(), calls, id);
      CallHandler(calls);
      var attached := Close(id) !in calls;
      ApplyRecvEndStream(id, s, attached, endStream);
      if endStream && !isClient && s.declared >= 0 && s.bodyLen != s.declared {
        return Some(StreamError(id, PROTOCOL_ERROR));
      }
      return None;
    }

    method OnHeaders(f: Frame) returns (err: Option<Error>)
      modifies this`send, this`out, this`streams, this`trace, this`maxPeer, this`blocks, this`hdr, this`recvWindow,
          this`lastId, this`closed
      ensures (State(), err) == Http2Conn.OnHeaders(env, old(State()), f)
    {
      hide Http2Conn.FinishHeaders, Valid, FromBE;
      var payload := f.payload;
      if Flag(f.flags, PADDED) {
        if |payload| == 0 {
          return Some(Malformed);
        }
        var padLen := payload[0];
        payload := payload[1..];
        if padLen > |payload| {
          return Some(Malformed);
        }
        payload := payload[..|payload| - padLen];
      }
      if Flag(f.flags, PRIORITY_FLAG) {
        if |payload| < 5 {
          return Some(ConnError(FRAME_SIZE_ERROR));
        }
        if DependsOn(payload) == f.id {
          return Some(StreamError(f.id, PROTOCOL_ERROR));
        }
        payload := payload[5..];
      }
      var endStream := Flag(f.flags, END_STREAM);
      if !Flag(f.flags, END_HEADERS) {
        hdr := Assembly(true, f.id, payload, endStream);
        return None;
      }
      err := FinishHeaders(f.id, payload, endStream);
    }

    method OnContinuation(f: Frame) returns (err: Option<Error>)
      modifies this`send, this`out, this`streams, this`trace, this`maxPeer, this`blocks, this`hdr, this`recvWindow,
          this`lastId, this`closed
      ensures (State(), err) == Http2Conn.OnContinuation(env, old(State()), f)
    {
      hide Http2Conn.FinishHeaders, Valid;
      if !hdr.active || hdr.id != f.id {
        return Some(Malformed);
      }
      hdr := hdr.(block := hdr.block + f.payload);
      if !Flag(f.flags, END_HEADERS) {
        return None;
      }
      var block, endStream := hdr.block, hdr.endStream;
      hdr := hdr.(active := false);
      err := FinishHeaders(f.id, block, endStream);
    }

    method OnData(f: Frame) returns (err: Option<Error>)
      modifies this`send, this`out, this`streams, this`trace, this`maxPeer, this`blocks, this`hdr, this`recvWindow,
          this`lastId, this`closed
      ensures (State(), err) == Http2Conn.OnData(env, old(State()), f)
    {
      hide Acts, EndRecv, Sending, Valid, CheckRecv, Http2Conn.GiveRecvWindow, DeliverData;
      var payload := f.payload;
      if Flag(f.flags, PADDED) {
        if |payload| == 0 {
          return Some(Malformed);
        }
        var padLen := payload[0];
        payload := payload[1..];
        if padLen > |payload| {
          return Some(Malformed);
        }
        payload := payload[..|payload| - padLen];
      }
      err := CheckStreamRecv(f.id, DataKind);
      if err.Some? {
        return;
      }
      if f.id !in streams {
        return Some(ConnError(PROTOCOL_ERROR));
      }
      GivePresent(State(), f.id, |f.payload|);
      err := GiveRecvWindow(f.id, |f.payload|);
      if err.Some? {
        return;
      }
      err := TakeBody(f.id, payload, Flag(f.flags, END_STREAM));
    }

    method TakeBody(id: nat, payload: seq<byte>, endStream: bool) returns (err: Option<Error>)
      requires id in streams
      modifies this`send, this`out, this`streams, this`trace, this`maxPeer, this`blocks, this`hdr, this`recvWindow,
          this`lastId, this`closed
      ensures (State(), err) == DeliverData(env, old(State()), id, payload, endStream)
    {
      hide Acts, EndRecv, Sending, Valid;
      var s := streams[id].(bodyLen := streams[id].bodyLen + |payload|);
      streams := streams[id := s];
      var told := if |payload| > 0 then [GotData(id, payload, endStream)] else [];
      trace := trace + [Accepted(id, payload, endStream)];
      trace := trace + Marks(told, id, endStream);
      var calls := HandlerCalls(env, told, trace);
      AttachedStays(State(), calls, id);
      if |payload| > 0 {
        CallHandler(calls);
      } else {
        NoActs(State());
      }
      if endStream && !isClient && s.declared >= 0 && s.bodyLen != s.declared {
        return Some(StreamError(id, PROTOCOL_ERROR));
      }
      ApplyRecvEndStream(id, s, Close(id) !in calls, endStream);
      return None;
    }

    method OnRSTStream(f: Frame) returns (err: Option<Error>)
      modifies this`send, this`out, this`streams, this`trace, this`maxPeer, this`blocks, this`hdr, this`recvWindow,
          this`lastId, this`closed
      ensures (State(), err) == Http2Conn.OnRSTStream(env, old(State()), f)
    {
      hide Acts, Drop, Valid, CheckRecv, FromBE;
      err := CheckStreamRecv(f.id, ResetKind);
      if err.Some? {
        return;
      }
      var told := [GotReset(f.id, FromBE(f.payload))];
      trace := trace + told;
      CallHandler(env.handler(trace));
      ForgetStream(f.id);
    }

    /** The frames of the connection as a whole. */
    method OnConnFrame(f: Frame) returns (err: Option<Error>)
      requires GoodShape(f)
      requires f.ftype == SETTINGS || f.ftype == PING || f.ftype == GOAWAY || (f.ftype == WINDOW_UPDATE && f.id == 0)
               || f.ftype == PRIORITY || f.ftype == PUSH_PROMISE
      modifies this`send, this`out, this`closed
      ensures (State(), err) == Http2Conn.OnFrame(env, old(State()), f)
    {
      hide Valid, FromBE, ReadSettings, Step, DataFrames, Inv, Possible;
      assert f.ftype == WINDOW_UPDATE ==> FromBE(f.payload) < 0x1_0000_0000 by { Powers(); }
      assert forall inc: nat :: inc < 0x1_0000_0000 ==> Possible(ConnUpdate(inc)) by { UpdatePossible(); }
      assert Possible(PeerSettings(ReadSettings(f.payload))) by { UpdatePossible(); }
      err := None;
      if f.ftype == SETTINGS {
        if !Flag(f.flags, ACK) {
          err := SendStep(PeerSettings(ReadSettings(f.payload)));
          if err.None? {
            out := out + [Frame(SETTINGS, 1, 0, [])];
          }
        }
      } else if f.ftype == PING {
        if !Flag(f.flags, ACK) {
          out := out + [Frame(PING, 1, 0, f.payload)];
        }
      } else if f.ftype == GOAWAY {
        closed := true;
      } else if f.ftype == WINDOW_UPDATE {
        err := SendStep(ConnUpdate(FromBE(f.payload)));
      } else if f.ftype == PRIORITY {
        if DependsOn(f.payload) == f.id {
          err := Some(StreamError(f.id, PROTOCOL_ERROR));
        }
      } else {
        err := Some(ConnError(PROTOCOL_ERROR));
      }
    }

    method OnStreamWindowUpdate(f: Frame) returns (err: Option<Error>)
      requires |f.payload| == 4
      modifies this`send, this`out, this`maxPeer
      ensures (State(), err) == Http2Conn.OnStreamWindowUpdate(old(State()), f)
    {
      hide Valid, FromBE, Step, DataFrames, CheckRecv, Possible;
      assert FromBE(f.payload) < 0x1_0000_0000 by { Powers(); }
      assert Possible(StreamUpdate(f.id, FromBE(f.payload))) by { UpdatePossible(); }
      err := CheckStreamRecv(f.id, UpdateKind);
      if err.None? {
        err := SendStep(StreamUpdate(f.id, FromBE(f.payload)));
      }
    }

    /** onFrame, for a frame whose shape the parser has checked. Every frame keeps the object's
        invariant, or is refused and has told the handler nothing that is forbidden. */
    method OnFrame(f: Frame) returns (err: Option<Error>)
      requires GoodShape(f) && |f.payload| < 0x1_0000_0000
      modifies this`send, this`out, this`streams, this`trace, this`maxPeer, this`blocks, this`hdr, this`recvWindow,
          this`lastId, this`closed
      ensures (State(), err) == Http2Conn.OnFrame(env, old(State()), f)
      ensures old(Inv(State())) ==> Safe(State()) && (err.None? ==> Inv(State()))
    {
      if Inv(State()) { OnFrameKeeps(env, State(), f); }
      hide Inv, Safe, Http2Conn.OnHeaders, Http2Conn.OnContinuation, Http2Conn.OnData, Http2Conn.OnRSTStream,
          Http2Conn.OnStreamWindowUpdate;
      hide OnConnWindowUpdate, OnSettings, OnPing, OnPriority, Valid, FromBE;
      if f.ftype == SETTINGS || f.ftype == PING || f.ftype == GOAWAY || (f.ftype == WINDOW_UPDATE && f.id == 0)
         || f.ftype == PRIORITY || f.ftype == PUSH_PROMISE {
        err := OnConnFrame(f);
        return;
      }
      if f.ftype != HEADERS && f.ftype != CONTINUATION && f.ftype != DATA && f.ftype != RST_STREAM
          && f.ftype != WINDOW_UPDATE {
        return None;
      }
      ghost var c := State();
      if f.id > lastId {
        lastId := f.id;
      }
      assert State() == c.(lastId := if f.id > c.lastId then f.id else c.lastId);
      if f.ftype == HEADERS {
        err := OnHeaders(f);
      } else if f.ftype == CONTINUATION {
        err := OnContinuation(f);
      } else if f.ftype == DATA {
        err := OnData(f);
      } else if f.ftype == RST_STREAM {
        err := OnRSTStream(f);
      } else {
        err := OnStreamWindowUpdate(f);
      }
    }

    /** One turn of the parse loop: the next frame, if it is all there, goes to onFrame. */
    method ParseOne(buf: seq<byte>, consumed: nat, ghost whole: Outcome<Parser, Conn, Error>)
        returns (more: bool, n: nat, err: Option<Error>)
      requires consumed <= |buf| && Lawful(CutFrame) && Healthy() && !waiting
                 && StillTo(env, parser, State(), buf, consumed, whole)
      modifies this`send, this`out, this`streams, this`trace, this`maxPeer, this`blocks, this`hdr, this`recvWindow,
          this`lastId, this`closed, this`parser
      ensures more ==>
                && err.None? && 0 < n && consumed + n <= |buf| && Healthy()
                && StillTo(env, parser, State(), buf, consumed + n, whole)
      ensures !more ==> n == 0 && whole == Outcome(parser, State(), consumed, err)
      ensures Safe(State()) && (err.None? ==> Healthy())
    {
      hide Lawful, CutFrame, Inv, Agree, Http2Conn.OnFrame, After, Valid, GoodShape, CheckContinuation, Framing.Run,
          StillTo, Safe;
      SafeParts(State());
      NextTurn(env, parser, State(), buf, consumed, whole);
      CutShape(parser, buf[consumed..]);
      var cut := CutFrame(parser, buf[consumed..]);
      if cut.More? {
        return false, 0, None;
      }
      if cut.Fail? {
        return false, 0, Some(cut.error);
      }
      OnFrameAgreesIf(env, parser, State(), cut.item);
      err := OnFrame(cut.item);
      if err.Some? {
        return false, 0, err;
      }
      parser, more, n := cut.next, true, cut.size;
    }

    /** The parse loop, with onFrame as its callback. */
    method ParseFrames(buf: seq<byte>) returns (consumed: nat, err: Option<Error>)
      requires Healthy() && !waiting
      modifies this`send, this`out, this`streams, this`trace, this`maxPeer, this`blocks, this`hdr, this`recvWindow,
          this`lastId, this`closed, this`parser
      ensures Lawful(CutFrame)
      ensures Outcome(parser, State(), consumed, err)
                == Framing.Run(CutFrame, Callback(env), old(parser), old(State()), buf)
      ensures Safe(State()) && (err.None? ==> Healthy())
    {
      CutFrameLawful();
      assert Safe(State()) by { SafeParts(State()); }
      StillStart(env, parser, State(), buf);
      hide *;
      consumed, err := ParseOn(buf, Framing.Run(CutFrame, Callback(env), parser, State(), buf));
    }

    method ParseOn(buf: seq<byte>, ghost whole: Outcome<Parser, Conn, Error>)
        returns (consumed: nat, err: Option<Error>)
      requires Healthy() && !waiting && Safe(State())
      requires Lawful(CutFrame) && StillTo(env, parser, State(), buf, 0, whole)
      modifies this`send, this`out, this`streams, this`trace, this`maxPeer, this`blocks, this`hdr, this`recvWindow,
          this`lastId, this`closed, this`parser
      ensures whole == Outcome(parser, State(), consumed, err)
      ensures Safe(State()) && (err.None? ==> Healthy())
    {
      hide *;
      consumed, err := 0, None;
      var more := true;
      while more
        invariant consumed <= |buf| && Safe(State()) && (err.None? ==> Healthy())
        invariant more ==> err.None? && StillTo(env, parser, State(), buf, consumed, whole)
        invariant !more ==> whole == Outcome(parser, State(), consumed, err)
        decreases more, |buf| - consumed
      {
        var n;
        more, n, err := ParseOne(buf, consumed, whole);
        consumed := consumed + n;
      }
    }

    /** Feed, from the client's preface on. Up to the first error the object stays healthy, and
        even behind it no content of an ended stream has reached the handler. */
    method Feed(data: seq<byte>) returns (consumed: nat, err: Option<Error>)
      requires Healthy()
      modifies this
      ensures Lawful(CutFrame) && FedFront(Now(), consumed, err) == FeedConn(env, old(Now()), data)
      ensures Increasing(OpenedIds(trace)) && Quiet(trace)
      ensures err.None? && (!old(waiting) || |old(held) + data| < |Preface()|) ==> Healthy()
      ensures err.None? && old(waiting) && |old(held) + data| >= |Preface()| ==>
                (AllTaken(env, old(parser), old(State()), (old(held) + data)[|Preface()|..]) ==> Healthy())
    {
      hide Lawful, CutFrame, Inv, Agree, Http2Conn.OnFrame, Valid, Preface, Quiet, OpenedIds, Increasing;
      CutFrameLawful();
      SafeParts(State());
      if waiting {
        held := held + data;
        consumed, err := |data|, None;
        if |held| < |Preface()| {
          return;
        }
        if held[..|Preface()|] != Preface() {
          return consumed, Some(Malformed);
        }
        var rest := held[|Preface()|..];
        held, waiting := [], false;
        ghost var c0, p0 := State(), parser;
        NothingYet(env, p0, c0);
        PassExactly(env, p0, c0, rest);
        if |rest| > 0 {
          var n, ignored := ParseFrames(rest);
          SafeParts(State());
        }
      } else {
        consumed, err := ParseFrames(data);
        SafeParts(State());
      }
    }

    /** A life behind the preface: bytes in any pieces, with calls of the local side between them,
        up to the first error. `rest` is what the caller keeps. */
    method Serve(inputs: seq<Input>) returns (rest: seq<byte>, err: Option<Error>)
      requires Healthy() && !waiting
      modifies this
      ensures Lawful(CutFrame)
      ensures Fed(parser, State(), rest, err) == Live(env, old(parser), old(State()), [], inputs)
      ensures Increasing(OpenedIds(trace)) && Quiet(trace)
      ensures err.None? ==> Healthy() && CreditInv(State())
    {
      hide Lawful, CutFrame, Inv, Agree, Acts, Framing.Run, Valid, Preface, Quiet, OpenedIds, Increasing, CreditInv;
      CutFrameLawful();
      rest, err := [], None;
      ghost var p0, c0 := parser, State();
      assert inputs[0..] == inputs;
      SafeParts(State());
      for i := 0 to |inputs|
        invariant err.None? && Healthy() && !waiting
        invariant Live(env, parser, State(), rest, inputs[i..]) == Live(env, p0, c0, [], inputs)
      {
        assert inputs[i..][0] == inputs[i] && inputs[i..][1..] == inputs[i + 1..];
        match inputs[i]
        case Local(calls) =>
          ActsKeepInv(State(), calls);
          ActsKeepHdr(State(), calls);
          AgreeKept(parser, State(), Acts(State(), calls));
          CallHandler(calls);
        case Arrive(chunk) =>
          var buf := rest + chunk;
          var n;
          n, err := ParseFrames(buf);
          rest := buf[n..];
          SafeParts(State());
          if err.Some? {
            return;
          }
      }
      SafeParts(State());
    }
  }

  /** What is left of a pass that has consumed the first bytes. */
  ghost predicate StillTo(
      env: Env, p: Parser, c: Conn, buf: seq<byte>, consumed: nat, whole: Outcome<Parser, Conn, Error>)
    requires Lawful(CutFrame) && consumed <= |buf|
  {
    var r := Framing.Run(CutFrame, Callback(env), p, c, buf[consumed..]);
    whole == r.(consumed := consumed + r.consumed)
  }

  lemma StillStart(env: Env, p: Parser, c: Conn, buf: seq<byte>)
    requires Lawful(CutFrame)
    ensures StillTo(env, p, c, buf, 0, Framing.Run(CutFrame, Callback(env), p, c, buf))
  {
    hide Lawful, CutFrame, Framing.Run;
    assert buf[0..] == buf;
  }

  lemma NextTurn(env: Env, p: Parser, c: Conn, buf: seq<byte>, consumed: nat, whole: Outcome<Parser, Conn, Error>)
    requires Lawful(CutFrame) && consumed <= |buf| && StillTo(env, p, c, buf, consumed, whole)
    ensures match CutFrame(p, buf[consumed..])
            case More => whole == Outcome(p, c, consumed, None)
            case Fail(e) => whole == Outcome(p, c, consumed, Some(e))
            case Item(f, n, p') =>
              var (c', e) := OnFrame(env, c, f);
              && 0 < n && consumed + n <= |buf|
              && if e.Some? then whole == Outcome(p, c', consumed, e)
                   else StillTo(env, p', c', buf, consumed + n, whole)
  {
    hide Lawful, CutFrame, OnFrame;
    Turn(CutFrame, Callback(env), p, c, buf, consumed);
    hide Framing.Run;
  }

  lemma UpdatePossible()
    ensures forall inc: nat :: inc < 0x1_0000_0000 ==> Possible(ConnUpdate(inc))
    ensures forall id: nat, inc: nat :: inc < 0x1_0000_0000 ==> Possible(StreamUpdate(id, inc))
    ensures forall ss :: Possible(PeerSettings(ss))
  {
  }

  lemma SafeParts(c: Conn)
    ensures Inv(c) ==> Safe(c) && CreditInv(c)
    ensures Safe(c) ==> Increasing(OpenedIds(c.trace)) && Quiet(c.trace)
  {
  }

  lemma AgreeKept(p: Parser, c: Conn, c': Conn)
    requires Agree(p, c) && c'.hdr == c.hdr
    ensures Agree(p, c')
  {
  }

  lemma OnFrameAgreesIf(env: Env, p: Parser, c: Conn, f: Frame)
    requires Agree(p, c) && GoodShape(f) && CheckContinuation(p, f).None?
    ensures OnFrame(env, c, f).1.None? ==> Agree(After(p, f), OnFrame(env, c, f).0)
  {
    if OnFrame(env, c, f).1.None? { OnFrameAgrees(env, p, c, f); }
  }

  lemma MakePresent(c: Conn, id: nat, mark: Mark)
    ensures id in Make(c, id, mark).streams
  {
  }

  lemma GivePresent(c: Conn, id: nat, n: nat)
    requires id in c.streams
    ensures id in GiveRecvWindow(c, id, n).0.streams
  {
  }

  lemma NoActs(c: Conn)
    ensures Acts(c, []) == c
  {
  }

  /** A stream that the handler does not close is still in the table after the callback. */
  lemma {:induction false} AttachedStays(c: Conn, calls: seq<Call>, id: nat)
    requires id in c.streams
    ensures Attached(calls, id) ==> id in Acts(c, calls).streams
    decreases |calls|
  {
    if calls != [] && Attached(calls, id) {
      OneActStays(c, calls[0], id);
      hide Act;
      AttachedStays(Act(c, calls[0]), calls[1..], id);
    }
  }

  lemma OneActStays(c: Conn, l: Call, id: nat)
    requires id in c.streams && l != Close(id)
    ensures id in Act(c, l).streams
  {
    hide Step, Valid;
  }
}
