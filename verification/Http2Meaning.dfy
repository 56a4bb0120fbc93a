/** What HTTP/2 frames of any bytes lead to, in the numbers of RFC 9113 (http2/frame.go,
    http2/conn.go). */
module Http2Meaning {
  import opened Bytes
  import opened Framing
  import opened Http2Frame
  import opened Http2Send
  import opened Http2Conn
  import opened Http2Safety
  import opened Http2History

  // ---- the nine bytes in front of a frame (section 4.1) --------------------------------------

  function Number3(a: byte, b: byte, c: byte): nat {
    0x1_0000 * (a as int) + 0x100 * (b as int) + c
  }

  /** Four bytes, of which the top bit does not count. */
  function Number31(a: byte, b: byte, c: byte, d: byte): nat {
    0x100_0000 * (a as int % 128) + 0x1_0000 * (b as int) + 0x100 * (c as int) + d
  }

  function Number32(a: byte, b: byte, c: byte, d: byte): nat {
    0x100_0000 * (a as int) + 0x1_0000 * (b as int) + 0x100 * (c as int) + d
  }

  /** A frame that cannot be of its type, by stream number and length: sections 6.1 to 6.10. */
  predicate Misshapen(ftype: byte, flags: byte, id: nat, n: nat) {
    || ((ftype == 0 || ftype == 1 || ftype == 5 || ftype == 9) && id == 0)
    || (ftype == 2 && (id == 0 || n != 5))
    || (ftype == 3 && (id == 0 || n != 4))
    || (ftype == 4 && (id != 0 || (flags % 2 == 1 && n != 0) || (flags % 2 == 0 && n % 6 != 0)))
    || (ftype == 6 && (id != 0 || n != 8))
    || (ftype == 7 && (id != 0 || n < 8))
    || (ftype == 8 && n != 4)
  }

  /** A frame inside a header block that is not its continuation, or a continuation of none. */
  predicate OutOfPlace(p: Parser, ftype: byte, id: nat) {
    if p.awaiting then ftype != 9 || id != p.lastId
    else
      ftype == 9
      && (!p.haveLast || (p.lastType != 1 && p.lastType != 5 && p.lastType != 9) || id != p.lastId)
  }

  /** Whether a frame leaves a header block open. */
  predicate LeavesOpen(ftype: byte, flags: byte) {
    (ftype == 1 || ftype == 5 || ftype == 9) && flags / 4 % 2 == 0
  }

  lemma ShapeExactly(f: Frame)
    ensures GoodShape(f) <==> !Misshapen(f.ftype, f.flags, f.id, |f.payload|)
  {
  }

  lemma PlaceExactly(p: Parser, f: Frame)
    ensures CheckContinuation(p, f) == if OutOfPlace(p, f.ftype, f.id) then Some(ConnError(1)) else None
  {
  }

  /** The parser on any bytes that begin with a whole header: too long a frame is refused at
      once; then it waits for the payload; then place and shape decide, in this order. */
  lemma FrameDecodes(p: Parser, head: seq<byte>, rest: seq<byte>)
    requires |head| == 9
    ensures var n, id := Number3(head[0], head[1], head[2]), Number31(head[5], head[6], head[7], head[8]);
            CutFrame(p, head + rest) ==
              if n > p.max then Fail(FrameTooLarge(n, p.max))
              else if |rest| < n then More
              else if OutOfPlace(p, head[3], id) then Fail(ConnError(1))
              else if Misshapen(head[3], head[4], id, n) then Fail(ConnError(6))
              else Item(Frame(head[3], head[4], id, rest[..n]), 9 + n,
                        Parser(p.max, id, head[3], true, LeavesOpen(head[3], head[4])))
  {
    var b := head + rest;
    HeadRead(head, rest);
    var n, id := Number3(head[0], head[1], head[2]), Number31(head[5], head[6], head[7], head[8]);
    if |rest| >= n {
      var f := Frame(head[3], head[4], id, rest[..n]);
      assert b[9..9 + n] == rest[..n];
      ShapeExactly(f);
      PlaceExactly(p, f);
      hide FromBE, GoodShape, CheckContinuation, Misshapen, OutOfPlace;
    } else {
      hide FromBE, GoodShape, CheckContinuation, Misshapen, OutOfPlace;
    }
  }

  lemma HeadRead(head: seq<byte>, rest: seq<byte>)
    requires |head| == 9
    ensures FromBE((head + rest)[..3]) == Number3(head[0], head[1], head[2])
    ensures FromBE((head + rest)[5..9]) % 0x8000_0000 == Number31(head[5], head[6], head[7], head[8])
  {
    var b := head + rest;
    assert b[..3] == [head[0], head[1], head[2]] && b[5..9] == [head[5], head[6], head[7], head[8]];
    ReadBigEndian(head[0], head[1], head[2], 0);
    ReadBigEndian(head[5], head[6], head[7], head[8]);
    hide FromBE;
  }

  lemma HeadIncomplete(p: Parser, b: seq<byte>)
    requires |b| < 9
    ensures CutFrame(p, b) == More
  {
  }

  /** The bytes of a frame. */
  lemma FrameOnTheWire(f: Frame)
    ensures var n, id := |f.payload|, f.id;
            FrameBytes(f) ==
              [n / 0x1_0000 % 256, n / 0x100 % 256, n % 256, f.ftype, f.flags,
               id / 0x100_0000 % 256, id / 0x1_0000 % 256, id / 0x100 % 256, id % 256] + f.payload
  {
    BigEndian(|f.payload|);
    BigEndian(f.id);
    hide ToBE;
  }

  /** A new parser takes frames of up to 2^14 bytes, and has seen none. */
  lemma NewParserMeans()
    ensures NewParser.max == 16384 && !NewParser.haveLast && !NewParser.awaiting
  {
  }

  // ---- types that are not known --------------------------------------------------------------

  /** A frame of a type that is not known, on any stream and of any content, is handed over where
      no header block is open, and changes nothing. */
  lemma UnknownIsIgnored(env: Env, p: Parser, c: Conn, f: Frame, tail: seq<byte>)
    requires f.ftype > 9 && f.id < 0x8000_0000 && |f.payload| <= p.max && |f.payload| <= 0xff_ffff && !p.awaiting
    ensures CutFrame(p, FrameBytes(f) + tail)
              == Item(f, 9 + |f.payload|, Parser(p.max, f.id, f.ftype, true, false))
    ensures OnFrame(env, c, f) == (c, None)
  {
    FrameRead(f, tail);
    hide FromBE, FrameBytes, FrameAt, Valid;
  }

  /** The types that this side never prints: exactly which of them the parser refuses, by stream
      number and length alone. */
  lemma UnprintedRefused(p: Parser, f: Frame, tail: seq<byte>)
    requires f.id < 0x8000_0000 && |f.payload| <= p.max && |f.payload| <= 0xff_ffff
    requires CheckContinuation(p, f).None?
    ensures var cut, n := CutFrame(p, FrameBytes(f) + tail), |f.payload|;
            && (cut == Fail(ConnError(6)) || (cut.Item? && cut.item == f))
            && (f.ftype == 2 ==> (cut.Fail? <==> f.id == 0 || n != 5))
            && (f.ftype == 5 ==> (cut.Fail? <==> f.id == 0))
            && (f.ftype == 9 ==> (cut.Fail? <==> f.id == 0))
            && (f.ftype == 4 && f.flags % 2 == 0 ==> (cut.Fail? <==> f.id != 0 || n % 6 != 0))
            && (f.ftype == 4 && f.flags % 2 == 1 ==> (cut.Fail? <==> f.id != 0 || n != 0))
  {
    FrameRead(f, tail);
    ShapeExactly(f);
    hide FromBE, FrameBytes, FrameAt, CheckContinuation, GoodShape;
  }

  // ---- frames of the connection ----------------------------------------------------------------

  /** A PING is answered by the same eight bytes, a push is refused, GOAWAY closes, and an
      acknowledgement changes nothing. */
  lemma ConnFramesMean(env: Env, c: Conn, f: Frame)
    requires !Misshapen(f.ftype, f.flags, f.id, |f.payload|)
    ensures f.ftype == 6 && f.flags % 2 == 0 ==>
              OnFrame(env, c, f) == (c.(out := c.out + [Frame(6, 1, 0, f.payload)]), None)
    ensures (f.ftype == 6 || f.ftype == 4) && f.flags % 2 == 1 ==> OnFrame(env, c, f) == (c, None)
    ensures f.ftype == 7 ==> OnFrame(env, c, f) == (c.(closed := true), None)
    ensures f.ftype == 5 ==> OnFrame(env, c, f) == (c, Some(ConnError(1)))
    ensures f.ftype == 2 ==>
              OnFrame(env, c, f) ==
                (c, if Number31(f.payload[0], f.payload[1], f.payload[2], f.payload[3]) == f.id
                    then Some(StreamError(f.id, 1)) else None)
  {
    ShapeExactly(f);
    if f.ftype == 2 { DependencyRead(f.payload); }
    hide GoodShape, DependsOn, Valid, ReadSettings, FromBE;
  }

  lemma DependencyRead(b: seq<byte>)
    requires |b| >= 4
    ensures DependsOn(b) == Number31(b[0], b[1], b[2], b[3])
  {
    assert b[..4] == [b[0], b[1], b[2], b[3]];
    ReadBigEndian(b[0], b[1], b[2], b[3]);
    hide FromBE;
  }

  /** SETTINGS: each setting in turn, up to the first that is not allowed; when all are, an
      acknowledgement follows what was written. */
  lemma SettingsMean(env: Env, c: Conn, f: Frame)
    requires f.ftype == 4 && f.id == 0 && f.flags % 2 == 0 && |f.payload| % 6 == 0
    ensures var (s, e) := ApplySettings(c.send, ReadSettings(f.payload));
            OnFrame(env, c, f) ==
              (c.(send := s, out := if e.Some? then c.out else c.out + [Frame(4, 1, 0, [])]), e)
  {
    assert c.out + [] == c.out;
    hide ApplySettings, ReadSettings;
  }

  /** What six bytes in front of more settings say. */
  lemma SettingRead(a: byte, b: byte, v: seq<byte>, rest: seq<byte>)
    requires |v| == 4
    ensures ReadSettings([a, b] + v + rest)
              == [Setting(0x100 * (a as int) + b, Number32(v[0], v[1], v[2], v[3]))] + ReadSettings(rest)
  {
    var s := [a, b] + v + rest;
    assert s[..2] == [a, b] && s[2..6] == [v[0], v[1], v[2], v[3]] && s[6..] == rest;
    ReadBigEndian(a, b, 0, 0);
    ReadBigEndian(v[0], v[1], v[2], v[3]);
    hide FromBE;
  }

  /** Settings 2, 4 and 5 have a range; 4 and 5 are used; all others are passed over. */
  lemma SettingMeans(s: Send, x: Setting, rest: seq<Setting>)
    ensures var refused := (x.id == 2 && x.value > 1) || (x.id == 4 && x.value > 0x7fff_ffff)
                           || (x.id == 5 && !(16384 <= x.value <= 16777215));
            ApplySettings(s, [x] + rest) ==
              if refused then (s, Some(Malformed))
              else
                ApplySettings(Send(if x.id == 5 then x.value else s.maxFrame, if x.id == 4 then x.value else s.initial,
                                   s.conn, s.streams, s.pending), rest)
  {
    assert ([x] + rest)[1..] == rest;
    assert s == Send(s.maxFrame, s.initial, s.conn, s.streams, s.pending);
  }

  // ---- padding ---------------------------------------------------------------------------------

  /** The payload of a frame, of which only `body` counts: as it is, or with the length of the
      padding in front and the padding behind. */
  predicate Wraps(f: Frame, body: seq<byte>, padding: seq<byte>) {
    if f.flags / 8 % 2 == 1 then |padding| < 256 && f.payload == [|padding|] + body + padding
    else f.payload == body && padding == []
  }

  lemma Unwrapped(f: Frame, body: seq<byte>, padding: seq<byte>)
    requires Wraps(f, body, padding)
    ensures Unpad(f) == Some(body)
  {
    if f.flags / 8 % 2 == 1 {
      assert f.payload[1..] == body + padding;
      assert (body + padding)[..|body|] == body;
    }
  }

  /** A pad length that is missing or more than what is there. */
  predicate BadPadding(f: Frame) {
    f.flags / 8 % 2 == 1 && (f.payload == [] || f.payload[0] as int > |f.payload| - 1)
  }

  /** Every payload is one or the other. */
  lemma WrapsOrBad(f: Frame) returns (body: seq<byte>, padding: seq<byte>)
    ensures !BadPadding(f) ==> Wraps(f, body, padding)
  {
    body, padding := f.payload, [];
    if f.flags / 8 % 2 == 1 && !BadPadding(f) {
      var n, k := |f.payload|, f.payload[0] as int;
      body, padding := f.payload[1..n - k], f.payload[n - k..];
      assert f.payload == [f.payload[0]] + f.payload[1..n - k] + f.payload[n - k..];
    }
  }

  // ---- DATA (section 6.1) ----------------------------------------------------------------------

  /** What an accepted DATA frame adds to the history before the handler may call: the bytes it
      takes of the credit, padding included; its body, without; and what the handler is told. */
  function DataMarks(id: nat, n: nat, body: seq<byte>, end: bool): seq<Mark> {
    [Taken(id, n), Accepted(id, body, end)] + (if body != [] then [GotData(id, body, end)] else [])
    + (if end then [Ended(id)] else [])
  }

  function Four(n: nat): seq<byte> {
    [n / 0x100_0000 % 256, n / 0x1_0000 % 256, n / 0x100 % 256, n % 256]
  }

  /** The connection when the credit of a DATA frame has been given back: all of the payload, on
      both levels. */
  function Credited(c: Conn, f: Frame): Conn {
    var n := |f.payload|;
    c.(lastId := if f.id > c.lastId then f.id else c.lastId, maxPeer := if f.id > c.maxPeer then f.id else c.maxPeer,
       trace := c.trace + [Taken(f.id, n)],
       out := if n == 0 then c.out else c.out + [Frame(8, 0, 0, Four(n)), Frame(8, 0, f.id, Four(n))])
  }

  lemma DataReduces(env: Env, c: Conn, f: Frame, body: seq<byte>)
    requires f.ftype == 0 && f.id != 0 && Unpad(f) == Some(body) && f.id in c.streams && !Closing(c, f.id)
    requires |f.payload| <= c.recvWindow && |f.payload| <= c.streams[f.id].recvWindow
    ensures OnFrame(env, c, f) == DeliverData(env, Credited(c, f), f.id, body, f.flags % 2 == 1)
  {
    ReachesData(env, c, f);
    var c0 := c.(lastId := if f.id > c.lastId then f.id else c.lastId);
    var c1 := c0.(maxPeer := if f.id > c.maxPeer then f.id else c.maxPeer);
    assert CheckRecv(c0, f.id, DataKind) == (c1, None) by { hide Valid; }
    WithinCreditGiven(c1, f.id, |f.payload|);
    GiveKeepsWindows(c1, f.id, |f.payload|);
    BigEndian(|f.payload|);
    hide GiveRecvWindow, CheckRecv, DeliverData, Unpad, Valid, ToBE, OnFrame;
  }

  /** A DATA frame on a stream that may still get data, within the credit of both levels, is
      accepted: its body, and nothing of its padding, is counted and told. */
  lemma DataMeans(env: Env, c: Conn, f: Frame, body: seq<byte>, padding: seq<byte>)
    requires f.ftype == 0 && f.id != 0 && Wraps(f, body, padding)
    requires f.id in c.streams && !Closing(c, f.id)
    requires |f.payload| <= c.recvWindow && |f.payload| <= c.streams[f.id].recvWindow
    ensures var (c', e) := OnFrame(env, c, f);
            var marks := c.trace + DataMarks(f.id, |f.payload|, body, f.flags % 2 == 1);
            && marks <= c'.trace && OnlyRegistered(c'.trace[|marks|..])
            && e == (if f.flags % 2 == 1 && !c.isClient && c.streams[f.id].declared >= 0
                        && c.streams[f.id].declared != c.streams[f.id].bodyLen + |body|
                     then Some(StreamError(f.id, 1)) else None)
  {
    Unwrapped(f, body, padding);
    DataReduces(env, c, f, body);
    Delivered(env, Credited(c, f), f.id, body, f.flags % 2 == 1);
    TakenFirst(c.trace, f.id, |f.payload|, body, f.flags % 2 == 1);
    hide DeliverData, OnFrame, Wraps, Unpad, DataMarks, DeliveryMarks, OnlyRegistered, Valid;
  }

  lemma ReachesData(env: Env, c: Conn, f: Frame)
    requires f.ftype == 0 && f.id != 0
    ensures OnFrame(env, c, f) == OnData(env, c.(lastId := if f.id > c.lastId then f.id else c.lastId), f)
  {
    hide OnData, Valid;
  }

  lemma WithinCreditGiven(c: Conn, id: nat, n: nat)
    requires id in c.streams && n <= c.recvWindow && n <= c.streams[id].recvWindow
    ensures GiveRecvWindow(c, id, n).1.None?
  {
    hide Valid;
  }

  lemma TakenFirst(t: seq<Mark>, id: nat, n: nat, body: seq<byte>, end: bool)
    ensures t + [Taken(id, n)] + DeliveryMarks(id, body, end) == t + DataMarks(id, n, body, end)
  {
    Assoc(t, [Taken(id, n)], DeliveryMarks(id, body, end));
    assert [Taken(id, n)] + DeliveryMarks(id, body, end) == DataMarks(id, n, body, end);
  }

  function DeliveryMarks(id: nat, body: seq<byte>, end: bool): seq<Mark> {
    [Accepted(id, body, end)] + (if body != [] then [GotData(id, body, end)] else [])
    + (if end then [Ended(id)] else [])
  }

  lemma Delivered(env: Env, c: Conn, id: nat, body: seq<byte>, end: bool)
    requires id in c.streams
    ensures var (c', e) := DeliverData(env, c, id, body, end);
            var marks := c.trace + DeliveryMarks(id, body, end);
            && marks <= c'.trace && OnlyRegistered(c'.trace[|marks|..])
            && e == (if end && !c.isClient && c.streams[id].declared >= 0
                        && c.streams[id].declared != c.streams[id].bodyLen + |body|
                     then Some(StreamError(id, 1)) else None)
  {
    hide Acts, EndRecv, Attached, HandlerCalls, Valid, OnlyRegistered;
    var s := c.streams[id].(bodyLen := c.streams[id].bodyLen + |body|);
    var told := if |body| > 0 then [GotData(id, body, end)] else [];
    var c1 := Telling(c.(trace := c.trace + [Accepted(id, body, end)]), id, s, told, end);
    assert c1.trace == c.trace + DeliveryMarks(id, body, end);
    var calls := HandlerCalls(env, told, c1.trace);
    ActsRegister(c1, calls);
    EndRecvSame(Acts(c1, calls), id, s, Attached(calls, id), end);
  }

  /** What refuses a DATA frame, in this order: its padding, a stream that is not there, one that
      has ended, and the two windows. */
  lemma DataRefusals(env: Env, c: Conn, f: Frame)
    requires f.ftype == 0 && f.id != 0
    ensures var e := OnFrame(env, c, f).1;
            && (BadPadding(f) ==> e == Some(Malformed))
            && (!BadPadding(f) && f.id !in c.streams ==> e == Some(ConnError(1)))
            && (!BadPadding(f) && Closing(c, f.id) ==> e == Some(StreamError(f.id, 5)))
            && (!BadPadding(f) && f.id in c.streams && !Closing(c, f.id) ==>
                  (|f.payload| > c.recvWindow || |f.payload| > c.streams[f.id].recvWindow ==> e == Some(FlowControl)))
  {
    ReachesData(env, c, f);
    PaddingRefused(f);
    hide DeliverData, Unpad, BadPadding, Valid;
  }

  lemma PaddingRefused(f: Frame)
    ensures BadPadding(f) <==> Unpad(f).None?
  {
  }

  /** The credit of a DATA frame is in front of whatever the handler sends, the windows are what
      they were, and body and end of the stream are recorded. */
  lemma DataSettles(env: Env, c: Conn, f: Frame, body: seq<byte>, padding: seq<byte>)
    requires f.ftype == 0 && f.id != 0 && Wraps(f, body, padding) && f.id in c.streams && c.streams[f.id].state == Open
    requires |f.payload| <= c.recvWindow && |f.payload| <= c.streams[f.id].recvWindow
    ensures var n, end, s := |f.payload|, f.flags % 2 == 1, c.streams[f.id];
            var (c', e) := OnFrame(env, c, f);
            && c.out + (if n == 0 then [] else [Frame(8, 0, 0, Four(n)), Frame(8, 0, f.id, Four(n))]) <= c'.out
            && c'.recvWindow == c.recvWindow
            && (e.None?
                && (body == [] || Close(f.id) !in env.handler(c.trace + DataMarks(f.id, |f.payload|, body, end))) ==>
                  && f.id in c'.streams
                  && c'.streams[f.id] ==
                       Stream(if end then HalfClosedRemote else Open, s.recvWindow, s.declared, s.bodyLen + |body|))
  {
    Unwrapped(f, body, padding);
    DataReduces(env, c, f, body);
    TakenFirst(c.trace, f.id, |f.payload|, body, f.flags % 2 == 1);
    DeliveredStream(env, Credited(c, f), f.id, body, f.flags % 2 == 1);
    assert c.out + [] == c.out;
    hide DeliverData, OnFrame, Wraps, Unpad, DataMarks, DeliveryMarks, Four, Valid;
  }

  /** What the calls of a handler leave alone. */
  lemma {:induction false} ActsLeave(c: Conn, ls: seq<Call>, id: nat)
    ensures var c' := Acts(c, ls);
            && c.out <= c'.out && c'.recvWindow == c.recvWindow && c'.blocks == c.blocks
            && (id in c.streams && Close(id) !in ls ==> id in c'.streams && c'.streams[id] == c.streams[id])
    decreases |ls|
  {
    if ls != [] {
      ActFields(c, ls[0]);
      ActWrites(c, ls[0]);
      hide Act, Makes, Valid;
      ActsLeave(Act(c, ls[0]), ls[1..], id);
    }
  }

  lemma ActWrites(c: Conn, l: Call)
    ensures c.out <= Act(c, l).out
  {
    hide Step, BlockFrames, DataFrames, Valid;
  }

  lemma DropWrites(c: Conn, id: nat)
    ensures var c' := Drop(c, id);
            && c.out <= c'.out && c'.recvWindow == c.recvWindow && c'.blocks == c.blocks && c'.trace == c.trace
            && c'.streams == c.streams - {id}
  {
    hide Step, DataFrames, Valid;
  }

  lemma DeliveredStream(env: Env, c: Conn, id: nat, body: seq<byte>, end: bool)
    requires id in c.streams && c.streams[id].state == Open
    ensures var (c', e) := DeliverData(env, c, id, body, end);
            var marks := c.trace + DeliveryMarks(id, body, end);
            && c.out <= c'.out && c'.recvWindow == c.recvWindow
            && (e.None? && (body == [] || Close(id) !in env.handler(marks)) ==>
                  && id in c'.streams
                  && c'.streams[id] ==
                       Stream(if end then HalfClosedRemote else Open, c.streams[id].recvWindow,
                              c.streams[id].declared, c.streams[id].bodyLen + |body|))
  {
    var s := c.streams[id].(bodyLen := c.streams[id].bodyLen + |body|);
    var told := if |body| > 0 then [GotData(id, body, end)] else [];
    var c1 := Telling(c.(trace := c.trace + [Accepted(id, body, end)]), id, s, told, end);
    assert c1.trace == c.trace + DeliveryMarks(id, body, end);
    var calls := HandlerCalls(env, told, c1.trace);
    ActsLeave(c1, calls, id);
    var c2 := Acts(c1, calls);
    EndedStream(c2, id, s, Attached(calls, id), end);
    DeliverySteps(env, c, id, body, end);
    hide Acts, EndRecv, Valid, DeliveryMarks, DeliverData, LengthWrong, Telling;
  }

  /** The three steps of a delivery. */
  lemma DeliverySteps(env: Env, c: Conn, id: nat, body: seq<byte>, end: bool)
    requires id in c.streams
    ensures var s := c.streams[id].(bodyLen := c.streams[id].bodyLen + |body|);
            var told := if |body| > 0 then [GotData(id, body, end)] else [];
            var c1 := Telling(c.(trace := c.trace + [Accepted(id, body, end)]), id, s, told, end);
            var calls := HandlerCalls(env, told, c1.trace);
            DeliverData(env, c, id, body, end) ==
              if end && LengthWrong(c, s) then (Acts(c1, calls), Some(StreamError(id, PROTOCOL_ERROR)))
              else (EndRecv(Acts(c1, calls), id, s, Attached(calls, id), end), None)
  {
    hide Acts, EndRecv, Valid, LengthWrong, Telling, HandlerCalls, Attached;
  }

  /** The end of the receiving direction of an open stream. */
  lemma EndedStream(c: Conn, id: nat, s: Stream, attached: bool, end: bool)
    requires s.state == Open
    ensures var c' := EndRecv(c, id, s, attached, end);
            c' == if end && attached then c.(streams := c.streams[id := s.(state := HalfClosedRemote)]) else c
  {
    hide Drop, Valid;
  }

  // ---- HEADERS and CONTINUATION (sections 6.2 and 6.10) --------------------------------------------

  /** What stands in front of the block when the priority flag is set: five bytes, of which the
      first four name another stream. */
  predicate GoodPriority(f: Frame, prio: seq<byte>) {
    if f.flags / 32 % 2 == 1 then |prio| == 5 && Number31(prio[0], prio[1], prio[2], prio[3]) != f.id
    else prio == []
  }

  function Seen(c: Conn, f: Frame): Conn {
    c.(lastId := if f.id > c.lastId then f.id else c.lastId)
  }

  lemma ReachesHeaders(env: Env, c: Conn, f: Frame)
    requires f.id != 0
    ensures f.ftype == 1 ==> OnFrame(env, c, f) == OnHeaders(env, Seen(c, f), f)
    ensures f.ftype == 9 ==> OnFrame(env, c, f) == OnContinuation(env, Seen(c, f), f)
  {
    hide OnHeaders, OnContinuation, Valid;
  }

  /** Behind padding length and priority and in front of the padding, the rest of a HEADERS frame
      is the block, or the beginning of one that CONTINUATION frames complete. */
  lemma HeadersMean(env: Env, c: Conn, f: Frame, prio: seq<byte>, block: seq<byte>, padding: seq<byte>)
    requires f.ftype == 1 && f.id != 0 && Wraps(f, prio + block, padding) && GoodPriority(f, prio)
    ensures var end := f.flags % 2 == 1;
            OnFrame(env, c, f) ==
              if f.flags / 4 % 2 == 1 then FinishHeaders(env, Seen(c, f), f.id, block, end)
              else (Seen(c, f).(hdr := Assembly(true, f.id, block, end)), None)
  {
    Unwrapped(f, prio + block, padding);
    ReachesHeaders(env, c, f);
    PriorityRead(f, prio, block);
    hide FinishHeaders, Unpad, DependsOn, Wraps, Valid, OnFrame, Seen;
  }

  lemma PriorityRead(f: Frame, prio: seq<byte>, block: seq<byte>)
    requires GoodPriority(f, prio)
    ensures f.flags / 32 % 2 == 1 ==> DependsOn(prio + block) != f.id && (prio + block)[5..] == block
    ensures f.flags / 32 % 2 == 0 ==> prio + block == block
  {
    if f.flags / 32 % 2 == 1 { DependencyRead(prio + block); }
    hide DependsOn;
  }

  /** What refuses a HEADERS frame before its block is looked at. */
  lemma HeadersRefusals(env: Env, c: Conn, f: Frame, body: seq<byte>, padding: seq<byte>)
    requires f.ftype == 1 && f.id != 0
    ensures BadPadding(f) ==> OnFrame(env, c, f) == (Seen(c, f), Some(Malformed))
    ensures Wraps(f, body, padding) && f.flags / 32 % 2 == 1 && |body| < 5 ==>
              OnFrame(env, c, f) == (Seen(c, f), Some(ConnError(6)))
    ensures Wraps(f, body, padding) && f.flags / 32 % 2 == 1 && |body| >= 5
              && Number31(body[0], body[1], body[2], body[3]) == f.id ==>
              OnFrame(env, c, f) == (Seen(c, f), Some(StreamError(f.id, 1)))
  {
    ReachesHeaders(env, c, f);
    PaddingRefused(f);
    if Wraps(f, body, padding) { Unwrapped(f, body, padding); }
    if |body| >= 5 { DependencyRead(body); }
    hide FinishHeaders, Unpad, DependsOn, Wraps, Valid, OnFrame, Seen, BadPadding;
  }

  /** A CONTINUATION comes behind what is there, and completes the block when it says so; END_STREAM
      is what the HEADERS frame said. */
  lemma ContinuationMeans(env: Env, c: Conn, f: Frame)
    requires f.ftype == 9 && f.id != 0
    ensures var block := c.hdr.block + f.payload;
            OnFrame(env, c, f) ==
              if !c.hdr.active || c.hdr.id != f.id then (Seen(c, f), Some(Malformed))
              else if f.flags / 4 % 2 == 0 then
                (Seen(c, f).(hdr := Assembly(true, f.id, block, c.hdr.endStream)), None)
              else
                FinishHeaders(env, Seen(c, f).(hdr := Assembly(false, f.id, block, c.hdr.endStream)), f.id, block,
                              c.hdr.endStream)
  {
    ReachesHeaders(env, c, f);
    hide FinishHeaders, Valid, OnFrame;
  }

  /** A stream number that the peer may open now: of its own parity, and the largest so far. */
  predicate PeerMayOpen(c: Conn, id: nat) {
    id % 2 == (if c.isClient then 0 else 1) && id > c.maxPeer
  }

  /** What a finished header block adds to the history before the handler may call. */
  function BlockMarks(c: Conn, id: nat, end: bool): seq<Mark> {
    (if id in c.streams then [] else [Opened(id)]) + [GotHeaders(id, end)] + (if end then [Ended(id)] else [])
  }

  /** A finished block, whatever is in it: the decoder gets it behind all blocks before. What it
      cannot decode, and a stream that may not be opened, end the connection; a stream that has
      ended and bad fields are errors of the stream. */
  lemma BlockMeans(env: Env, c: Conn, id: nat, block: seq<byte>, end: bool)
    ensures var (c', e) := FinishHeaders(env, c, id, block, end);
            var blocks := c.blocks + [HeaderBlock(id, block, end)];
            var v := env.verdict(blocks);
            && (v.Undecodable? ==> e == Some(ConnError(9)))
            && (!v.Undecodable? && id !in c.streams && !PeerMayOpen(c, id) ==> e == Some(ConnError(1)))
            && (!v.Undecodable? && id in c.streams && c.streams[id].state != Open ==> e == Some(StreamError(id, 5)))
            && (v.BadFields? && (if id in c.streams then c.streams[id].state == Open else PeerMayOpen(c, id)) ==>
                  e == Some(StreamError(id, 1)))
  {
    BlockSeen(env, c, id, block, end);
    hide FinishHeaders;
    var c1 := c.(blocks := c.blocks + [HeaderBlock(id, block, end)]);
    AdmitMeans(c1, id);
    hide Admit, DeliverHeaders, Valid;
  }

  lemma BlockSeen(env: Env, c: Conn, id: nat, block: seq<byte>, end: bool)
    ensures var c1 := c.(blocks := c.blocks + [HeaderBlock(id, block, end)]);
            var v, (c2, e) := env.verdict(c1.blocks), Admit(c1, id);
            FinishHeaders(env, c, id, block, end) ==
              if v.Undecodable? then (c1, Some(ConnError(9)))
              else if e.Some? then (c2, e)
              else if v.BadFields? then (c2, Some(StreamError(id, 1)))
              else DeliverHeaders(env, c2, id, v.contentLength, end)
  {
    hide Admit, DeliverHeaders, Valid;
  }

  /** Whether a header block may come on the stream: it is open, or new and the peer's to open. */
  predicate TakesBlock(c: Conn, id: nat) {
    if id in c.streams then c.streams[id].state == Open else PeerMayOpen(c, id)
  }

  function StreamOf(c: Conn, id: nat): Stream {
    if id in c.streams then c.streams[id] else Stream(Open, c.localInitial, -1, 0)
  }

  lemma AdmitMeans(c: Conn, id: nat)
    ensures var (c', e) := Admit(c, id);
            && (id !in c.streams && !PeerMayOpen(c, id) ==> e == Some(ConnError(1)))
            && (id in c.streams && c.streams[id].state != Open ==> e == Some(StreamError(id, 5)))
            && (TakesBlock(c, id) ==>
                  && e.None? && c'.streams == c.streams[id := StreamOf(c, id)] && c'.isClient == c.isClient
                  && c'.trace == c.trace + (if id in c.streams then [] else [Opened(id)])
                  && c'.blocks == c.blocks && c'.maxPeer == (if id > c.maxPeer then id else c.maxPeer))
  {
    var (c1, e) := CheckRecv(c, id, HeadersKind);
    if e.None? && id !in c.streams { MakeFields(c1, id, Opened(id)); }
    assert c.trace + [] == c.trace;
    if id in c.streams { assert c.streams[id := c.streams[id]] == c.streams; }
    hide Make, Valid;
  }

  /** Otherwise the handler is told of it, and the stream is as the block says: the body length it
      declares counts for requests only, and a request that ends without that length is an
      error of its stream. */
  lemma BlockDelivered(env: Env, c: Conn, id: nat, block: seq<byte>, end: bool)
    requires TakesBlock(c, id) && env.verdict(c.blocks + [HeaderBlock(id, block, end)]).Good?
    ensures var (c', e) := FinishHeaders(env, c, id, block, end);
            var len, s := env.verdict(c.blocks + [HeaderBlock(id, block, end)]).contentLength, StreamOf(c, id);
            var marks := c.trace + BlockMarks(c, id, end);
            && marks <= c'.trace && OnlyRegistered(c'.trace[|marks|..])
            && e == (if end && !c.isClient && len.Some? && len.value != s.bodyLen
                     then Some(StreamError(id, 1)) else None)
            && (Close(id) !in env.handler(marks) ==>
                  && id in c'.streams
                  && c'.streams[id] ==
                       Stream(if end then HalfClosedRemote else Open, s.recvWindow,
                              if c.isClient then s.declared else if len.Some? then len.value else -1, s.bodyLen))
  {
    BlockSeen(env, c, id, block, end);
    var c1 := c.(blocks := c.blocks + [HeaderBlock(id, block, end)]);
    AdmitMeans(c1, id);
    HeadersDelivered(env, Admit(c1, id).0, id, env.verdict(c1.blocks).contentLength, end);
    MarksAdded(c, id, end);
    hide FinishHeaders, Admit, DeliverHeaders, OnlyRegistered, BlockMarks, Valid;
  }

  lemma MarksAdded(c: Conn, id: nat, end: bool)
    ensures var t := c.trace + (if id in c.streams then [] else [Opened(id)]);
            t + ([GotHeaders(id, end)] + (if end then [Ended(id)] else [])) == c.trace + BlockMarks(c, id, end)
  {
  }

  lemma HeadersDelivered(env: Env, c: Conn, id: nat, len: Option<nat>, end: bool)
    requires id in c.streams && c.streams[id].state == Open
    ensures var (c', e) := DeliverHeaders(env, c, id, len, end);
            var s := c.streams[id];
            var marks := c.trace + ([GotHeaders(id, end)] + (if end then [Ended(id)] else []));
            && marks <= c'.trace && OnlyRegistered(c'.trace[|marks|..])
            && e == (if end && !c.isClient && len.Some? && len.value != s.bodyLen
                     then Some(StreamError(id, 1)) else None)
            && (Close(id) !in env.handler(marks) ==>
                  && id in c'.streams
                  && c'.streams[id] ==
                       Stream(if end then HalfClosedRemote else Open, s.recvWindow,
                              if c.isClient then s.declared else if len.Some? then len.value else -1, s.bodyLen))
  {
    var s := WithLength(c, id, len);
    var told := [GotHeaders(id, end)];
    var c1 := Telling(c, id, s, told, end);
    var calls := HandlerCalls(env, told, c1.trace);
    ActsRegister(c1, calls);
    ActsLeave(c1, calls, id);
    var c2 := Acts(c1, calls);
    EndedStream(c2, id, s, Attached(calls, id), end);
    EndRecvSame(c2, id, s, Attached(calls, id), end);
    hide Acts, EndRecv, Valid, OnlyRegistered;
  }

  // ---- RST_STREAM and WINDOW_UPDATE (sections 6.4 and 6.9) ------------------------------------------

  /** A reset tells the handler its code, and the stream is gone. */
  lemma ResetMeans(env: Env, c: Conn, f: Frame)
    requires f.ftype == 3 && f.id != 0 && |f.payload| == 4
    ensures var (c', e) := OnFrame(env, c, f);
            var code := Number32(f.payload[0], f.payload[1], f.payload[2], f.payload[3]);
            var marks := c.trace + [GotReset(f.id, code)];
            if f.id in c.streams then
              e.None? && marks <= c'.trace && OnlyRegistered(c'.trace[|marks|..]) && f.id !in c'.streams
            else e == Some(ConnError(1)) && c'.trace == c.trace
  {
    assert f.payload == [f.payload[0], f.payload[1], f.payload[2], f.payload[3]];
    ReadBigEndian(f.payload[0], f.payload[1], f.payload[2], f.payload[3]);
    var c1 := Seen(c, f);
    assert OnFrame(env, c, f) == OnRSTStream(env, c1, f) by { hide OnRSTStream, Valid; }
    if f.id in c.streams {
      var c2 := CheckRecv(c1, f.id, ResetKind).0;
      var told := [GotReset(f.id, FromBE(f.payload))];
      var c3 := c2.(trace := c2.trace + told);
      var calls := HandlerCalls(env, told, c3.trace);
      ActsRegister(c3, calls);
      DropWrites(Acts(c3, calls), f.id);
      hide OnFrame, Acts, Drop, FromBE, HandlerCalls, OnlyRegistered, Valid;
    } else {
      hide OnFrame, Acts, Drop, FromBE, HandlerCalls, OnlyRegistered, Valid;
    }
  }

  /** `c'` is `c` with the sending side as a flush of `s` leaves it. */
  predicate Flushed(c: Conn, c': Conn, s: Send) {
    && c'.send == Flush(s).s && c'.out == c.out + DataFrames(Flush(s).frames)
    && c' == c.(send := c'.send, out := c'.out)
  }

  lemma ConnUpdateSent(c: Conn, inc: nat)
    requires inc < 0x1_0000_0000
    ensures var (c', e) := Sending(c, ConnUpdate(inc));
            if inc == 0 then c' == c && e == Some(Malformed)
            else if c.send.conn + inc > 0x7fff_ffff then c' == c && e == Some(ConnError(3))
            else Flushed(c, c', c.send.(conn := c.send.conn + inc)) && e.None?
  {
    OverflowTestIsExact(c.send.conn, inc);
    StepKeepsValid(c.send, ConnUpdate(inc));
    assert c.out + [] == c.out;
    FlushSucceeds(c.send.(conn := c.send.conn + inc));
    hide Flush, Int32, Overflows, DataFrames;
  }

  lemma StreamUpdateSent(c: Conn, id: nat, inc: nat)
    requires inc < 0x1_0000_0000 && id in c.send.streams
    ensures var (c', e) := Sending(c, StreamUpdate(id, inc));
            if inc == 0 then c' == c && e == Some(ConnError(1))
            else if c.send.streams[id] + inc > 0x7fff_ffff then c' == c && e == Some(StreamError(id, 3))
            else Flushed(c, c', c.send.(streams := c.send.streams[id := c.send.streams[id] + inc])) && e.None?
  {
    OverflowTestIsExact(c.send.streams[id], inc);
    StepKeepsValid(c.send, StreamUpdate(id, inc));
    assert c.out + [] == c.out;
    FlushSucceeds(c.send.(streams := c.send.streams[id := c.send.streams[id] + inc]));
    hide Flush, Int32, Overflows, DataFrames;
  }

  /** An increment, of all 32 bits, of the connection's window: 0 is refused, and so is one
      beyond 2^31-1; any other widens the window and sends what it lets through. */
  lemma ConnUpdateMeans(env: Env, c: Conn, f: Frame)
    requires f.ftype == 8 && f.id == 0 && |f.payload| == 4
    ensures var inc := Number32(f.payload[0], f.payload[1], f.payload[2], f.payload[3]);
            var (c', e) := OnFrame(env, c, f);
            if inc == 0 then c' == c && e == Some(Malformed)
            else if c.send.conn + inc > 0x7fff_ffff then c' == c && e == Some(ConnError(3))
            else Flushed(c, c', c.send.(conn := c.send.conn + inc)) && e.None?
  {
    UpdateRead(c, f);
    ConnUpdateSent(c, FromBE(f.payload));
    ReachesUpdate(env, c, f);
    hide Sending, Valid, FromBE, Flushed, OnFrame;
  }

  /** The window of a stream: one that is not there and an increment of 0 end the connection, and
      one beyond 2^31-1 is an error of the stream. */
  lemma StreamUpdateMeans(env: Env, c: Conn, f: Frame)
    requires f.ftype == 8 && f.id != 0 && |f.payload| == 4 && c.send.streams.Keys == c.streams.Keys
    ensures var inc := Number32(f.payload[0], f.payload[1], f.payload[2], f.payload[3]);
            var (c', e) := OnFrame(env, c, f);
            var c1 := Seen(c, f).(maxPeer := if f.id > c.maxPeer then f.id else c.maxPeer);
            if f.id !in c.streams then c' == Seen(c, f) && e == Some(ConnError(1))
            else if inc == 0 then c' == c1 && e == Some(ConnError(1))
            else if c.send.streams[f.id] + inc > 0x7fff_ffff then c' == c1 && e == Some(StreamError(f.id, 3))
            else
              Flushed(c1, c', c.send.(streams := c.send.streams[f.id := c.send.streams[f.id] + inc])) && e.None?
  {
    UpdateRead(c, f);
    var c1 := Seen(c, f).(maxPeer := if f.id > c.maxPeer then f.id else c.maxPeer);
    if f.id in c.streams {
      assert f.id in c.send.streams.Keys;
      StreamUpdateSent(c1, f.id, FromBE(f.payload));
    }
    hide Sending, Valid, FromBE, Flushed, OnFrame;
    assert OnFrame(env, c, f) == OnStreamWindowUpdate(Seen(c, f), f) by { ReachesUpdate(env, c, f); }
  }

  lemma UpdateRead(c: Conn, f: Frame)
    requires |f.payload| == 4
    ensures FromBE(f.payload) == Number32(f.payload[0], f.payload[1], f.payload[2], f.payload[3]) < 0x1_0000_0000
  {
    assert f.payload == [f.payload[0], f.payload[1], f.payload[2], f.payload[3]];
    ReadBigEndian(f.payload[0], f.payload[1], f.payload[2], f.payload[3]);
    hide FromBE;
  }

  lemma ReachesUpdate(env: Env, c: Conn, f: Frame)
    requires f.ftype == 8 && |f.payload| == 4
    ensures OnFrame(env, c, f) == if f.id == 0 then OnConnWindowUpdate(c, f) else OnStreamWindowUpdate(Seen(c, f), f)
  {
    hide OnStreamWindowUpdate, OnConnWindowUpdate, Valid;
  }

  // ---- the first frames of a side --------------------------------------------------------------------

  lemma TwoSettings(a: Setting, b: Setting)
    ensures SettingsPayload([a]) == ToBE(a.id, 2) + ToBE(a.value, 4)
    ensures SettingsPayload([a, b]) == SettingsPayload([a]) + ToBE(b.id, 2) + ToBE(b.value, 4)
  {
    hide ToBE;
    var none: seq<Setting> := [];
    assert [a][..0] == none && [a, b][..1] == [a] && SettingsPayload(none) == [];
  }

  lemma FirstPayloads()
    ensures SettingsPayload([Setting(5, 16384)]) == [0, 5, 0, 0, 64, 0]
    ensures SettingsPayload([Setting(5, 16384), Setting(4, 1048576)]) == [0, 5, 0, 0, 64, 0, 0, 4, 0, 16, 0, 0]
  {
    hide ToBE, SettingsPayload;
    var a, b := Setting(5, 16384), Setting(4, 1048576);
    TwoSettings(a, b);
    Digits2(a.id, 0, 5);
    Digits4(a.value, 0, 0, 64, 0);
    Digits2(b.id, 0, 4);
    Digits4(b.value, 0, 16, 0, 0);
  }

  /** Both sides announce 2^14 as their frame limit; a server also opens its windows to 2^20. No
      stream is there, none has been seen, and no block is open. */
  lemma StartMeans()
    ensures Start(true) ==
              Conn(true, NewSend, map[], 0, 0, Assembly(false, 0, [], false), 65535, 65535, false,
                   [Frame(4, 0, 0, [0, 5, 0, 0, 64, 0])], [], [])
    ensures Start(false) ==
              Conn(false, NewSend, map[], 0, 0, Assembly(false, 0, [], false), 1048576, 1048576, false,
                   [Frame(4, 0, 0, [0, 5, 0, 0, 64, 0, 0, 4, 0, 16, 0, 0]), Frame(8, 0, 0, [0, 15, 0, 1])], [], [])
    ensures NewSend == Send(16384, 65535, 65535, map[], [])
  {
    FirstPayloads();
    Digits4(1048576 - 65535, 0, 15, 0, 1);
    hide ToBE, SettingsPayload, Valid;
  }

  // ---- sending (sections 5.2 and 6.9) -----------------------------------------------------------------

  /** What may leave on a stream now: as much as both its window and the connection's allow. */
  predicate Room(s: Send, id: nat, n: int) {
    n <= s.conn && (id in s.streams ==> n <= s.streams[id]) && (n == s.conn || (id in s.streams && n == s.streams[id]))
  }

  /** `n` bytes of the stream have left. */
  function Less(s: Send, id: nat, n: nat): Send {
    Send(s.maxFrame, s.initial, s.conn - n,
         if id in s.streams then s.streams[id := s.streams[id] - n] else s.streams, s.pending)
  }

  /** A body that one frame and the connection's window hold leaves as it is, and nothing is
      charged. */
  lemma ShortBodyMeans(s: Send, id: nat, data: seq<byte>, end: bool)
    requires s.maxFrame > 0 && |data| <= s.maxFrame && |data| <= s.conn
    ensures Write(s, id, data, end) == Stepped([Chunk(id, data, end)], s, None)
  {
  }

  /** Any other is cut: each frame is as long as the limit, the room and the rest of the body
      allow, and the last has END_STREAM when that is asked for; what there is no room for
      is queued behind all that waits. */
  lemma CutBodyMeans(s: Send, id: nat, data: seq<byte>, end: bool, room: int, n: nat)
    requires s.maxFrame > 0 && data != [] && Room(s, id, room)
    requires room > 0 ==>
               n <= s.maxFrame && n <= |data| && n <= room && (n == s.maxFrame || n == |data| || n == room)
    ensures |data| > s.maxFrame || |data| > s.conn ==> Write(s, id, data, end) == Slices(s, id, data, end)
    ensures room <= 0 ==>
              Slices(s, id, data, end) ==
                Stepped([], Send(s.maxFrame, s.initial, s.conn, s.streams, s.pending + [Chunk(id, data, end)]), None)
    ensures room > 0 ==>
              var r := Slices(Less(s, id, n), id, data[n..], end);
              Slices(s, id, data, end) ==
                Stepped([Chunk(id, data[..n], n == |data| && end)] + r.frames, r.s, r.error)
    ensures Slices(s, id, [], end) == Stepped([], s, None)
  {
    hide Valid;
  }

  /** The queue, from its front: an item for which there is no room stops the flush, one that is
      too long leaves in part and without END_STREAM, and one that fits leaves whole. */
  lemma FlushMeans(s: Send, p: Chunk, more: seq<Chunk>, room: int)
    requires s.pending == [p] + more && Room(s, p.id, room)
    ensures room <= 0 ==> Flush(s) == Stepped([], s, None)
    ensures 0 < room < |p.data| ==>
              Flush(s) ==
                Stepped([Chunk(p.id, p.data[..room], false)],
                        Less(s, p.id, room).(pending := [Chunk(p.id, p.data[room..], p.end)] + more), None)
    ensures 0 < room && |p.data| <= room ==>
              var r := Flush(Less(s, p.id, |p.data|).(pending := more));
              Flush(s) == Stepped([Chunk(p.id, p.data, p.end && more == [])] + r.frames, r.s, r.error)
  {
    assert s.pending[0] == p && s.pending[1..] == more;
    hide Valid;
  }

  /** A stream that is made gets the window that the peer announced last, and loses it with the
      stream. */
  lemma WindowsMade(s: Send, id: nat)
    requires s.maxFrame > 0
    ensures Step(s, Event.Register(id)) ==
              Stepped([], if id in s.streams then s else s.(streams := s.streams[id := s.initial]), None)
    ensures Step(s, Forget(id)) == Stepped([], s.(streams := s.streams - {id}), None)
  {
  }

  /** A header block that fits is one HEADERS frame with END_HEADERS; a longer one is cut at the
      limit, END_STREAM is on the first frame and END_HEADERS on the last. */
  lemma BlockOnTheWire(max: nat, id: nat, block: seq<byte>, end: bool)
    requires max > 0
    ensures |block| <= max ==> BlockFrames(max, id, block, end) == [Frame(1, if end then 5 else 4, id, block)]
    ensures |block| > max ==>
              BlockFrames(max, id, block, end)
                == [Frame(1, if end then 1 else 0, id, block[..max])] + Continuations(max, id, block[max..])
    ensures 0 < |block| <= max ==> Continuations(max, id, block) == [Frame(9, 4, id, block)]
    ensures |block| > max ==>
              Continuations(max, id, block) == [Frame(9, 0, id, block[..max])] + Continuations(max, id, block[max..])
  {
    if 0 < |block| <= max {
      assert block[..|block|] == block && block[|block|..] == [];
      assert Continuations(max, id, []) == [];
    }
  }

  /** Bodies travel in DATA frames, END_STREAM as bit 0. */
  lemma BodyOnTheWire(cs: seq<Chunk>, k: nat)
    requires k < |cs|
    ensures |DataFrames(cs)| == |cs|
    ensures DataFrames(cs)[k] == Frame(0, if cs[k].end then 1 else 0, cs[k].id, cs[k].data)
  {
    if k > 0 { BodyOnTheWire(cs[1..], k - 1); } else if |cs| > 1 { BodyOnTheWire(cs[1..], 0); }
  }
}
