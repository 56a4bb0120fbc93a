/** WebSocket frames and messages: the wire format of section 5.2 of RFC 6455 and what the
    library does with a whole frame (websocket/conn_core.go, websocket/ws_header.go). */
module WsFrame {
  import opened Bytes
  import opened Framing

  // ---- frames --------------------------------------------------------------------------

  const CONTINUATION := 0x0
  const TEXT := 0x1
  const BINARY := 0x2
  const CLOSE := 0x8
  const PING := 0x9
  const PONG := 0xA

  const MAX_CONTROL := 125
  const MAX_PAYLOAD := 0x7fff_ffff

  /** Four bytes, or none for an unmasked frame. */
  type Key = k: seq<byte> | |k| == 0 || |k| == 4 witness []

  /** A frame as it is on the wire: the payload is still masked. */
  datatype WsFrame = WsFrame(head: byte, key: Key, raw: seq<byte>)

  datatype Error =
    | TooBigMessage(length: nat) | LengthOutOfScope(length: nat) | Protocol | CloseReceived | WriteFailed | ReadFailed

  function Opcode(head: byte): nat { head % 16 }

  predicate Fin(head: byte) { head >= 0x80 }

  predicate Rsv(head: byte) { head % 0x80 >= 0x10 }

  /** How many bytes of extended length and key follow the first two bytes. */
  function ExtSize(b1: byte): (n: nat)
    ensures n <= 12
  {
    (if b1 >= 0x80 then 4 else 0) + LenSize(b1)
  }

  function LenSize(b1: byte): (n: nat) {
    if b1 % 0x80 == 126 then 2 else if b1 % 0x80 == 127 then 8 else 0
  }

  /** The payload length of a header whose bytes are all there. */
  function PayloadLen(b: seq<byte>): nat
    requires |b| >= 2 && |b| >= 2 + ExtSize(b[1])
  {
    if LenSize(b[1]) == 0 then b[1] % 0x80 else FromBE(b[2..2 + LenSize(b[1])])
  }

  function KeyOf(b: seq<byte>): Key
    requires |b| >= 2 && |b| >= 2 + ExtSize(b[1])
  {
    if b[1] >= 0x80 then b[2 + LenSize(b[1])..2 + ExtSize(b[1])] else []
  }

  /** A length the reader refuses as soon as the header is there. */
  function LengthError(max: int, length: nat): Option<Error> {
    if max > 0 && length > max then Some(TooBigMessage(length))
    else if length > MAX_PAYLOAD then Some(LengthOutOfScope(length))
    else None
  }

  /** One cut of the flat decoder: header, length, key, payload. `max` is the limit on
      payloads, none when it is not positive. */
  function CutWs(max: int, b: seq<byte>): Cut<int, WsFrame, Error> {
    if |b| < 2 || |b| < 2 + ExtSize(b[1]) then More
    else
      var start, length := 2 + ExtSize(b[1]), PayloadLen(b);
      if LengthError(max, length).Some? then Fail(LengthError(max, length).value)
      else if |b| < start + length then More
      else Item(WsFrame(b[0], KeyOf(b), b[start..start + length]), start + length, max)
  }

  lemma HeaderStable(a: seq<byte>, b: seq<byte>)
    requires |a| >= 2 && |a| >= 2 + ExtSize(a[1])
    ensures PayloadLen(a + b) == PayloadLen(a) && KeyOf(a + b) == KeyOf(a)
  {
    var n, m := 2 + LenSize(a[1]), 2 + ExtSize(a[1]);
    assert (a + b)[2..n] == a[2..n] && (a + b)[n..m] == a[n..m];
  }

  lemma CutWsLawful()
    ensures Lawful(CutWs) && forall max: int :: CutWs(max, []).More?
  {
    hide FromBE, LenSize, LengthError;
    forall max: int, a: seq<byte>, b: seq<byte> {:trigger CutWs(max, a + b)} | !CutWs(max, a).More?
      ensures CutWs(max, a + b) == CutWs(max, a)
    {
      HeaderStable(a, b);
      hide KeyOf, PayloadLen, ExtSize;
      var start, length := 2 + ExtSize(a[1]), PayloadLen(a);
      if start + length <= |a| { assert (a + b)[start..start + length] == a[start..start + length]; }
    }
  }

  /** The shortest form of a length, as section 5.2 demands. */
  function LenForm(n: nat): nat {
    if n <= 125 then n else if n <= 65535 then 126 else 127
  }

  function LenBytes(n: nat): seq<byte> {
    if n <= 125 then [] else if n <= 65535 then ToBE(n, 2) else ToBE(n, 8)
  }

  function WsBytes(f: WsFrame): seq<byte> {
    [f.head, LenForm(|f.raw|) + (if f.key == [] then 0 else 0x80)] + LenBytes(|f.raw|) + f.key + f.raw
  }

  predicate WsOk(max: int, f: WsFrame) {
    |f.raw| <= MAX_PAYLOAD && (max > 0 ==> |f.raw| <= max)
  }

  function SameMax(max: int, f: WsFrame): int { max }

  /** The decoder undoes the encoder for every opcode, key and length form. */
  lemma CutUndoesWs()
    ensures Undoes(CutWs, WsBytes, WsOk, SameMax)
  {
    forall max: int, f: WsFrame, tail: seq<byte> {:trigger CutWs(max, WsBytes(f) + tail)} | WsOk(max, f)
      ensures CutWs(max, WsBytes(f) + tail) == Item(f, |WsBytes(f)|, SameMax(max, f))
    {
      HeaderRead(f, tail);
      hide *;
      BodyRead(max, f, tail);
    }
  }

  lemma HeaderRead(f: WsFrame, tail: seq<byte>)
    requires |f.raw| <= MAX_PAYLOAD
    ensures var b := WsBytes(f) + tail;
            && |b| >= 2 && b[0] == f.head && ExtSize(b[1]) == |LenBytes(|f.raw|)| + |f.key|
                 && |b| >= 2 + ExtSize(b[1]) + |f.raw|
            && PayloadLen(b) == |f.raw| && KeyOf(b) == f.key && b[2 + ExtSize(b[1])..] == f.raw + tail
            && |WsBytes(f)| == 2 + ExtSize(b[1]) + |f.raw|
  {
    hide FromBE, LenForm, LenBytes, LenSize, PayloadLen, KeyOf;
    LenWorks(|f.raw|);
    var n, len := |f.raw|, LenBytes(|f.raw|);
    var h: seq<byte> := [f.head, LenForm(n) + (if f.key == [] then 0 else 0x80)];
    LenSizeLow(h[1]);
    Sliced(h, len, f.key, f.raw, tail);
    assert WsBytes(f) + tail == h + len + f.key + f.raw + tail;
    hide WsBytes;
    ReadsBack(h + len + f.key + f.raw + tail, n, len, f.key);
  }

  lemma ReadsBack(b: seq<byte>, n: nat, len: seq<byte>, key: Key)
    requires |b| >= 2 && LenSize(b[1]) == |len| && (b[1] >= 0x80 <==> key != []) && |b| >= 2 + |len| + |key|
    requires b[2..2 + |len|] == len && b[2 + |len|..2 + |len| + |key|] == key
    requires if len == [] then b[1] % 0x80 == n else FromBE(len) == n
    ensures ExtSize(b[1]) == |len| + |key| && PayloadLen(b) == n && KeyOf(b) == key
  {
    hide FromBE, LenSize;
  }

  lemma LenSizeLow(b: byte)
    ensures LenSize(b) == LenSize(b % 0x80)
  {
  }

  lemma Sliced(h: seq<byte>, len: seq<byte>, key: seq<byte>, raw: seq<byte>, tail: seq<byte>)
    requires |h| == 2
    ensures var b := h + len + key + raw + tail;
            && b[0] == h[0] && b[1] == h[1] && b[2..2 + |len|] == len && b[2 + |len|..2 + |len| + |key|] == key
            && b[2 + |len| + |key|..] == raw + tail
  {
  }

  lemma LenWorks(n: nat)
    requires n <= MAX_PAYLOAD
    ensures LenForm(n) < 0x80 && LenSize(LenForm(n)) == |LenBytes(n)|
    ensures if LenBytes(n) == [] then LenForm(n) == n else FromBE(LenBytes(n)) == n
  {
    Powers();
    if n > 65535 { FromTo(n, 8); } else if n > 125 { FromTo(n, 2); }
    hide FromBE, ToBE;
  }

  lemma BodyRead(max: int, f: WsFrame, tail: seq<byte>)
    requires WsOk(max, f)
    requires var b := WsBytes(f) + tail;
             && |b| >= 2 && b[0] == f.head && |b| >= 2 + ExtSize(b[1]) + |f.raw|
             && PayloadLen(b) == |f.raw| && KeyOf(b) == f.key && b[2 + ExtSize(b[1])..] == f.raw + tail
             && |WsBytes(f)| == 2 + ExtSize(b[1]) + |f.raw|
    ensures CutWs(max, WsBytes(f) + tail) == Item(f, |WsBytes(f)|, SameMax(max, f))
  {
    var b := WsBytes(f) + tail;
    var start := 2 + ExtSize(b[1]);
    assert b[start..start + |f.raw|] == b[start..][..|f.raw|] == f.raw;
    hide PayloadLen, KeyOf, WsBytes, ExtSize;
  }

  // ---- masking (section 5.3) ---------------------------------------------------------------

  /** Byte k of the payload is combined with byte k mod 4 of the key. */
  function Mask(key: Key, s: seq<byte>): (r: seq<byte>)
    ensures |r| == |s|
  {
    if key == [] then s else MaskFrom(key, s, 0)
  }

  function MaskFrom(key: Key, s: seq<byte>, at: nat): (r: seq<byte>)
    requires |key| == 4
    ensures |r| == |s|
    decreases |s|
  {
    if s == [] then [] else [Xor(s[0], key[at % 4])] + MaskFrom(key, s[1..], at + 1)
  }

  lemma {:induction false} MaskFromTwice(key: Key, s: seq<byte>, at: nat)
    requires |key| == 4
    ensures MaskFrom(key, MaskFrom(key, s, at), at) == s
    decreases |s|
  {
    hide Xor;
    if s != [] {
      XorTwice(s[0], key[at % 4]);
      MaskFromTwice(key, s[1..], at + 1);
      var m := MaskFrom(key, s, at);
      assert m[1..] == MaskFrom(key, s[1..], at + 1);
    }
  }

  lemma MaskTwice(key: Key, s: seq<byte>)
    ensures Mask(key, Mask(key, s)) == s
  {
    if key != [] { MaskFromTwice(key, s, 0); }
  }

  // ---- what is done with a frame -----------------------------------------------------------------

  datatype Reason = BadFrame | NotUtf8 | EndOfFile | PeerClosed | CannotWrite

  /** What the application and the peer get to see. */
  datatype Event =
    | OnMessage(op: nat, data: seq<byte>)
    | OnClose(why: Reason)
    | Sent(op: nat, data: seq<byte>)

  /** A message whose first fragment has come. */
  datatype Fragments = Fragments(op: nat, data: seq<byte>)

  datatype Ws = Ws(closed: bool, frag: Option<Fragments>, told: bool, log: seq<Event>)

  const NewWs := Ws(false, None, false, [])

  /** Configuration, the checks that live elsewhere, and what the outside does: whether the
      handler has closed the connection by now, and whether the next write fails. */
  datatype Env = Env(
    replyPing: bool, ignorePong: bool, utf8: seq<byte> -> bool, validCode: nat -> bool,
    closes: seq<Event> -> bool, writeFails: seq<Event> -> bool)

  type Result = (Ws, Option<Error>)

  /** OnClose is called once. */
  function CloseOnce(s: Ws, why: Reason): Ws {
    if s.told then s else s.(told := true, log := s.log + [OnClose(why)])
  }

  function Shut(s: Ws, why: Reason): Ws {
    CloseOnce(s, why).(closed := true)
  }

  function Deliver(env: Env, s: Ws, op: nat, data: seq<byte>): Ws {
    var log := s.log + [OnMessage(op, data)];
    s.(log := log, closed := s.closed || env.closes(log))
  }

  /** A reply; on a closed connection, or when the socket refuses, it fails. */
  function Reply(env: Env, s: Ws, op: nat, data: seq<byte>): (Ws, bool) {
    if s.closed then (s, false)
    else if env.writeFails(s.log) then (Shut(s, CannotWrite), false)
    else (s.(log := s.log + [Sent(op, data)]), true)
  }

  function CodeBytes(code: nat): seq<byte> { ToBE(code, 2) }

  const NORMAL_CLOSURE := 1000
  const PROTOCOL_ERROR := 1002

  /** writeErrAndOnClose, for the errors that end the read loop. */
  function Refuse(env: Env, s: Ws, why: Reason): Result {
    var (s', ok) := Reply(env, s, CLOSE, CodeBytes(PROTOCOL_ERROR));
    (Shut(s', why), Some(if ok then Protocol else WriteFailed))
  }

  /** A whole message: text must be UTF-8, and nothing is delivered on a closed connection. For a
      message in one frame the connection is closed without an error of its own, so that the
      application is told of an end of the stream. */
  function WholeMessage(env: Env, s: Ws, op: nat, data: seq<byte>, pieces: bool): Ws {
    if s.closed then s
    else if op == TEXT && !env.utf8(data) then Shut(s, if pieces then NotUtf8 else EndOfFile)
    else Deliver(env, s, op, data)
  }

  function OnCloseFrame(env: Env, s: Ws, data: seq<byte>): Result {
    if data == [] then (CloseOnce(Reply(env, s, CLOSE, CodeBytes(NORMAL_CLOSURE)).0, PeerClosed), None)
    else if |data| < 2 then Refuse(env, s, BadFrame)
    else if !env.utf8(data[2..]) then Refuse(env, s, NotUtf8)
    else if !env.validCode(FromBE(data[..2])) then Refuse(env, s, BadFrame)
    else
      var (s', ok) := Reply(env, s, CLOSE, data);
      if ok then (Shut(s', PeerClosed), Some(CloseReceived)) else (s'.(closed := true), Some(WriteFailed))
  }

  function OnControl(env: Env, s: Ws, op: nat, fin: bool, data: seq<byte>): Result {
    if |data| > MAX_CONTROL then Refuse(env, s, BadFrame)
    else if !fin then Refuse(env, s, BadFrame)
    else if op == CLOSE then OnCloseFrame(env, s, data)
    else if op == PING && env.replyPing then
      var (s', ok) := Reply(env, s, PONG, data);
      if ok then (Deliver(env, s', PING, data), None) else (Shut(s', CannotWrite), Some(WriteFailed))
    else if op == PONG && env.ignorePong then (s, None)
    else (if s.closed then s else Deliver(env, s, op, []), None)
  }

  /** processCallback, without compression and with the callback run in place. An error ends
      the read loop and closes the connection. */
  function Handle(env: Env, s: Ws, f: WsFrame): Result {
    var op, fin, data := Opcode(f.head), Fin(f.head), Mask(f.key, f.raw);
    if Rsv(f.head) then Refuse(env, s, BadFrame)
    else if s.frag.Some? && op < 8 then
      if op != CONTINUATION then Refuse(env, s, BadFrame)
      else
        var frag := s.frag.value.(data := s.frag.value.data + data);
        if fin then (WholeMessage(env, s.(frag := None), frag.op, frag.data, true), None)
            else (s.(frag := Some(frag)), None)
    else if op == TEXT || op == BINARY then
      if !fin then (s.(frag := Some(Fragments(op, data))), None) else (WholeMessage(env, s, op, data, false), None)
    else if op == CLOSE || op == PING || op == PONG then OnControl(env, s, op, fin, data)
    else Refuse(env, s, BadFrame)
  }

  function Callback(env: Env): (Ws, WsFrame) -> Result {
    (s: Ws, f: WsFrame) => Handle(env, s, f)
  }

  // ---- reassembly (section 5.4) -----------------------------------------------------------------------

  datatype ControlFrame = ControlFrame(op: nat, key: Key, data: seq<byte>)

  type Control = c: ControlFrame | (c.op == PING || c.op == PONG)
      && |c.data| <= MAX_CONTROL witness ControlFrame(PING, [], [])

  datatype Piece = Piece(key: Key, data: seq<byte>, before: seq<Control>)

  type DataOp = op: nat | op == TEXT || op == BINARY witness TEXT

  /** A message cut into a first piece and any number of further ones; control frames may
      come before each of those. */
  datatype Message = Message(op: DataOp, key: Key, first: seq<byte>, more: seq<Piece>)

  function Frame(fin: bool, op: nat, key: Key, data: seq<byte>): WsFrame
    requires op < 16
  {
    WsFrame((if fin then 0x80 else 0) + op, key, Mask(key, data))
  }

  function ControlFrames(cs: seq<Control>): seq<WsFrame> {
    if cs == [] then [] else [Frame(true, cs[0].op, cs[0].key, cs[0].data)] + ControlFrames(cs[1..])
  }

  function PieceFrames(ps: seq<Piece>): seq<WsFrame> {
    if ps == [] then []
    else ControlFrames(ps[0].before) + [Frame(|ps| == 1, CONTINUATION, ps[0].key, ps[0].data)] + PieceFrames(ps[1..])
  }

  function MessageFrames(m: Message): seq<WsFrame> {
    [Frame(m.more == [], m.op, m.key, m.first)] + PieceFrames(m.more)
  }

  function AllFrames(ms: seq<Message>): seq<WsFrame> {
    if ms == [] then [] else MessageFrames(ms[0]) + AllFrames(ms[1..])
  }

  /** What a control frame should lead to. */
  function ControlNow(env: Env, c: Control): seq<Event> {
    if c.op == PING && env.replyPing then [Sent(PONG, c.data), OnMessage(PING, c.data)]
    else if c.op == PONG && env.ignorePong then []
    else [OnMessage(c.op, [])]
  }

  function ControlEvents(env: Env, cs: seq<Control>): seq<Event> {
    if cs == [] then []
    else
      ControlNow(env, cs[0]) + ControlEvents(env, cs[1..])
  }

  function PieceEvents(env: Env, ps: seq<Piece>): seq<Event> {
    if ps == [] then [] else ControlEvents(env, ps[0].before) + PieceEvents(env, ps[1..])
  }

  function PieceData(ps: seq<Piece>): seq<byte> {
    if ps == [] then [] else ps[0].data + PieceData(ps[1..])
  }

  function Body(m: Message): seq<byte> {
    m.first + PieceData(m.more)
  }

  /** The pure decoder: control frames where they stand, then each message whole. */
  function Expected(env: Env, ms: seq<Message>): seq<Event> {
    if ms == [] then []
    else PieceEvents(env, ms[0].more) + [OnMessage(ms[0].op, Body(ms[0]))] + Expected(env, ms[1..])
  }

  /** Nobody closes the connection and no reply fails. */
  ghost predicate Calm(env: Env) {
    forall log: seq<Event> :: !env.closes(log) && !env.writeFails(log)
  }

  lemma FrameReadsBack(env: Env, s: Ws, fin: bool, op: nat, key: Key, data: seq<byte>)
    requires op < 16
    ensures var f := Frame(fin, op, key, data);
            Opcode(f.head) == op && Fin(f.head) == fin && !Rsv(f.head) && Mask(f.key, f.raw) == data
  {
    MaskTwice(key, data);
  }

  /** Control frames go through whether or not a message is being put together. */
  lemma {:induction false} ControlsPass(env: Env, s: Ws, cs: seq<Control>)
    requires Calm(env) && !s.closed
    ensures Fold(Callback(env), s, ControlFrames(cs)) == (s.(log := s.log + ControlEvents(env, cs)), None)
    decreases |cs|
  {
    hide Handle, Frame;
    if cs == [] {
      assert s.log + [] == s.log;
    } else {
      var c := cs[0];
      var f, later := Frame(true, c.op, c.key, c.data), ControlFrames(cs[1..]);
      OneControl(env, s, c);
      var s' := Handle(env, s, f).0;
      FoldFirst(Callback(env), s, f, later);
      ControlsPass(env, s', cs[1..]);
      Assoc(s.log, ControlNow(env, c), ControlEvents(env, cs[1..]));
    }
  }

  lemma OneControl(env: Env, s: Ws, c: Control)
    requires Calm(env) && !s.closed
    ensures Handle(env, s, Frame(true, c.op, c.key, c.data)) == (s.(log := s.log + ControlNow(env, c)), None)
  {
    FrameReadsBack(env, s, true, c.op, c.key, c.data);
    hide Mask, Opcode, Fin, Rsv, Frame, OnCloseFrame, Refuse;
    if c.op == PING && env.replyPing {
      assert s.log + [Sent(PONG, c.data)] + [OnMessage(PING, c.data)]
          == s.log + [Sent(PONG, c.data), OnMessage(PING, c.data)];
    } else if c.op == PONG && env.ignorePong {
      assert s.log + [] == s.log;
    }
  }

  /** One data frame while a message is open. */
  lemma OnePiece(env: Env, s: Ws, fin: bool, key: Key, data: seq<byte>)
    requires s.frag.Some?
    ensures var frag := s.frag.value.(data := s.frag.value.data + data);
            Handle(env, s, Frame(fin, CONTINUATION, key, data)) ==
              (if fin then WholeMessage(env, s.(frag := None), frag.op, frag.data, true)
                  else s.(frag := Some(frag)), None)
  {
    FrameReadsBack(env, s, fin, CONTINUATION, key, data);
    hide Mask, Opcode, Fin, Rsv, Frame, OnControl, Refuse, WholeMessage;
  }

  /** The further pieces of a message, with control frames between them. */
  lemma {:induction false} PiecesJoin(env: Env, s: Ws, ps: seq<Piece>)
    requires Calm(env) && !s.closed && s.frag.Some? && ps != []
    requires s.frag.value.op == TEXT ==> env.utf8(s.frag.value.data + PieceData(ps))
    ensures var frag := s.frag.value;
            Fold(Callback(env), s, PieceFrames(ps)) ==
              (s.(frag := None, log := s.log + PieceEvents(env, ps) + [OnMessage(frag.op, frag.data + PieceData(ps))]),
                  None)
    decreases |ps|
  {
    hide Handle, Frame, WholeMessage;
    var p, frag := ps[0], s.frag.value;
    var s1 := s.(log := s.log + ControlEvents(env, p.before));
    var f, later := Frame(|ps| == 1, CONTINUATION, p.key, p.data), PieceFrames(ps[1..]);
    ControlsPass(env, s, p.before);
    Assoc(ControlFrames(p.before), [f], later);
    FoldConcat(Callback(env), s, ControlFrames(p.before), [f] + later);
    OnePiece(env, s1, |ps| == 1, p.key, p.data);
    FoldFirst(Callback(env), s1, f, later);
    Assoc(frag.data, p.data, PieceData(ps[1..]));
    Assoc(s.log, ControlEvents(env, p.before), PieceEvents(env, ps[1..]));
    if |ps| == 1 {
      LastPiece(ps);
      assert PieceData(ps) == p.data + [] == p.data;
      MessageArrives(env, s1.(frag := None), frag.op, frag.data + p.data, true);
      assert ControlEvents(env, p.before) + [] == ControlEvents(env, p.before);
      NothingLeft(env, Handle(env, s1, f).0);
    } else {
      PiecesJoin(env, Handle(env, s1, f).0, ps[1..]);
    }
  }

  lemma LastPiece(ps: seq<Piece>)
    requires |ps| == 1
    ensures ps[1..] == [] && PieceFrames(ps[1..]) == [] && PieceData(ps[1..]) == []
  {
  }

  lemma NothingLeft(env: Env, s: Ws)
    ensures Fold(Callback(env), s, []) == (s, None) && PieceEvents(env, []) == []
  {
  }

  lemma MessageArrives(env: Env, s: Ws, op: nat, data: seq<byte>, pieces: bool)
    requires Calm(env) && !s.closed && (op == TEXT ==> env.utf8(data))
    ensures WholeMessage(env, s, op, data, pieces) == s.(log := s.log + [OnMessage(op, data)])
  {
  }

  lemma FirstFrame(env: Env, s: Ws, m: Message)
    requires s.frag.None?
    ensures Handle(env, s, Frame(m.more == [], m.op, m.key, m.first)) ==
              (if m.more == [] then WholeMessage(env, s, m.op, m.first, false)
                  else s.(frag := Some(Fragments(m.op, m.first))), None)
  {
    FrameReadsBack(env, s, m.more == [], m.op, m.key, m.first);
    hide Mask, Opcode, Fin, Rsv, Frame, OnControl, Refuse, WholeMessage;
  }

  lemma OneMessage(env: Env, s: Ws, m: Message)
    requires Calm(env) && !s.closed && s.frag.None? && (m.op == TEXT ==> env.utf8(Body(m)))
    ensures Fold(Callback(env), s, MessageFrames(m)) ==
              (s.(log := s.log + PieceEvents(env, m.more) + [OnMessage(m.op, Body(m))]), None)
  {
    hide Handle, Frame, WholeMessage;
    var f := Frame(m.more == [], m.op, m.key, m.first);
    FirstFrame(env, s, m);
    FoldFirst(Callback(env), s, f, PieceFrames(m.more));
    if m.more == [] {
      NothingLeft(env, Handle(env, s, f).0);
      MessageArrives(env, s, m.op, m.first, false);
      assert m.first + [] == m.first && s.log + [] == s.log;
    } else {
      PiecesJoin(env, Handle(env, s, f).0, m.more);
    }
  }

  /** Reassembly: whatever the masking, the fragmentation and the control frames in between,
      the application sees exactly the messages that were sent, whole and in order. */
  lemma {:induction false} MessagesReassemble(env: Env, s: Ws, ms: seq<Message>)
    requires Calm(env) && !s.closed && s.frag.None?
    requires forall k :: 0 <= k < |ms| && ms[k].op == TEXT ==> env.utf8(Body(ms[k]))
    ensures Fold(Callback(env), s, AllFrames(ms)) == (s.(log := s.log + Expected(env, ms)), None)
    decreases |ms|
  {
    hide Handle, MessageFrames, PieceEvents, Body;
    if ms == [] {
      assert s.log + [] == s.log;
    } else {
      var m := ms[0];
      OneMessage(env, s, m);
      var now := PieceEvents(env, m.more) + [OnMessage(m.op, Body(m))];
      Assoc(s.log, PieceEvents(env, m.more), [OnMessage(m.op, Body(m))]);
      var s' := s.(log := s.log + now);
      FoldConcat(Callback(env), s, MessageFrames(m), AllFrames(ms[1..]));
      MessagesReassemble(env, s', ms[1..]);
      Assoc(s.log, now, Expected(env, ms[1..]));
    }
  }

  // ---- from bytes to messages -----------------------------------------------------------------------------

  predicate Fits(max: int, fs: seq<WsFrame>) {
    forall k :: 0 <= k < |fs| ==> WsOk(max, fs[k])
  }

  lemma {:induction false} FittingFrames(max: int, fs: seq<WsFrame>)
    requires Fits(max, fs)
    ensures AllOk(WsOk, SameMax, max, fs)
    decreases |fs|
  {
    if fs != [] { FittingFrames(max, fs[1..]); }
  }

  /** The bytes of any messages, delivered in any pieces, give exactly those messages. */
  lemma BytesToMessages(env: Env, max: int, s: Ws, ms: seq<Message>, chunks: seq<seq<byte>>)
    requires Calm(env) && !s.closed && s.frag.None? && Fits(max, AllFrames(ms))
    requires forall k :: 0 <= k < |ms| && ms[k].op == TEXT ==> env.utf8(Body(ms[k]))
    requires Concat(chunks) == PrintAll(WsBytes, AllFrames(ms))
    ensures Lawful(CutWs)
    ensures Feed(CutWs, Callback(env), max, s, [], chunks) == Fed(max, s.(log := s.log + Expected(env, ms)), [], None)
  {
    hide *;
    CutWsLawful();
    CutUndoesWs();
    var fs := AllFrames(ms);
    FittingFrames(max, fs);
    MessagesReassemble(env, s, ms);
    SameMaxAll(max, fs);
    ParserUndoesPrinter(CutWs, Callback(env), WsBytes, WsOk, SameMax, max, s, fs);
    ChunkingDoesNotMatter(CutWs, Callback(env), max, s, [], chunks);
    var bytes := Concat(chunks);
    assert [] + bytes == bytes && bytes[|bytes|..] == [];
  }

  lemma {:induction false} SameMaxAll(max: int, fs: seq<WsFrame>)
    ensures NextAll(SameMax, max, fs) == max
    decreases |fs|
  {
    if fs != [] { SameMaxAll(max, fs[1..]); }
  }

  // ---- after a close frame --------------------------------------------------------------------------------

  /** A close frame ends the read loop exactly when it has a payload: behind an empty one the
      library keeps reading and delivering. */
  lemma CloseEndsReading(env: Env, s: Ws, key: Key, data: seq<byte>)
    requires |data| <= MAX_CONTROL
    ensures Handle(env, s, Frame(true, CLOSE, key, data)).1.Some? <==> data != []
  {
    FrameReadsBack(env, s, true, CLOSE, key, data);
    hide Mask, Opcode, Fin, Rsv, Frame, Reply, FromBE;
  }

  /** The input that shows it: a message behind an empty close frame is delivered, after
      OnClose was called. */
  lemma MessageAfterClose(env: Env, data: seq<byte>)
    requires Calm(env)
    ensures Fold(Callback(env), NewWs, [Frame(true, CLOSE, [], []), Frame(true, BINARY, [], data)]) ==
              (Ws(false, None, true, [Sent(CLOSE, CodeBytes(NORMAL_CLOSURE)), OnClose(PeerClosed),
                  OnMessage(BINARY, data)]), None)
  {
    var a, b := Frame(true, CLOSE, [], []), Frame(true, BINARY, [], data);
    FrameReadsBack(env, NewWs, true, CLOSE, [], []);
    var s1 := Handle(env, NewWs, a).0;
    assert s1 == Ws(false, None, true, [Sent(CLOSE, CodeBytes(NORMAL_CLOSURE)), OnClose(PeerClosed)]);
    FirstFrame(env, s1, Message(BINARY, [], data, []));
    MessageArrives(env, s1, BINARY, data, false);
    hide Handle, Frame, CodeBytes;
    assert [a, b] == [a] + [b] && [b] == [b] + [];
    FoldFirst(Callback(env), NewWs, a, [b]);
    FoldFirst(Callback(env), s1, b, []);
    NothingLeft(env, Handle(env, s1, b).0);
    assert s1.log + [OnMessage(BINARY, data)]
        == [Sent(CLOSE, CodeBytes(NORMAL_CLOSURE)), OnClose(PeerClosed), OnMessage(BINARY, data)];
    assert Fold(Callback(env), NewWs, [a] + [b]) == Fold(Callback(env), s1, [b] + []);
  }

  /** A text message that is not UTF-8 closes the connection without a Close frame. The
      application is told why exactly when the message came in more than one piece. */
  lemma BadTextIsReported(env: Env, s: Ws, key: Key, data: seq<byte>)
    requires !s.closed && !s.told
    requires s.frag.Some? ==> s.frag.value.op == TEXT
    requires !env.utf8((if s.frag.Some? then s.frag.value.data else []) + data)
    ensures var s' := Handle(env, s, Frame(true, if s.frag.Some? then CONTINUATION else TEXT, key, data)).0;
            && s'.closed && (OnClose(NotUtf8) in s'.log[|s.log|..] <==> s.frag.Some?)
            && |s'.log| == |s.log| + 1 && s'.log[|s.log|].OnClose?
  {
    var op := if s.frag.Some? then CONTINUATION else TEXT;
    FrameReadsBack(env, s, true, op, key, data);
    assert [] + data == data;
    hide Frame;
  }
}
