/** HTTP/2 frames: the parser and the printers (http2/frame.go). */
module Http2Frame {
  import opened Bytes
  import opened Framing

  const FRAME_HEADER_LEN := 9
  const DEFAULT_MAX_FRAME_SIZE := 0x4000
  const MAX_FRAME_SIZE := 0xff_ffff

  const DATA: byte := 0x0
  const HEADERS: byte := 0x1
  const PRIORITY: byte := 0x2
  const RST_STREAM: byte := 0x3
  const SETTINGS: byte := 0x4
  const PUSH_PROMISE: byte := 0x5
  const PING: byte := 0x6
  const GOAWAY: byte := 0x7
  const WINDOW_UPDATE: byte := 0x8
  const CONTINUATION: byte := 0x9

  const PROTOCOL_ERROR := 0x1
  const FLOW_CONTROL_ERROR := 0x3
  const STREAM_CLOSED := 0x5
  const FRAME_SIZE_ERROR := 0x6
  const COMPRESSION_ERROR := 0x9

  datatype Frame = Frame(ftype: byte, flags: byte, id: nat, payload: seq<byte>)

  /** What ends a parse. Malformed stands for the errors without a code of their own. */
  datatype Error =
    | FrameTooLarge(length: nat, max: nat)
    | ConnError(code: nat)
    | StreamError(id: nat, code: nat)
    | Malformed
    | FlowControl

  /** Flag masks have one bit; `bit` is its value. */
  predicate Flag(flags: byte, bit: nat)
    requires bit > 0
  {
    flags / bit % 2 == 1
  }

  const END_STREAM := 0x1
  const ACK := 0x1
  const END_HEADERS := 0x4
  const PADDED := 0x8
  const PRIORITY_FLAG := 0x20

  /** The parser fields a decision depends on. */
  datatype Parser = Parser(max: nat, lastId: nat, lastType: byte, haveLast: bool, awaiting: bool)

  const NewParser := Parser(DEFAULT_MAX_FRAME_SIZE, 0, DATA, false, false)

  /** checkContinuation: a header block is not interrupted, and nothing continues without one. */
  function CheckContinuation(p: Parser, f: Frame): Option<Error> {
    if p.awaiting then
      if f.ftype != CONTINUATION || f.id != p.lastId then Some(ConnError(PROTOCOL_ERROR)) else None
    else if f.ftype != CONTINUATION then None
    else if !p.haveLast then Some(ConnError(PROTOCOL_ERROR))
    else if p.lastType != HEADERS && p.lastType != CONTINUATION && p.lastType != PUSH_PROMISE
        then Some(ConnError(PROTOCOL_ERROR))
    else if f.id != p.lastId then Some(ConnError(PROTOCOL_ERROR))
    else None
  }

  /** checkFrameShape: stream number and length that fit the type. */
  predicate GoodShape(f: Frame) {
    var n := |f.payload|;
    if f.ftype == DATA || f.ftype == HEADERS || f.ftype == CONTINUATION || f.ftype == PUSH_PROMISE then f.id != 0
    else if f.ftype == PRIORITY then f.id != 0 && n == 5
    else if f.ftype == RST_STREAM then f.id != 0 && n == 4
    else if f.ftype == SETTINGS then f.id == 0 && (if Flag(f.flags, ACK) then n == 0 else n % 6 == 0)
    else if f.ftype == PING then f.id == 0 && n == 8
    else if f.ftype == GOAWAY then f.id == 0 && n >= 8
    else if f.ftype == WINDOW_UPDATE then n == 4
    else true
  }

  function CheckShape(f: Frame): Option<Error> {
    if GoodShape(f) then None else Some(ConnError(FRAME_SIZE_ERROR))
  }

  predicate Unfinished(f: Frame) {
    (f.ftype == HEADERS || f.ftype == PUSH_PROMISE || f.ftype == CONTINUATION) && !Flag(f.flags, END_HEADERS)
  }

  /** The parser after a frame the callback accepted. */
  function After(p: Parser, f: Frame): Parser {
    Parser(p.max, f.id, f.ftype, true, Unfinished(f))
  }

  /** The frame at the front of `b`, if its nine-byte header and payload are there; the top
      bit of the stream number is dropped. */
  function FrameAt(b: seq<byte>): Frame
    requires |b| >= FRAME_HEADER_LEN && |b| >= FRAME_HEADER_LEN + FromBE(b[..3])
  {
    Frame(b[3], b[4], FromBE(b[5..9]) % 0x8000_0000, b[9..9 + FromBE(b[..3])])
  }

  function CutFrame(p: Parser, b: seq<byte>): Cut<Parser, Frame, Error> {
    if |b| < FRAME_HEADER_LEN then More
    else
      var length := FromBE(b[..3]);
      if length > p.max then Fail(FrameTooLarge(length, p.max))
      else if |b| < FRAME_HEADER_LEN + length then More
      else
        var f := FrameAt(b);
        var e := CheckContinuation(p, f);
        if e.Some? then Fail(e.value)
        else if CheckShape(f).Some? then Fail(CheckShape(f).value)
        else Item(f, FRAME_HEADER_LEN + length, After(p, f))
  }

  lemma CutFrameLawful()
    ensures Lawful(CutFrame) && forall p: Parser :: CutFrame(p, []).More?
  {
    hide FromBE, CheckContinuation, GoodShape, After;
    forall p: Parser, a: seq<byte>, b: seq<byte> {:trigger CutFrame(p, a + b)} | !CutFrame(p, a).More?
      ensures CutFrame(p, a + b) == CutFrame(p, a)
    {
      assert (a + b)[..3] == a[..3] && (a + b)[5..9] == a[5..9];
      var length := FromBE(a[..3]);
      if 9 + length <= |a| { assert (a + b)[9..9 + length] == a[9..9 + length]; }
    }
  }

  // ---- printers ---------------------------------------------------------------------

  function AppendFrameHeader(dst: seq<byte>, ftype: byte, flags: byte, id: nat, length: nat): seq<byte> {
    dst + ToBE(length, 3) + [ftype, flags] + ToBE(id, 4)
  }

  function FrameBytes(f: Frame): seq<byte> {
    AppendFrameHeader([], f.ftype, f.flags, f.id, |f.payload|) + f.payload
  }

  /** A frame the parser in state `p` takes: numbers that fit their fields, a length within
      the limit, the right shape, at a place where it may come. */
  predicate FrameOk(p: Parser, f: Frame) {
    f.id < 0x8000_0000 && |f.payload| <= p.max && |f.payload| <= MAX_FRAME_SIZE && GoodShape(f)
        && CheckContinuation(p, f).None?
  }

  lemma FrameRead(f: Frame, tail: seq<byte>)
    requires f.id < 0x8000_0000 && |f.payload| <= MAX_FRAME_SIZE
    ensures var b := FrameBytes(f) + tail;
            && |b| >= |FrameBytes(f)| == 9 + |f.payload| && FromBE(b[..3]) == |f.payload|
            && FrameAt(b) == f && b[|FrameBytes(f)|..] == tail
  {
    hide FromBE, ToBE;
    var b := FrameBytes(f) + tail;
    assert b == ToBE(|f.payload|, 3) + [f.ftype, f.flags] + ToBE(f.id, 4) + (f.payload + tail);
    assert b[..3] == ToBE(|f.payload|, 3) && b[5..9] == ToBE(f.id, 4);
    Powers();
    FromTo(|f.payload|, 3);
    FromTo(f.id, 4);
    assert b[9..9 + |f.payload|] == f.payload;
  }

  lemma CutUndoesFrame()
    ensures Undoes(CutFrame, FrameBytes, FrameOk, After)
  {
    hide FromBE, ToBE, FrameBytes, FrameAt, CheckContinuation, GoodShape, After;
    forall p: Parser, f: Frame, tail: seq<byte> {:trigger CutFrame(p, FrameBytes(f) + tail)} | FrameOk(p, f)
      ensures CutFrame(p, FrameBytes(f) + tail) == Item(f, |FrameBytes(f)|, After(p, f))
    {
      FrameRead(f, tail);
    }
  }

  function Bits(b: bool, flag: byte): byte {
    if b then flag else 0
  }

  function HeadersFlags(endStream: bool, endHeaders: bool): byte {
    Bits(endStream, 1) + Bits(endHeaders, 4)
  }

  function AppendHeaders(dst: seq<byte>, id: nat, block: seq<byte>, endStream: bool, endHeaders: bool): seq<byte> {
    AppendFrameHeader(dst, HEADERS, HeadersFlags(endStream, endHeaders), id, |block|) + block
  }

  function AppendData(dst: seq<byte>, id: nat, data: seq<byte>, endStream: bool): seq<byte> {
    AppendFrameHeader(dst, DATA, Bits(endStream, 1), id, |data|) + data
  }

  function AppendWindowUpdate(dst: seq<byte>, id: nat, inc: nat): seq<byte> {
    AppendFrameHeader(dst, WINDOW_UPDATE, 0, id, 4) + ToBE(inc, 4)
  }

  function AppendRSTStream(dst: seq<byte>, id: nat, code: nat): seq<byte> {
    AppendFrameHeader(dst, RST_STREAM, 0, id, 4) + ToBE(code, 4)
  }

  function AppendPing(dst: seq<byte>, data: seq<byte>, ack: bool): seq<byte> {
    AppendFrameHeader(dst, PING, Bits(ack, 1), 0, 8) + data
  }

  function AppendGoAway(dst: seq<byte>, lastId: nat, code: nat, debug: seq<byte>): seq<byte> {
    AppendFrameHeader(dst, GOAWAY, 0, 0, 8 + |debug|) + ToBE(lastId, 4) + ToBE(code, 4) + debug
  }

  function AppendSettingsAck(dst: seq<byte>): seq<byte> {
    AppendFrameHeader(dst, SETTINGS, 1, 0, 0)
  }

  datatype Setting = Setting(id: nat, value: nat)

  function SettingsPayload(ss: seq<Setting>): (s: seq<byte>)
    ensures |s| == 6 * |ss|
  {
    if ss == [] then [] else SettingsPayload(ss[..|ss| - 1]) + ToBE(ss[|ss| - 1].id, 2) + ToBE(ss[|ss| - 1].value, 4)
  }

  method AppendSettings(dst: seq<byte>, ss: seq<Setting>) returns (r: seq<byte>)
    ensures r == dst + FrameBytes(Frame(SETTINGS, 0, 0, SettingsPayload(ss)))
  {
    var payload := [];
    for i := 0 to |ss|
      invariant payload == SettingsPayload(ss[..i])
    {
      assert ss[..i + 1][..i] == ss[..i];
      payload := payload + ToBE(ss[i].id, 2) + ToBE(ss[i].value, 4);
    }
    assert ss[..|ss|] == ss;
    r := AppendFrameHeader(dst, SETTINGS, 0, 0, |payload|) + payload;
  }

  /** The loop of onSettings (http2/conn.go:344-347): six bytes a setting. */
  function ReadSettings(b: seq<byte>): (ss: seq<Setting>)
    ensures |ss| == |b| / 6
    decreases |b|
  {
    if |b| < 6 then [] else [Setting(FromBE(b[..2]), FromBE(b[2..6]))] + ReadSettings(b[6..])
  }

  /** A received SETTINGS frame says what AppendSettings was given, in order. */
  lemma {:induction false} SettingsRoundTrip(ss: seq<Setting>, tail: seq<byte>)
    requires forall s :: s in ss ==> s.id < 0x1_0000 && s.value < 0x1_0000_0000
    ensures ReadSettings(SettingsPayload(ss) + tail) == ss + ReadSettings(tail)
    decreases |ss|
  {
    hide FromBE, ToBE, ReadSettings;
    if ss == [] {
      assert SettingsPayload(ss) + tail == tail;
    } else {
      var init, s := ss[..|ss| - 1], ss[|ss| - 1];
      var one := ToBE(s.id, 2) + ToBE(s.value, 4);
      assert SettingsPayload(ss) + tail == SettingsPayload(init) + (one + tail);
      SettingsRoundTrip(init, one + tail);
      OneSetting(s, tail);
      assert ss + ReadSettings(tail) == init + ([s] + ReadSettings(tail));
    }
  }

  lemma OneSetting(s: Setting, tail: seq<byte>)
    requires s.id < 0x1_0000 && s.value < 0x1_0000_0000
    ensures ReadSettings(ToBE(s.id, 2) + ToBE(s.value, 4) + tail) == [s] + ReadSettings(tail)
  {
    hide FromBE, ToBE;
    var b := ToBE(s.id, 2) + ToBE(s.value, 4) + tail;
    assert b[..2] == ToBE(s.id, 2) && b[2..6] == ToBE(s.value, 4) && b[6..] == tail;
    Powers();
    FromTo(s.id, 2);
    FromTo(s.value, 4);
  }

  /** What the printers of single frames are given. */
  datatype Printed =
    | PData(id: nat, data: seq<byte>, end: bool)
    | PHeaders(id: nat, block: seq<byte>, endStream: bool, endHeaders: bool)
    | PUpdate(id: nat, inc: nat)
    | PReset(id: nat, code: nat)
    | PPing(opaqueData: seq<byte>, ack: bool)
    | PGoAway(lastId: nat, code: nat, debug: seq<byte>)
    | PSettingsAck

  function Print(dst: seq<byte>, x: Printed): seq<byte> {
    match x
    case PData(id, data, end) => AppendData(dst, id, data, end)
    case PHeaders(id, block, endStream, endHeaders) => AppendHeaders(dst, id, block, endStream, endHeaders)
    case PUpdate(id, inc) => AppendWindowUpdate(dst, id, inc)
    case PReset(id, code) => AppendRSTStream(dst, id, code)
    case PPing(data, ack) => AppendPing(dst, data, ack)
    case PGoAway(lastId, code, debug) => AppendGoAway(dst, lastId, code, debug)
    case PSettingsAck => AppendSettingsAck(dst)
  }

  /** What each field has room for. */
  predicate Fields(x: Printed) {
    match x
    case PData(id, data, _) => 0 < id < 0x8000_0000 && |data| <= MAX_FRAME_SIZE
    case PHeaders(id, block, _, _) => 0 < id < 0x8000_0000 && |block| <= MAX_FRAME_SIZE
    case PUpdate(id, inc) => id < 0x8000_0000 && inc < 0x1_0000_0000
    case PReset(id, code) => 0 < id < 0x8000_0000 && code < 0x1_0000_0000
    case PPing(data, _) => |data| == 8
    case PGoAway(lastId, code, debug) => lastId < 0x1_0000_0000 && code < 0x1_0000_0000 && |debug| <= MAX_FRAME_SIZE - 8
    case PSettingsAck => true
  }

  /** What a receiver reads in a frame that has neither padding nor priority. */
  function Meaning(f: Frame): (r: Option<Printed>)
    requires GoodShape(f)
  {
    if f.ftype == DATA then Some(PData(f.id, f.payload, Flag(f.flags, END_STREAM)))
    else if f.ftype == HEADERS
        then Some(PHeaders(f.id, f.payload, Flag(f.flags, END_STREAM), Flag(f.flags, END_HEADERS)))
    else if f.ftype == WINDOW_UPDATE then Some(PUpdate(f.id, FromBE(f.payload)))
    else if f.ftype == RST_STREAM then Some(PReset(f.id, FromBE(f.payload)))
    else if f.ftype == PING then Some(PPing(f.payload, Flag(f.flags, ACK)))
    else if f.ftype == GOAWAY then Some(PGoAway(FromBE(f.payload[..4]), FromBE(f.payload[4..8]), f.payload[8..]))
    else if f.ftype == SETTINGS && Flag(f.flags, ACK) then Some(PSettingsAck)
    else None
  }

  /** The frame a printer writes. */
  function FrameOf(x: Printed): Frame {
    match x
    case PData(id, data, end) => Frame(DATA, Bits(end, 1), id, data)
    case PHeaders(id, block, endStream, endHeaders) => Frame(HEADERS, HeadersFlags(endStream, endHeaders), id, block)
    case PUpdate(id, inc) => Frame(WINDOW_UPDATE, 0, id, ToBE(inc, 4))
    case PReset(id, code) => Frame(RST_STREAM, 0, id, ToBE(code, 4))
    case PPing(data, ack) => Frame(PING, Bits(ack, 1), 0, data)
    case PGoAway(lastId, code, debug) => Frame(GOAWAY, 0, 0, ToBE(lastId, 4) + ToBE(code, 4) + debug)
    case PSettingsAck => Frame(SETTINGS, 1, 0, [])
  }

  lemma PrintsFrame(dst: seq<byte>, x: Printed)
    requires Fields(x)
    ensures Print(dst, x) == dst + FrameBytes(FrameOf(x)) && GoodShape(FrameOf(x))
    ensures FrameOf(x).id < 0x8000_0000 && |FrameOf(x).payload| <= MAX_FRAME_SIZE
  {
    hide ToBE;
  }

  lemma SaysWhatWasPrinted(x: Printed)
    requires Fields(x) && GoodShape(FrameOf(x))
    ensures Meaning(FrameOf(x)) == Some(x)
  {
    hide FromBE, ToBE;
    Powers();
    match x {
      case PUpdate(id, inc) => FromTo(inc, 4);
      case PReset(id, code) => FromTo(code, 4);
      case PGoAway(lastId, code, debug) =>
        FromTo(lastId, 4);
        FromTo(code, 4);
        var b := ToBE(lastId, 4) + ToBE(code, 4) + debug;
        assert b[..4] == ToBE(lastId, 4) && b[4..8] == ToBE(code, 4) && b[8..] == debug;
      case _ =>
    }
  }

  /** Every printer of a single frame is undone by the parser: behind whatever was there, it
      writes one frame that the parser takes where it may come, whatever follows, and in which
      the receiver reads all that the printer was given. */
  lemma PrintersRoundTrip(p: Parser, dst: seq<byte>, x: Printed, tail: seq<byte>)
    requires Fields(x) && |FrameOf(x).payload| <= p.max && CheckContinuation(p, FrameOf(x)).None?
    ensures |Print(dst, x)| >= |dst| && Print(dst, x)[..|dst|] == dst
    ensures GoodShape(FrameOf(x)) && Meaning(FrameOf(x)) == Some(x)
    ensures var b := Print(dst, x)[|dst|..];
            CutFrame(p, b + tail) == Item(FrameOf(x), |b|, After(p, FrameOf(x)))
  {
    hide Print, FrameOf, Fields, CheckContinuation, GoodShape, Meaning, CutFrame, FrameBytes, After;
    PrintsFrame(dst, x);
    SaysWhatWasPrinted(x);
    CutUndoesFrame();
    assert Print(dst, x)[|dst|..] == FrameBytes(FrameOf(x));
    assert FrameOk(p, FrameOf(x));
  }

  lemma HeadersIsFrame(dst: seq<byte>, id: nat, block: seq<byte>, endStream: bool, endHeaders: bool)
    requires 0 < id
    ensures var f := Frame(HEADERS, HeadersFlags(endStream, endHeaders), id, block);
            && AppendHeaders(dst, id, block, endStream, endHeaders) == dst + FrameBytes(f) && GoodShape(f)
            && Flag(f.flags, END_STREAM) == endStream && Flag(f.flags, END_HEADERS) == endHeaders
            && !Flag(f.flags, PADDED) && !Flag(f.flags, PRIORITY_FLAG)
  {
    hide ToBE;
  }

  // ---- the parser ---------------------------------------------------------------------

  class FrameParser {
    var p: Parser

    /** The limit is one that the 24-bit length field can exceed or meet, and never 0. */
    predicate Valid()
      reads this
    {
      0 < p.max <= MAX_FRAME_SIZE
    }

    constructor ()
      ensures p == NewParser && Valid()
    {
      p := NewParser;
    }

    /** Whatever is asked for, the limit stays in its range and the state of the continuation
        check as it is; a limit in the range is the one that holds from now on. */
    method SetMaxFrameSize(n: nat)
      requires Valid()
      modifies this
      ensures Valid() && p == old(p).(max := p.max)
      ensures p.max == if 0 < n <= MAX_FRAME_SIZE then n else old(p.max)
    {
      if n == 0 || n > MAX_FRAME_SIZE {
        return;
      }
      p := p.(max := n);
    }

    /** Bytes that make no frame stay with the caller; the fields move only after the
        callback accepted the frame. */
    method Parse<H>(buf: seq<byte>, fn: (H, Frame) -> (H, Option<Error>), h0: H)
      returns (consumed: nat, h: H, err: Option<Error>)
      modifies this
      ensures p.max == old(p.max)
      ensures Lawful(CutFrame) && Outcome(p, h, consumed, err) == Run(CutFrame, fn, old(p), h0, buf)
    {
      CutFrameLawful();
      hide *;
      h, err, consumed := h0, None, 0;
      assert buf[0..] == buf;
      while true
        invariant consumed <= |buf| && err.None? && p.max == old(p.max)
        invariant var r := Run(CutFrame, fn, p, h, buf[consumed..]);
                  Run(CutFrame, fn, old(p), h0, buf) == r.(consumed := consumed + r.consumed)
        decreases |buf| - consumed
      {
        Turn(CutFrame, fn, p, h, buf, consumed);
        SameLimit(p, buf[consumed..]);
        match CutFrame(p, buf[consumed..])
        case More => break;
        case Fail(e) =>
          err := Some(e);
          break;
        case Item(f, size, p') =>
          var (h', e) := fn(h, f);
          h := h';
          if e.Some? {
            err := e;
            break;
          }
          consumed, p := consumed + size, p';
      }
    }
  }

  lemma SameLimit(p: Parser, b: seq<byte>)
    ensures CutFrame(p, b).Item? ==> CutFrame(p, b).next.max == p.max
  {
    hide FromBE, CheckContinuation, GoodShape;
  }

  /** The caller keeps the rest and feeds it again in front of the next bytes: however the
      bytes arrive, the same frames are delivered, with the same first error. */
  lemma FrameChunking<H>(p: Parser, fn: (H, Frame) -> (H, Option<Error>), h: H, chunks: seq<seq<byte>>)
    ensures Lawful(CutFrame)
    ensures var r := Run(CutFrame, fn, p, h, Concat(chunks));
            Feed(CutFrame, fn, p, h, [], chunks) == Fed(r.p, r.h, Concat(chunks)[r.consumed..], r.error)
  {
    CutFrameLawful();
    hide *;
    ChunkingDoesNotMatter(CutFrame, fn, p, h, [], chunks);
    assert [] + Concat(chunks) == Concat(chunks);
  }

  /** The parser undoes the printers on any list of frames that may follow one another. */
  lemma FramesRoundTrip<H>(p: Parser, fn: (H, Frame) -> (H, Option<Error>), h: H, frames: seq<Frame>)
    requires AllOk(FrameOk, After, p, frames) && Fold(fn, h, frames).1.None?
    ensures Lawful(CutFrame)
    ensures Run(CutFrame, fn, p, h, PrintAll(FrameBytes, frames)) ==
              Outcome(NextAll(After, p, frames), Fold(fn, h, frames).0, |PrintAll(FrameBytes, frames)|, None)
  {
    CutFrameLawful();
    CutUndoesFrame();
    hide *;
    ParserUndoesPrinter(CutFrame, fn, FrameBytes, FrameOk, After, p, h, frames);
  }

  /** While a header block is open, whatever frame comes next is either its continuation or
      an error: nothing is delivered in between. */
  lemma HeaderBlocksAreNotInterrupted(p: Parser, b: seq<byte>)
    requires p.awaiting && CutFrame(p, b).Item?
    ensures CutFrame(p, b).item.ftype == CONTINUATION && CutFrame(p, b).item.id == p.lastId
  {
  }
}
