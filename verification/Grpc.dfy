/** gRPC message framing and call status (grpc/message.go, grpc/status.go). */
module Grpc {
  import opened ByteBuffer
  import opened Bytes
  import opened Framing

  // ---- messages ----------------------------------------------------------------

  type Msg = seq<byte>

  datatype Error = Compressed | MessageTooLarge(length: nat) | Callback(code: int)

  const MESSAGE_HEADER_LEN := 5
  const DEFAULT_MAX_MESSAGE_SIZE := 4 * 1024 * 1024

  /** One cut of MessageParser.Parse; `maxSize` as the 32-bit number the length is compared with. */
  function CutMsg(maxSize: nat, b: seq<byte>): Cut<nat, Msg, Error> {
    if |b| < MESSAGE_HEADER_LEN then More
    else
      var length := FromBE(b[1..5]);
      if b[0] != 0 then Fail(Compressed)
      else if length > maxSize then Fail(MessageTooLarge(length))
      else if |b| - MESSAGE_HEADER_LEN < length then More
      else Item(b[5..5 + length], 5 + length, maxSize)
  }

  lemma CutMsgLawful()
    ensures Lawful(CutMsg) && forall max: nat :: CutMsg(max, []).More?
  {
    hide FromBE;
    forall max: nat, a: seq<byte>, b: seq<byte> {:trigger CutMsg(max, a + b)} | !CutMsg(max, a).More?
      ensures CutMsg(max, a + b) == CutMsg(max, a)
    {
      assert (a + b)[1..5] == a[1..5];
      var length := FromBE(a[1..5]);
      if 5 + length <= |a| { assert (a + b)[5..5 + length] == a[5..5 + length]; }
    }
  }

  /** The five-byte header and the message; the length field has 32 bits. */
  function Encode(dst: seq<byte>, msg: Msg): seq<byte> {
    dst + [0] + ToBE(|msg|, 4) + msg
  }

  function MsgBytes(msg: Msg): seq<byte> {
    Encode([], msg)
  }

  method EncodeAll(dst: seq<byte>, msgs: seq<Msg>) returns (r: seq<byte>)
    ensures r == dst + PrintAll(MsgBytes, msgs)
  {
    r := dst;
    assert r + PrintAll(MsgBytes, msgs[0..]) == dst + PrintAll(MsgBytes, msgs) by { assert msgs[0..] == msgs; }
    for i := 0 to |msgs|
      invariant r + PrintAll(MsgBytes, msgs[i..]) == dst + PrintAll(MsgBytes, msgs)
    {
      assert msgs[i..][1..] == msgs[i + 1..];
      assert r + (MsgBytes(msgs[i]) + PrintAll(MsgBytes, msgs[i + 1..]))
          == Encode(r, msgs[i]) + PrintAll(MsgBytes, msgs[i + 1..]);
      r := Encode(r, msgs[i]);
    }
    assert msgs[|msgs|..] == [];
    assert r + [] == r;
  }

  predicate MsgOk(maxSize: nat, msg: Msg) {
    |msg| <= maxSize && |msg| < 0x1_0000_0000
  }

  function Keep(maxSize: nat, msg: Msg): nat { maxSize }

  lemma CutUndoesMsg()
    ensures Undoes(CutMsg, MsgBytes, MsgOk, Keep)
  {
    hide FromBE, ToBE;
    forall max: nat, msg: Msg, tail: seq<byte> {:trigger CutMsg(max, MsgBytes(msg) + tail)} | MsgOk(max, msg)
      ensures CutMsg(max, MsgBytes(msg) + tail) == Item(msg, |MsgBytes(msg)|, Keep(max, msg))
    {
      var b := MsgBytes(msg) + tail;
      assert b == [0] + ToBE(|msg|, 4) + (msg + tail);
      assert b[1..5] == ToBE(|msg|, 4);
      FromTo(|msg|, 4) by { Powers(); }
      assert b[5..5 + |msg|] == msg;
    }
  }

  /** The flag, four bytes of length and the message; whatever the flag and the length say. A
      compressed message and one beyond the limit are refused before their bytes are there. */
  lemma MessageOnTheWire(max: nat, flag: byte, a: byte, b: byte, c: byte, d: byte, rest: seq<byte>)
    ensures var len := 0x100_0000 * (a as int) + 0x1_0000 * (b as int) + 0x100 * (c as int) + d;
            CutMsg(max, [flag, a, b, c, d] + rest) ==
              if flag != 0 then Fail(Compressed)
              else if len > max then Fail(MessageTooLarge(len))
              else if |rest| < len then More
              else Item(rest[..len], 5 + len, max)
  {
    var w: seq<byte> := [flag, a, b, c, d] + rest;
    assert w[1..5] == [a, b, c, d] && w[5..] == rest;
    ReadBigEndian(a, b, c, d);
    hide FromBE;
    var len := 0x100_0000 * (a as int) + 0x1_0000 * (b as int) + 0x100 * (c as int) + d;
    if |rest| >= len { assert w[5..5 + len] == rest[..len]; }
  }

  lemma HeaderIncomplete(max: nat, b: seq<byte>)
    requires |b| < 5
    ensures CutMsg(max, b) == More
  {
  }

  /** A message that is sent is not compressed. */
  lemma MessageBytes(dst: seq<byte>, msg: Msg)
    requires |msg| < 0x1_0000_0000
    ensures var n := |msg|;
            Encode(dst, msg) == dst + [0, n / 0x100_0000, n / 0x1_0000 % 256, n / 0x100 % 256, n % 256] + msg
  {
    Within4(|msg|);
    hide ToBE;
    assert dst + [0] + ToBE(|msg|, 4) == dst + ([0] + ToBE(|msg|, 4));
  }

  class MessageParser {
    const maxSize: int
    const buf: Buffer

    constructor (maxSize: int)
      ensures this.maxSize == (if maxSize <= 0 then 4194304 else maxSize)
      ensures buf.Valid() && buf.Contents() == [] && fresh(buf) && fresh(buf.room)
    {
      this.maxSize := if maxSize <= 0 then DEFAULT_MAX_MESSAGE_SIZE else maxSize;
      buf := new Buffer();
    }

    /** The limit is converted to 32 bits before it is compared with a length. */
    function Limit(): nat {
      maxSize % 0x1_0000_0000
    }

    /** The loop over the bytes at hand. */
    static method ParseWork<H>(work: seq<byte>, fn: (H, Msg) -> (H, Option<Error>), h0: H, max: nat)
        returns (consumed: nat, h: H, err: Option<Error>)
      ensures Lawful(CutMsg)
      ensures var r := Run(CutMsg, fn, max, h0, work); h == r.h && err == r.error && consumed == r.consumed <= |work|
    {
      CutMsgLawful();
      hide *;
      h, err, consumed := h0, None, 0;
      var p := max;
      assert work[0..] == work;
      while true
        invariant consumed <= |work| && err.None?
        invariant var r := Run(CutMsg, fn, p, h, work[consumed..]);
                  Run(CutMsg, fn, max, h0, work) == r.(consumed := consumed + r.consumed)
        decreases |work| - consumed
      {
        Turn(CutMsg, fn, p, h, work, consumed);
        match CutMsg(p, work[consumed..])
        case More => break;
        case Fail(e) =>
          err := Some(e);
          break;
        case Item(i, size, p') =>
          var (h', e) := fn(h, i);
          h := h';
          if e.Some? {
            err := e;
            break;
          }
          consumed, p := consumed + size, p';
      }
    }

    /** Everything handed in counts as consumed: what is not a message yet is kept, and moved in
        place to the front of the buffer. */
    method Parse<H>(data: seq<byte>, fn: (H, Msg) -> (H, Option<Error>), h0: H)
        returns (n: nat, h: H, err: Option<Error>)
      requires buf.Valid()
      modifies buf, buf.room
      ensures buf.Valid() && (buf.room == old(buf.room) || fresh(buf.room))
      ensures Lawful(CutMsg) && n == |data|
      ensures var r := Run(CutMsg, fn, Limit(), h0, old(buf.Contents()) + data);
              h == r.h && err == r.error && buf.Contents() == (old(buf.Contents()) + data)[r.consumed..]
    {
      hide Lawful, CutMsg, Run;
      var work := buf.Take(data);
      var consumed;
      consumed, h, err := ParseWork(work, fn, h0, Limit());
      buf.Leave(work, consumed);
      n := |data|;
    }
  }

  /** However DATA payloads cut the byte stream, the same messages come out. */
  lemma MessageChunking<H>(max: nat, fn: (H, Msg) -> (H, Option<Error>), h: H, chunks: seq<seq<byte>>)
    ensures Lawful(CutMsg)
    ensures var r := Run(CutMsg, fn, max, h, Concat(chunks));
            Feed(CutMsg, fn, max, h, [], chunks) == Fed(r.p, r.h, Concat(chunks)[r.consumed..], r.error)
  {
    CutMsgLawful();
    hide Lawful, CutMsg;
    ChunkingDoesNotMatter(CutMsg, fn, max, h, [], chunks);
    assert [] + Concat(chunks) == Concat(chunks);
  }

  /** The parser undoes EncodeAll. */
  lemma MessagesRoundTrip<H>(max: nat, fn: (H, Msg) -> (H, Option<Error>), h: H, msgs: seq<Msg>)
    requires (forall m :: m in msgs ==> MsgOk(max, m)) && Fold(fn, h, msgs).1.None?
    ensures Lawful(CutMsg)
    ensures var r := Run(CutMsg, fn, max, h, PrintAll(MsgBytes, msgs));
            r.h == Fold(fn, h, msgs).0 && r.consumed == |PrintAll(MsgBytes, msgs)| && r.error.None?
  {
    CutMsgLawful();
    CutUndoesMsg();
    AllMsgsOk(max, msgs);
    hide Lawful, Undoes, CutMsg, MsgBytes;
    ParserUndoesPrinter(CutMsg, fn, MsgBytes, MsgOk, Keep, max, h, msgs);
  }

  lemma AllMsgsOk(max: nat, msgs: seq<Msg>)
    requires forall m :: m in msgs ==> MsgOk(max, m)
    ensures AllOk(MsgOk, Keep, max, msgs)
  {
    if msgs != [] { AllMsgsOk(max, msgs[1..]); }
  }

  // ---- percent encoding --------------------------------------------------------

  const PERCENT: byte := 0x25

  predicate Escaped(c: byte) {
    c < 0x20 || c > 0x7e || c == PERCENT
  }

  /** The digit for 0..15, upper case as in "0123456789ABCDEF". */
  function Hex(d: nat): (c: byte)
    requires d < 16
  {
    if d < 10 then 0x30 + d else 0x41 + d - 10
  }

  function Unhex(c: byte): (d: Option<nat>)
    ensures d.Some? ==> d.value < 16
  {
    if 0x30 <= c <= 0x39 then Some(c - 0x30)
    else if 0x61 <= c <= 0x66 then Some(c - 0x61 + 10)
    else if 0x41 <= c <= 0x46 then Some(c - 0x41 + 10)
    else None
  }

  function EscapeByte(c: byte): seq<byte> {
    if Escaped(c) then [PERCENT, Hex(c / 16), Hex(c % 16)] else [c]
  }

  function Escape(s: seq<byte>): seq<byte> {
    if s == [] then [] else EscapeByte(s[0]) + Escape(s[1..])
  }

  /** What percentDecode computes: a percent sign that two hex digits do not follow stays. */
  function Unescape(s: seq<byte>): seq<byte>
    decreases |s|
  {
    if s == [] then []
    else if s[0] != PERCENT || |s| < 3 || Unhex(s[1]).None? || Unhex(s[2]).None? then [s[0]] + Unescape(s[1..])
    else [Unhex(s[1]).value * 16 + Unhex(s[2]).value] + Unescape(s[3..])
  }

  method PercentEncode(s: seq<byte>) returns (r: seq<byte>)
    ensures r == Escape(s)
  {
    var need := false;
    for i := 0 to |s|
      invariant !need && forall k :: 0 <= k < i ==> !Escaped(s[k])
    {
      if Escaped(s[i]) {
        need := true;
        break;
      }
    }
    if !need {
      PlainEscape(s);
      return s;
    }
    var out: seq<byte> := [];
    hide Escape, Hex;
    assert s[0..] == s;
    for i := 0 to |s|
      invariant Escape(s) == out + Escape(s[i..])
    {
      EscapeStep(s, i);
      var c := s[i];
      var piece: seq<byte> := [c];
      if Escaped(c) {
        piece := [PERCENT, Hex(c / 16), Hex(c % 16)];
      }
      Assoc(out, piece, Escape(s[i + 1..]));
      out := out + piece;
    }
    EscapeStep(s, |s|);
    return out + [];
  }

  lemma EscapeStep(s: seq<byte>, i: nat)
    requires i <= |s|
    ensures Escape(s[i..]) == if i == |s| then [] else EscapeByte(s[i]) + Escape(s[i + 1..])
  {
    if i < |s| { assert s[i..][1..] == s[i + 1..]; }
  }

  lemma UnescapeStep(s: seq<byte>, i: nat)
    requires i <= |s|
    ensures Unescape(s[i..]) ==
              if i == |s| then []
              else if s[i] != PERCENT || i + 2 >= |s| || Unhex(s[i + 1]).None? || Unhex(s[i + 2]).None?
                  then [s[i]] + Unescape(s[i + 1..])
              else [Unhex(s[i + 1]).value * 16 + Unhex(s[i + 2]).value] + Unescape(s[i + 3..])
  {
    hide Unhex;
    if i < |s| {
      assert s[i..][1..] == s[i + 1..];
      if i + 2 < |s| { assert s[i..][3..] == s[i + 3..]; }
    }
  }

  lemma {:induction false} PlainEscape(s: seq<byte>)
    requires forall k :: 0 <= k < |s| ==> !Escaped(s[k])
    ensures Escape(s) == s
  {
    if s != [] { PlainEscape(s[1..]); }
  }

  lemma {:induction false} PlainUnescape(s: seq<byte>)
    requires forall k :: 0 <= k < |s| ==> s[k] != PERCENT
    ensures Unescape(s) == s
  {
    if s != [] { PlainUnescape(s[1..]); }
  }

  method PercentDecode(s: seq<byte>) returns (r: seq<byte>)
    ensures r == Unescape(s)
  {
    var hasPercent := false;
    for i := 0 to |s|
      invariant !hasPercent && forall k :: 0 <= k < i ==> s[k] != PERCENT
    {
      if s[i] == PERCENT {
        hasPercent := true;
        break;
      }
    }
    if !hasPercent {
      PlainUnescape(s);
      return s;
    }
    var out: seq<byte> := [];
    var i := 0;
    hide Unescape, Unhex;
    assert s[0..] == s;
    while i < |s|
      invariant i <= |s| && Unescape(s) == out + Unescape(s[i..])
    {
      UnescapeStep(s, i);
      var piece, width := [s[i]], 1;
      if s[i] == PERCENT && i + 2 < |s| {
        var hi, lo := Unhex(s[i + 1]), Unhex(s[i + 2]);
        if hi.Some? && lo.Some? {
          piece, width := [hi.value * 16 + lo.value], 3;
        }
      }
      Assoc(out, piece, Unescape(s[i + width..]));
      out, i := out + piece, i + width;
    }
    UnescapeStep(s, |s|);
    return out + [];
  }

  /** Percent decoding undoes percent encoding on every byte string. */
  lemma {:induction false} UnescapeUndoesEscape(s: seq<byte>)
    ensures Unescape(Escape(s)) == s
  {
    if s != [] {
      UnescapeUndoesEscape(s[1..]);
      var e, c := Escape(s), s[0];
      if Escaped(c) {
        assert e[3..] == Escape(s[1..]);
        assert Unhex(Hex(c / 16)) == Some(c / 16) && Unhex(Hex(c % 16)) == Some(c % 16);
      } else {
        assert e[1..] == Escape(s[1..]);
      }
    }
  }

  /** The encoded value is printable ASCII: bytes 0x20 to 0x7e only. */
  lemma {:induction false} EscapeIsPrintable(s: seq<byte>)
    ensures forall k :: 0 <= k < |Escape(s)| ==> 0x20 <= Escape(s)[k] <= 0x7e
  {
    if s != [] {
      EscapeIsPrintable(s[1..]);
      var c := s[0];
      forall k | 0 <= k < |Escape(s)| ensures 0x20 <= Escape(s)[k] <= 0x7e {
        if k >= |EscapeByte(c)| { assert Escape(s)[k] == Escape(s[1..])[k - |EscapeByte(c)|]; }
      }
    }
  }

  // ---- status ---------------------------------------------------------------------

  type Text = seq<byte>

  datatype HeaderField = HeaderField(name: Text, value: Text)

  datatype Status = Status(code: nat, message: Text)

  const OK: nat := 0
  const UNKNOWN: nat := 2

  function Ascii(s: string): Text {
    if s == "" then [] else [(s[0] as int) % 256] + Ascii(s[1..])
  }

  /** "grpc-status" and "grpc-message". */
  const HEADER_STATUS: Text := [103, 114, 112, 99, 45, 115, 116, 97, 116, 117, 115]
  const HEADER_MESSAGE: Text := [103, 114, 112, 99, 45, 109, 101, 115, 115, 97, 103, 101]

  /** strconv.FormatUint(n, 10). */
  function Decimal(n: nat): (s: Text)
    ensures |s| >= 1
  {
    if n < 10 then [0x30 + n] else Decimal(n / 10) + [0x30 + n % 10]
  }

  predicate Digits(s: Text) {
    s != [] && forall k :: 0 <= k < |s| ==> 0x30 <= s[k] <= 0x39
  }

  function Number(s: Text): nat
    requires forall k :: 0 <= k < |s| ==> 0x30 <= s[k] <= 0x39
  {
    if s == [] then 0 else 10 * Number(s[..|s| - 1]) + (s[|s| - 1] - 0x30)
  }

  /** strconv.ParseUint(s, 10, 32): digits only, and the value fits 32 bits. */
  function ParseUint32(s: Text): Option<nat> {
    if Digits(s) && Number(s) < 0x1_0000_0000 then Some(Number(s)) else None
  }

  lemma {:induction false} NumberOfDecimal(n: nat)
    ensures Digits(Decimal(n)) && Number(Decimal(n)) == n
  {
    if n >= 10 {
      NumberOfDecimal(n / 10);
      var s := Decimal(n);
      assert s[..|s| - 1] == Decimal(n / 10);
    } else {
      assert Decimal(n)[..0] == [];
    }
  }

  /** The status after one more header field; `false` when parsing stops there. */
  function OneField(s: Status, h: HeaderField): (Status, bool) {
    if h.name == HEADER_STATUS then
      var n := ParseUint32(h.value);
      if n.None? then (Status(UNKNOWN, Ascii("malformed grpc-status: ") + h.value), false)
          else (Status(n.value, []), true)
    else if h.name == HEADER_MESSAGE then (s.(message := Unescape(h.value)), true)
    else (s, true)
  }

  function AfterFields(s: Status, hs: seq<HeaderField>): Status
    decreases |hs|
  {
    if hs == [] then s
    else
      var (s', more) := OneField(s, hs[0]);
      if more then AfterFields(s', hs[1..]) else s'
  }

  const MISSING: Status := Status(UNKNOWN, Ascii("missing grpc-status in trailer"))

  method StatusFromHeaders(headers: seq<HeaderField>) returns (s: Status)
    ensures s == AfterFields(MISSING, headers)
  {
    s := MISSING;
    assert headers[0..] == headers;
    for i := 0 to |headers|
      invariant AfterFields(MISSING, headers) == AfterFields(s, headers[i..])
    {
      assert headers[i..][1..] == headers[i + 1..];
      var h := headers[i];
      if h.name == HEADER_STATUS {
        var n := ParseUint32(h.value);
        if n.None? {
          s := Status(UNKNOWN, Ascii("malformed grpc-status: ") + h.value);
          return;
        }
        s := Status(n.value, []);
      } else if h.name == HEADER_MESSAGE {
        var m := PercentDecode(h.value);
        s := s.(message := m);
      }
    }
    assert headers[|headers|..] == [];
  }

  /** The trailer fields of a status; a missing one is OK without a message. */
  function StatusFields(s: Option<Status>): seq<HeaderField> {
    var code := if s.Some? then s.value.code else OK;
    [HeaderField(HEADER_STATUS, Decimal(code))]
    + (if s.Some? && s.value.message != [] then [HeaderField(HEADER_MESSAGE, Escape(s.value.message))] else [])
  }

  method AppendStatus(dst: seq<HeaderField>, s: Option<Status>) returns (r: seq<HeaderField>)
    ensures r == dst + StatusFields(s)
  {
    var code := OK;
    if s.Some? {
      code := s.value.code;
    }
    r := dst + [HeaderField(HEADER_STATUS, Decimal(code))];
    if s.Some? && s.value.message != [] {
      var m := PercentEncode(s.value.message);
      r := r + [HeaderField(HEADER_MESSAGE, m)];
    }
  }

  /** StatusFromHeaders undoes AppendStatus for every 32-bit code and every message,
      behind any fields of other names. */
  lemma {:induction false} StatusRoundTrip(s0: Status, dst: seq<HeaderField>, s: Option<Status>)
    requires s.Some? ==> s.value.code < 0x1_0000_0000
    requires forall h :: h in dst ==> h.name != HEADER_STATUS && h.name != HEADER_MESSAGE
    ensures AfterFields(s0, dst + StatusFields(s)) == (if s.Some? then s.value else Status(OK, []))
    decreases |dst|
  {
    hide Decimal, Number, Digits;
    if dst == [] {
      var code := if s.Some? then s.value.code else OK;
      NumberOfDecimal(code);
      assert ParseUint32(Decimal(code)) == Some(code) by { NumberOfDecimal(code); }
      assert HEADER_STATUS != HEADER_MESSAGE by { assert HEADER_STATUS[5] != HEADER_MESSAGE[5]; }
      var fs := StatusFields(s);
      assert dst + fs == fs;
      assert OneField(s0, fs[0]) == (Status(code, []), true);
      assert AfterFields(s0, fs) == AfterFields(Status(code, []), fs[1..]);
      if s.Some? && s.value.message != [] {
        UnescapeUndoesEscape(s.value.message);
        var last := HeaderField(HEADER_MESSAGE, Escape(s.value.message));
        assert fs[1..] == [last] && [last][1..] == [];
        assert OneField(Status(code, []), last) == (s.value, true);
        assert AfterFields(s.value, []) == s.value;
        assert AfterFields(Status(code, []), [last]) == AfterFields(s.value, [last][1..]);
      } else {
        assert fs[1..] == [];
      }
    } else {
      assert (dst + StatusFields(s))[1..] == dst[1..] + StatusFields(s);
      StatusRoundTrip(s0, dst[1..], s);
    }
  }

  // ---- what a list of fields says ------------------------------------------------------

  predicate Named(h: HeaderField, name: string) {
    |h.name| == |name| && forall k :: 0 <= k < |name| ==> h.name[k] == name[k] as int
  }

  predicate IsStatus(h: HeaderField) { Named(h, "grpc-status") }

  predicate IsMessage(h: HeaderField) { Named(h, "grpc-message") }

  /** Digits only, at least one, and a value that 32 bits hold. */
  predicate IsCode(s: Text) {
    s != [] && (forall k :: 0 <= k < |s| ==> 48 <= s[k] <= 57) && Number(s) < 0x1_0000_0000
  }

  lemma FieldNames(h: HeaderField)
    ensures h.name == HEADER_STATUS <==> IsStatus(h)
    ensures h.name == HEADER_MESSAGE <==> IsMessage(h)
    ensures !(IsStatus(h) && IsMessage(h))
  {
    var a, b := "grpc-status", "grpc-message";
    assert |HEADER_STATUS| == |a| && forall k :: 0 <= k < |a| ==> HEADER_STATUS[k] == a[k] as int;
    assert |HEADER_MESSAGE| == |b| && forall k :: 0 <= k < |b| ==> HEADER_MESSAGE[k] == b[k] as int;
  }

  lemma OneFieldMeans(s: Status, h: HeaderField)
    ensures IsStatus(h) && IsCode(h.value) ==> OneField(s, h) == (Status(Number(h.value), []), true)
    ensures IsStatus(h) && !IsCode(h.value) ==>
              OneField(s, h) == (Status(2, Ascii("malformed grpc-status: ") + h.value), false)
    ensures IsMessage(h) ==> OneField(s, h) == (Status(s.code, Unescape(h.value)), true)
    ensures !IsStatus(h) && !IsMessage(h) ==> OneField(s, h) == (s, true)
  {
    FieldNames(h);
    hide Unescape, Number, Ascii, Named;
  }

  /** The last message that the fields hold, `text` when they hold none. */
  function LastMessage(text: Text, hs: seq<HeaderField>): Text
    decreases |hs|
  {
    if hs == [] then text else LastMessage(if IsMessage(hs[0]) then Unescape(hs[0].value) else text, hs[1..])
  }

  /** Fields among which there is no status leave the code as it is. */
  lemma {:induction false} NoStatus(s: Status, hs: seq<HeaderField>)
    requires forall h :: h in hs ==> !IsStatus(h)
    ensures AfterFields(s, hs) == Status(s.code, LastMessage(s.message, hs))
    decreases |hs|
  {
    hide Unescape, Named;
    if hs != [] {
      OneFieldMeans(s, hs[0]);
      NoStatus(OneField(s, hs[0]).0, hs[1..]);
    }
  }

  /** A list without a grpc-status field has code 2, "unknown". */
  lemma StatusMissing(hs: seq<HeaderField>)
    requires forall h :: h in hs ==> !IsStatus(h)
    ensures AfterFields(MISSING, hs) == Status(2, LastMessage(Ascii("missing grpc-status in trailer"), hs))
  {
    NoStatus(MISSING, hs);
    hide AfterFields, LastMessage, Ascii;
  }

  /** Good fields are gone through. */
  lemma {:induction false} GoesOn(s: Status, front: seq<HeaderField>, more: seq<HeaderField>)
    requires forall h :: h in front && IsStatus(h) ==> IsCode(h.value)
    ensures AfterFields(s, front + more) == AfterFields(AfterFields(s, front), more)
    decreases |front|
  {
    hide OneField, IsCode, Named;
    if front == [] {
      assert front + more == more;
    } else {
      OneFieldMeans(s, front[0]);
      assert (front + more)[1..] == front[1..] + more;
      GoesOn(OneField(s, front[0]).0, front[1..], more);
    }
  }

  /** At the first grpc-status that is no 32-bit decimal, the code is 2 and reading stops. */
  lemma StatusMalformed(front: seq<HeaderField>, bad: HeaderField, more: seq<HeaderField>)
    requires (forall h :: h in front && IsStatus(h) ==> IsCode(h.value)) && IsStatus(bad) && !IsCode(bad.value)
    ensures AfterFields(MISSING, front + ([bad] + more)) ==
              Status(2, Ascii("malformed grpc-status: ") + bad.value)
  {
    GoesOn(MISSING, front, [bad] + more);
    var s := AfterFields(MISSING, front);
    OneFieldMeans(s, bad);
    hide OneField, IsCode, Named, Ascii;
    assert ([bad] + more)[0] == bad;
  }

  /** Otherwise the last grpc-status gives the code, and the message is the last behind it. */
  lemma StatusLast(front: seq<HeaderField>, last: HeaderField, more: seq<HeaderField>)
    requires (forall h :: h in front && IsStatus(h) ==> IsCode(h.value)) && IsStatus(last) && IsCode(last.value)
    requires forall h :: h in more ==> !IsStatus(h)
    ensures AfterFields(MISSING, front + ([last] + more)) == Status(Number(last.value), LastMessage([], more))
  {
    GoesOn(MISSING, front, [last] + more);
    var s := AfterFields(MISSING, front);
    OneFieldMeans(s, last);
    NoStatus(Status(Number(last.value), []), more);
    hide OneField, IsCode, Named, Number, LastMessage;
    assert ([last] + more)[0] == last && ([last] + more)[1..] == more;
  }

  /** The value of a hex digit of either case. */
  predicate HexValue(c: byte, d: nat) {
    (c == 48 + d && d < 10) || (c == 65 + d - 10 && 10 <= d < 16) || (c == 97 + d - 10 && 10 <= d < 16)
  }

  /** Percent encoding byte by byte: printable ASCII but the percent sign stays; any other byte
      becomes a percent sign and two hex digits, upper case. */
  lemma EscapeMeans(c: byte, h: byte, l: byte, s: seq<byte>)
    requires HexValue(h, c / 16) && HexValue(l, c % 16) && h < 97 && l < 97
    ensures Escape([c] + s) == (if 32 <= c <= 126 && c != 37 then [c] else [37, h, l]) + Escape(s)
  {
    assert ([c] + s)[1..] == s;
  }

  /** Two hex digits behind a percent sign make a byte. */
  lemma UnescapePair(h: byte, l: byte, hi: nat, lo: nat, s: seq<byte>)
    requires HexValue(h, hi) && HexValue(l, lo)
    ensures Unescape([37, h, l] + s) == [16 * hi + lo] + Unescape(s)
  {
    var t: seq<byte> := [37, h, l] + s;
    assert t[3..] == s;
  }

  /** Every other byte stays, a percent sign that no two hex digits follow among them. */
  lemma UnescapeOther(c: byte, s: seq<byte>)
    requires c == 37 && |s| >= 2 ==> !((exists d: nat :: HexValue(s[0], d)) && (exists d: nat :: HexValue(s[1], d)))
    ensures Unescape([c] + s) == [c] + Unescape(s)
  {
    var t: seq<byte> := [c] + s;
    assert t[1..] == s;
    if c == 37 && |s| >= 2 {
      assert t[1] == s[0] && t[2] == s[1];
      UnhexMeans(s[0]);
      UnhexMeans(s[1]);
    }
  }

  lemma UnhexMeans(c: byte)
    ensures Unhex(c).Some? ==> HexValue(c, Unhex(c).value)
  {
  }
}
