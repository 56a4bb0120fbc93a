/** The read side of a WebSocket connection: a three-state parser over a buffer that moves,
    grows and is released (websocket/conn_core.go, websocket/conn_unix.go). */
module WsRead {
  import opened Bytes
  import opened Framing
  import opened Socket
  import opened WsFrame

  /** At least the longest frame header, which has 14 bytes. */
  const MAX_FRAME_HEADER := 14
  const BATCH_READ_BUFFER := 16 * 1024

  // ---- the flat decoder as a meaning ------------------------------------------------------

  datatype Settled = Settled(s: Ws, rest: seq<byte>, error: Option<Error>)

  /** What handling all whole frames of `buf` comes to. */
  ghost function Settle(env: Env, max: int, s: Ws, buf: seq<byte>): Settled {
    CutWsLawful();
    var r := Run(CutWs, Callback(env), max, s, buf);
    Settled(r.h, buf[r.consumed..], r.error)
  }

  /** Being in `s` with `y` to parse is as good as being in `s0` with `x`, whatever comes. */
  ghost predicate Same(env: Env, max: int, s0: Ws, x: seq<byte>, s: Ws, y: seq<byte>) {
    forall b: seq<byte> :: Settle(env, max, s0, x + b) == Settle(env, max, s, y + b)
  }

  lemma SettleCases(env: Env, max: int, s: Ws, y: seq<byte>)
    ensures match CutWs(max, y)
            case More => Settle(env, max, s, y) == Settled(s, y, None)
            case Fail(e) => Settle(env, max, s, y) == Settled(s, y, Some(e))
            case Item(f, n, _) =>
              var (s', e) := Handle(env, s, f);
              && 0 < n <= |y|
              && Settle(env, max, s, y) == if e.Some? then Settled(s', y, e) else Settle(env, max, s', y[n..])
  {
    CutWsLawful();
    NextMax(max, y);
    hide CutWs, Handle, Lawful, Run;
    FirstTurn(env, max, s, y);
    if CutWs(max, y).Item? {
      var n, s' := CutWs(max, y).size, Handle(env, s, CutWs(max, y).item).0;
      var r := Run(CutWs, Callback(env), max, s', y[n..]);
      assert y[n + r.consumed..] == y[n..][r.consumed..];
    }
  }

  lemma FirstTurn(env: Env, max: int, s: Ws, y: seq<byte>)
    requires Lawful(CutWs)
    ensures var r, cut := Run(CutWs, Callback(env), max, s, y), CutWs(max, y);
            if cut.More? then r == Outcome(max, s, 0, None)
            else if cut.Fail? then r == Outcome(max, s, 0, Some(cut.error))
            else
              var n, (s', e) := cut.size, Handle(env, s, cut.item);
              && 0 < n <= |y|
              && if e.Some? then r == Outcome(max, s', 0, e)
                 else
                   var r' := Run(CutWs, Callback(env), cut.next, s', y[n..]);
                   r == r'.(consumed := n + r'.consumed)
  {
    assert y[0..] == y;
    hide CutWs, Handle, Lawful, Run;
    Turn(CutWs, Callback(env), max, s, y, 0);
  }

  lemma NextMax(max: int, y: seq<byte>)
    ensures CutWs(max, y).Item? ==> CutWs(max, y).next == max
  {
  }

  lemma ItemSame(env: Env, max: int, s: Ws, y: seq<byte>)
    requires CutWs(max, y).Item? && Handle(env, s, CutWs(max, y).item).1.None?
    ensures CutWs(max, y).size <= |y|
    ensures Same(env, max, s, y, Handle(env, s, CutWs(max, y).item).0, y[CutWs(max, y).size..])
  {
    CutWsLawful();
    hide CutWs, Handle, Lawful, Settle;
    Decided(CutWs, max, y, []);
    var n, s' := CutWs(max, y).size, Handle(env, s, CutWs(max, y).item).0;
    forall b: seq<byte> ensures Settle(env, max, s, y + b) == Settle(env, max, s', y[n..] + b) {
      Decided(CutWs, max, y, b);
      SettleCases(env, max, s, y + b);
      assert (y + b)[n..] == y[n..] + b;
    }
  }

  lemma SameSelf(env: Env, max: int, s: Ws, y: seq<byte>)
    ensures Same(env, max, s, y, s, y)
  {
  }

  lemma SameThen(env: Env, max: int, s0: Ws, x: seq<byte>, s1: Ws, y: seq<byte>, s2: Ws, z: seq<byte>)
    requires Same(env, max, s0, x, s1, y) && Same(env, max, s1, y, s2, z)
    ensures Same(env, max, s0, x, s2, z)
  {
    hide Settle;
    forall b: seq<byte> ensures Settle(env, max, s0, x + b) == Settle(env, max, s2, z + b) {
      assert Settle(env, max, s0, x + b) == Settle(env, max, s1, y + b);
    }
  }

  lemma SameMore(env: Env, max: int, s0: Ws, x: seq<byte>, s: Ws, y: seq<byte>, c: seq<byte>)
    requires Same(env, max, s0, x, s, y)
    ensures Same(env, max, s0, x + c, s, y + c)
  {
    hide Settle;
    forall b: seq<byte> ensures Settle(env, max, s0, x + c + b) == Settle(env, max, s, y + c + b) {
      Assoc(x, c, b);
      Assoc(y, c, b);
      assert Settle(env, max, s0, x + (c + b)) == Settle(env, max, s, y + (c + b));
    }
  }

  lemma SameNow(env: Env, max: int, s0: Ws, x: seq<byte>, s: Ws, y: seq<byte>)
    requires Same(env, max, s0, x, s, y)
    ensures Settle(env, max, s0, x) == Settle(env, max, s, y)
  {
    hide Settle;
    assert x + [] == x && y + [] == y;
    assert Settle(env, max, s0, x + []) == Settle(env, max, s, y + []);
  }

  // ---- the connection ---------------------------------------------------------------------------

  datatype State = HeaderStart | LenAndMask | Payload

  /** The header fields as far as they are known. */
  datatype Header = Header(head: byte, masked: bool, payloadLen: nat, key: Key)

  datatype Turned = Again | Done | Broken | Refused

  function FourBytes(b: seq<byte>, at: nat): Key
    requires at + 4 <= |b|
  {
    b[at..at + 4]
  }

  /** The error that a turn means for the loop. */
  function Verdict(next: Turned, err: Option<Error>): Option<Error> {
    match next
    case Refused => err
    case Broken => Some(ReadFailed)
    case _ => None
  }

  /** The header fields say what the passed bytes say. */
  ghost predicate HeaderSays(
      max: int, state: State, passed: seq<byte>, lenAndMaskSize: nat, rh: Header)
  {
    match state
    case HeaderStart => passed == []
    case LenAndMask =>
      && |passed| == 2 && rh.head == passed[0] && rh.masked == (passed[1] >= 0x80)
      && rh.payloadLen == passed[1] % 0x80 && lenAndMaskSize == ExtSize(passed[1])
    case Payload =>
      && |passed| >= 2 && |passed| == 2 + ExtSize(passed[1]) && rh.head == passed[0] && rh.key == KeyOf(passed)
      && rh.payloadLen == PayloadLen(passed) && LengthError(max, rh.payloadLen).None?
  }

  /** When the payload is copied out of the buffer: always but for a whole message in one frame on
      a connection that may lend its buffer to the callback. */
  predicate Copies(zeroCopy: bool, head: byte, s: Ws) {
    !zeroCopy || head % 0x80 >= 0x40 || !Fin(head) || s.frag.Some?
  }

  /** How parsing goes on while a buffer of batch size or more is full: frame by frame, until bytes
      are moved to its front, which makes room. A frame that is copied out moves the rest, and so
      does a header that begins in the last bytes; `inside` says that one has begun before. */
  ghost function WhileFull(env: Env, zeroCopy: bool, max: int, s: Ws, y: seq<byte>, inside: bool): Settled
    decreases |y|
  {
    CutWsLawful();
    Decided(CutWs, max, y, []);
    match CutWs(max, y)
    case More => Settled(s, y, None)
    case Fail(e) => Settled(s, y, Some(e))
    case Item(f, n, _) =>
      var (s', e) := Handle(env, s, f);
      if e.Some? then Settled(s', y, e)
      else if Copies(zeroCopy, f.head, s) || (!inside && |y| < MAX_FRAME_HEADER) then Settled(s', y[n..], None)
      else WhileFull(env, zeroCopy, max, s', y[n..], false)
  }

  /** A script behind the interruptions at its front. */
  function Uninterrupted(script: seq<KRead>): seq<KRead> {
    if script != [] && script[0].Interrupted? then Uninterrupted(script[1..]) else script
  }

  function FirstData(script: seq<KRead>): seq<byte> {
    var u := Uninterrupted(script);
    if u != [] && u[0].Data? then u[0].bytes else []
  }

  /** How many bytes the first reads of some events find. */
  function AllFirst(scripts: seq<seq<KRead>>): nat {
    if scripts == [] then 0 else AllFirst(scripts[..|scripts| - 1]) + |FirstData(scripts[|scripts| - 1])|
  }

  lemma AllFirstSteps(scripts: seq<seq<KRead>>, i: nat)
    requires i <= |scripts|
    ensures AllFirst(scripts[..i]) == if i == 0 then 0 else AllFirst(scripts[..i - 1]) + |FirstData(scripts[i - 1])|
  {
    if i > 0 { assert scripts[..i][..i - 1] == scripts[..i - 1]; }
  }

  /** The first read finds at least as much as there is room for. */
  predicate FirstFills(script: seq<KRead>, room: int) {
    var u := Uninterrupted(script);
    u != [] && u[0].Data? && |u[0].bytes| >= room
  }

  /** The first read finds the end or a failure of the socket. */
  predicate EndsAtOnce(script: seq<KRead>) {
    var u := Uninterrupted(script);
    u != [] && (u[0].Eof? || u[0].Failed?)
  }

  /** How far `bytes`, and behind them `rest`, have come with the first data of `todo`: all of them
      are there, or the others are next. */
  predicate Comes(todo: seq<KRead>, bytes: seq<byte>, rest: seq<KRead>) {
    FirstData(todo) <= bytes || bytes + FirstData(rest) == FirstData(todo)
  }

  lemma ComesOn(script: seq<KRead>, got: seq<byte>, todo: seq<KRead>, bytes: seq<byte>, rest: seq<KRead>)
    requires Comes(script, got, todo) && Comes(todo, bytes, rest)
    ensures Comes(script, got + bytes, rest)
    ensures FirstData(todo) <= bytes ==> FirstData(script) <= got + bytes
  {
    hide FirstData;
    if !(FirstData(script) <= got) {
      if FirstData(todo) <= bytes {
        assert got + FirstData(todo) <= got + bytes;
      } else {
        Assoc(got, bytes, FirstData(rest));
      }
    }
  }

  /** One read of at most `want` bytes. */
  lemma ReadComes(todo: seq<KRead>, want: nat)
    ensures todo != [] && todo[0].Data? && want < |todo[0].bytes| ==>
              Comes(todo, todo[0].bytes[..want], Taken(todo, want))
    ensures todo != [] && todo[0].Data? ==> FirstData(todo) == todo[0].bytes
    ensures todo != [] && todo[0].Interrupted? ==> Comes(todo, [], todo[1..])
    ensures todo == [] || (!todo[0].Data? && !todo[0].Interrupted?) ==> FirstData(todo) == []
    ensures Comes(todo, [], todo)
  {
    if todo != [] && todo[0].Data? && want < |todo[0].bytes| {
      var bs := todo[0].bytes;
      assert bs == bs[..want] + bs[want..];
      assert FirstData(Taken(todo, want)) == bs[want..];
    }
    assert [] + FirstData(todo) == FirstData(todo);
    if todo != [] && todo[0].Interrupted? { assert [] + FirstData(todo[1..]) == FirstData(todo); }
  }

  /** The first read finds data, and the second one the end. */
  predicate OneReadThenEnd(script: seq<KRead>) {
    var u := Uninterrupted(script);
    u != [] && u[0].Data? && EndsAtOnce(u[1..])
  }

  /** A full buffer of batch size or more is parsed as the flat decoder would go on, and what is
      whole at its front is handled in any case. */
  lemma {:induction false} FullIsHandled(env: Env, zeroCopy: bool, max: int, s: Ws, y: seq<byte>, inside: bool)
    ensures var t, cut := WhileFull(env, zeroCopy, max, s, y, inside), CutWs(max, y);
            && (t.error.None? ==> Same(env, max, s, y, t.s, t.rest))
            && (t.error.Some? ==> Settle(env, max, s, y).s == t.s && Settle(env, max, s, y).error == t.error)
            && |t.rest| <= |y|
            && (cut.Item? && Handle(env, s, cut.item).1.None? ==> cut.size > 0 && |t.rest| <= |y| - cut.size)
    decreases |y|
  {
    SettleCases(env, max, s, y);
    SameSelf(env, max, s, y);
    hide CutWs, Handle, Settle, Same;
    var cut := CutWs(max, y);
    if cut.Item? {
      var (s', e) := Handle(env, s, cut.item);
      if e.None? {
        ItemSame(env, max, s, y);
        FullIsHandled(env, zeroCopy, max, s', y[cut.size..], false);
        var t := WhileFull(env, zeroCopy, max, s', y[cut.size..], false);
        if t.error.None? { SameThen(env, max, s, y, s', y[cut.size..], t.s, t.rest); }
      }
    }
  }

  class ReadSide {
    const env: Env
    const max: int
    const multiple: real
    const zeroCopy: bool
    var rbuf: array?<byte>
    var rr: nat
    var rw: nat
    var state: State
    var lenAndMaskSize: nat
    var rh: Header
    var s: Ws
    /** The bytes of the current frame's header that rr has passed. */
    ghost var passed: seq<byte>

    ghost predicate Buffered()
      reads this
    {
      if rbuf == null then rr == rw == 0 else rr <= rw <= rbuf.Length && MAX_FRAME_HEADER <= rbuf.Length
    }

    ghost function Unread(): seq<byte>
      requires Buffered()
      reads this, rbuf
    {
      if rbuf == null then [] else rbuf[rr..rw]
    }

    /** What has arrived and is not part of a handled frame. */
    ghost function Pending(): seq<byte>
      requires Buffered()
      reads this, rbuf
    {
      passed + Unread()
    }

    ghost predicate Parsed()
      reads this
    {
      HeaderSays(max, state, passed, lenAndMaskSize, rh)
    }

    /** In the middle of a header there is always room for the rest of it. */
    ghost predicate Shaped()
      reads this
    {
      && multiple >= 1.0 && Buffered() && Parsed()
      && (rbuf != null && state == LenAndMask ==> rbuf.Length - rr >= lenAndMaskSize)
    }

    ghost predicate Valid()
      reads this
    {
      Shaped() && (state == LenAndMask ==> lenAndMaskSize > 0)
    }

    /** Between calls: nothing whole is left to handle, and there is room to read into. */
    ghost predicate Idle()
      reads this, rbuf
    {
      Valid() && CutWs(max, Pending()).More? && (rbuf != null ==> rw < rbuf.Length)
    }

    constructor (env: Env, max: int, multiple: real, zeroCopy: bool)
      requires multiple >= 1.0
      ensures Idle() && Pending() == [] && rbuf == null && s == NewWs
      ensures this.env == env && this.max == max
    {
      this.env, this.max, this.multiple, this.zeroCopy := env, max, multiple, zeroCopy;
      rbuf, rr, rw, state := null, 0, 0, HeaderStart;
      lenAndMaskSize, rh := 0, Header(0, false, 0, []);
      s, passed := NewWs, [];
    }

    /** leftMove: the unread bytes go to the front, over those already read. */
    method LeftMove()
      requires rbuf != null && Buffered()
      modifies this`rr, this`rw, rbuf
      ensures Buffered() && Unread() == old(Unread())
      ensures rr == 0 && rw == old(rw) - old(rr)
    {
      if rr == 0 {
        return;
      }
      ghost var was := rbuf[..];
      var buf, from, n := rbuf, rr, rw - rr;
      for i := 0 to n
        invariant rr == from && rw == from + n && rbuf == buf
        invariant forall k :: 0 <= k < i ==> buf[k] == was[from + k]
        invariant forall k :: i <= k < buf.Length ==> buf[k] == was[k]
      {
        buf[i] := buf[from + i];
      }
      assert buf[0..n] == was[from..from + n];
      rw := n;
      rr := 0;
    }

    /** A larger buffer with the bytes rbuf[from..rw] at its front. */
    method Replace(size: nat, from: nat)
      requires rbuf != null && Buffered() && from <= rr && size >= rw - from && size >= MAX_FRAME_HEADER
      modifies this`rbuf, this`rr, this`rw
      ensures fresh(rbuf) && rbuf != null && Buffered() && rbuf.Length >= size
      ensures Unread() == old(Unread()) && rr == old(rr) - from && rw == old(rw) - from
    {
      var nb := GetBytes(size);
      var n := rw - from;
      forall i | 0 <= i < n {
        nb[i] := rbuf[from + i];
      }
      assert nb[rr - from..n] == rbuf[rr..rw];
      rbuf := nb;
      rr := rr - from;
      rw := n;
    }

    method GrowReadBuffer()
      requires rbuf != null && Buffered() && rw <= BATCH_READ_BUFFER
      modifies this`rbuf, this`rr, this`rw
      ensures fresh(rbuf) && rbuf != null && Buffered() && rbuf.Length >= 16384
      ensures Unread() == old(Unread()) && rr == old(rr) && rw == old(rw)
    {
      Replace(BATCH_READ_BUFFER, 0);
    }

    /** readBufferSize; the product is taken in real numbers. */
    method ReadBufferSize() returns (n: nat)
      requires multiple >= 1.0
      ensures n == (rh.payloadLen as real * multiple).Floor + 14 >= rh.payloadLen + MAX_FRAME_HEADER
    {
      Product(rh.payloadLen, multiple);
      n := (rh.payloadLen as real * multiple).Floor + MAX_FRAME_HEADER;
    }

    /** Moves the unread bytes to the front when a header might not fit behind them. */
    method RoomForHeader()
      requires Valid() && rbuf != null && state == HeaderStart
      modifies this`rr, this`rw, rbuf
      ensures Valid() && Unread() == old(Unread()) && rw - rr == old(rw - rr)
      ensures rbuf.Length - rr >= MAX_FRAME_HEADER
      ensures rr == if rbuf.Length - old(rr) < MAX_FRAME_HEADER then 0 else old(rr)
    {
      if rbuf.Length - rr < MAX_FRAME_HEADER {
        LeftMove();
      }
    }

    /** The first half of readHeader: two bytes, of which the second says how many follow. */
    method ReadFirstTwo() returns (done: bool)
      requires Valid() && rbuf != null && state == HeaderStart && rbuf.Length - rr >= MAX_FRAME_HEADER
      modifies this`rr, this`state, this`lenAndMaskSize, this`rh, this`passed
      ensures Shaped() && Pending() == old(Pending()) && rw - rr <= old(rw - rr)
      ensures done ==> state == LenAndMask && rw - rr == old(rw - rr) - 2 && rr > 0
      ensures !done ==> state == HeaderStart && rw - rr < 2 && passed == []
    {
      hide HeaderSays, ExtSize;
      StartSays(max, passed, lenAndMaskSize, rh);
      if rw - rr < 2 {
        return false;
      }
      TwoOff(rbuf[..], rr, rw);
      var b0, b1 := rbuf[rr], rbuf[rr + 1];
      Sizes(b1);
      var have := 0;
      if b1 >= 0x80 {
        have := have + 4;
      }
      var len := b1 % 0x80;
      if len == 126 {
        have := have + 2;
      } else if len == 127 {
        have := have + 8;
      }
      TwoSay(max, b0, b1, rh.key);
      rh := rh.(head := b0, masked := b1 >= 0x80, payloadLen := len);
      state, lenAndMaskSize, rr, passed := LenAndMask, have, rr + 2, [b0, b1];
      return true;
    }

    /** The second half, when all header bytes are there. */
    method ReadLenAndMask() returns (err: Option<Error>)
      requires Shaped() && rbuf != null && state == LenAndMask && rw - rr >= lenAndMaskSize
      modifies this`rr, this`state, this`rh, this`passed
      ensures Buffered() && Pending() == old(Pending()) && rr >= old(rr)
      ensures err.Some? ==> CutWs(max, Pending()) == Fail(err.value)
      ensures err.None? ==> state == Payload && Valid() && rr == old(rr) + lenAndMaskSize
    {
      hide HeaderSays, CutWs, FromBE, LengthError;
      ghost var later := rbuf[rr + lenAndMaskSize..rw];
      var bytes := rbuf[rr..rr + lenAndMaskSize];
      assert Unread() == bytes + later;
      WholeSays(max, passed, lenAndMaskSize, rh, bytes, later);
      var lenSize := lenAndMaskSize - (if rh.masked then 4 else 0);
      var len := rh.payloadLen;
      if rh.payloadLen == 126 {
        len := FromBE(bytes[..2]);
      } else if rh.payloadLen == 127 {
        len := FromBE(bytes[..8]);
      }
      err := LengthError(max, len);
      if err.Some? {
        return;
      }
      var key: Key := [];
      if rh.masked {
        key := FourBytes(bytes, lenSize);
      }
      rh := rh.(payloadLen := len, key := key);
      state, rr, passed := Payload, rr + lenAndMaskSize, passed + bytes;
    }

    method ReadHeader() returns (success: bool, err: Option<Error>)
      requires Valid() && rbuf != null
      modifies this`rr, this`rw, this`state, this`lenAndMaskSize, this`rh, this`passed, rbuf
      ensures Buffered() && Pending() == old(Pending())
      ensures err.Some? ==> CutWs(max, Pending()) == Fail(err.value)
      ensures err.None? ==> Valid() && success == (state == Payload) && (!success ==> CutWs(max, Pending()).More?)
      ensures old(state) == Payload ==>
                unchanged(this`rr) && unchanged(this`rw) && unchanged(this`state) && unchanged(this`rh)
      ensures rw - rr <= old(rw - rr)
      ensures err.None? && old(state) != Payload && old(rw) == rbuf.Length ==>
                rw < rbuf.Length || rw - rr < old(rw - rr)
      ensures err.None? && !success ==> rw < rbuf.Length
      ensures success && old(rw) == rbuf.Length ==>
                && (rw == rbuf.Length <==> old(state) != HeaderStart || old(rw - rr) >= MAX_FRAME_HEADER)
                && (old(state) != Payload ==> rr > 0)
    {
      hide HeaderSays, CutWs, LengthError, ExtSize;
      err := None;
      if state == HeaderStart {
        RoomForHeader();
        var done := ReadFirstTwo();
        if !done {
          assert Pending() == Unread();
          ShortHeader(max, Pending());
          return false, None;
        }
      }
      if state == LenAndMask {
        HeaderSoFar(max, passed, Unread(), lenAndMaskSize, rh);
        if rw - rr < lenAndMaskSize {
          return false, None;
        }
        err := ReadLenAndMask();
        return err.None?, err;
      }
      return true, None;
    }

    /** Makes room for what is missing of the payload: a larger buffer, or a move. */
    method RoomForPayload()
      requires Valid() && rbuf != null && state == Payload
      modifies this`rbuf, this`rr, this`rw, rbuf
      ensures rbuf == old(rbuf) || fresh(rbuf)
      ensures rbuf != null && Valid() && Unread() == old(Unread()) && rw - rr == old(rw - rr)
      ensures rh.payloadLen - (rw - rr) <= rbuf.Length - rw
      ensures old(rw < rbuf.Length) ==> rw < rbuf.Length
      ensures old(rh.payloadLen <= rw - rr) ==> rbuf == old(rbuf) && rw == old(rw) && rr == old(rr)
    {
      hide HeaderSays;
      var unhandled := rw - rr;
      if rh.payloadLen - unhandled > rbuf.Length - rw + rr {
        var size := ReadBufferSize();
        Replace(size, rr);
      } else if rh.payloadLen - unhandled > rbuf.Length - rw {
        LeftMove();
      }
    }

    /** Takes the payload out of the buffer. Without a copy it is a part of the buffer, so
        nothing moves under it. */
    method TakePayload(needCopy: bool) returns (raw: seq<byte>)
      requires rbuf != null && Buffered() && rh.payloadLen <= rw - rr
      modifies this`rr, this`rw, rbuf
      ensures Buffered() && rh.payloadLen <= |old(Unread())| && rw - rr == old(rw - rr) - rh.payloadLen && rw <= old(rw)
      ensures old(rw) == rbuf.Length && old(rr) + rh.payloadLen > 0 ==> (rw == rbuf.Length <==> !needCopy)
      ensures raw == old(Unread())[..rh.payloadLen] && Unread() == old(Unread())[rh.payloadLen..]
    {
      ghost var later := rbuf[rr + rh.payloadLen..rw];
      raw := rbuf[rr..rr + rh.payloadLen];
      assert raw == Unread()[..rh.payloadLen] && later == Unread()[rh.payloadLen..];
      rr := rr + rh.payloadLen;
      if needCopy && rbuf.Length - rw < MAX_FRAME_HEADER {
        LeftMove();
      }
    }

    /** readPayload: `None` while the payload is incomplete. */
    method ReadPayload(needCopy: bool) returns (f: Option<WsFrame>)
      requires Valid() && rbuf != null && state == Payload
      modifies this`rbuf, this`rr, this`rw, this`passed, rbuf
      ensures rbuf == old(rbuf) || fresh(rbuf)
      ensures rbuf != null && Buffered() && multiple >= 1.0
      ensures f.None? ==>
                && Valid() && Pending() == old(Pending()) && CutWs(max, Pending()).More? && 0 < rh.payloadLen
                && rw < rbuf.Length
      ensures f.Some? ==> |Unread()| <= |old(Pending())| && passed == []
                          && CutWs(max, old(Pending())) == Item(f.value, |old(Pending())| - |Unread()|, max)
                          && Unread() == old(Pending())[|old(Pending())| - |Unread()|..]
      ensures rw - rr == old(rw - rr) - (if f.Some? then rh.payloadLen else 0)
      ensures old(rw < rbuf.Length) ==> rw < rbuf.Length
      ensures f.Some? ==> f.value.head == rh.head && rbuf == old(rbuf)
      ensures f.Some? && old(rw == rbuf.Length) && old(rr) + rh.payloadLen > 0 ==> (rw == rbuf.Length <==> !needCopy)
    {
      hide HeaderSays, CutWs;
      RoomForPayload();
      PayloadSays(max, passed, lenAndMaskSize, rh, Unread());
      if rh.payloadLen - (rw - rr) > 0 {
        return None;
      }
      var raw := TakePayload(needCopy);
      f := Some(WsFrame(rh.head, rh.key, raw));
      passed := [];
    }

    /** readPayloadAndCallback, without the corking, which only concerns writing. */
    method ReadPayloadAndCallback() returns (success: bool, err: Option<Error>)
      requires Valid() && rbuf != null
      modifies this`rbuf, this`rr, this`rw, this`passed, this`state, this`s, rbuf
      ensures rbuf == old(rbuf) || fresh(rbuf)
      ensures rbuf != null && Buffered() && rw - rr <= old(rw - rr) && (old(rw < rbuf.Length) ==> rw < rbuf.Length)
      ensures !success && err.None? ==> Valid() && s == old(s) && state == old(state) && Pending() == old(Pending())
                                        && (state == Payload ==>
                                             && CutWs(max, Pending()).More? && 0 < rh.payloadLen
                                             && rw < rbuf.Length)
      ensures success ==>
                && err.None? && Valid() && state == HeaderStart && old(state) == Payload
                && rw - rr == old(rw - rr) - rh.payloadLen
      ensures success ==> CutWs(max, old(Pending())).Item? && rbuf == old(rbuf)
      ensures success && old(rw == rbuf.Length) && old(rr + rh.payloadLen > 0) ==>
                (rw == rbuf.Length <==> !Copies(zeroCopy, CutWs(max, old(Pending())).item.head, old(s)))
      ensures success ==> Handle(env, old(s), CutWs(max, old(Pending())).item) == (s, None)
      ensures success ==>
                && CutWs(max, old(Pending())).size <= |old(Pending())|
                && Pending() == old(Pending())[CutWs(max, old(Pending())).size..]
      ensures err.Some? ==>
                && CutWs(max, old(Pending())).Item?
                && Handle(env, old(s), CutWs(max, old(Pending())).item) == (s, err)
    {
      hide HeaderSays, CutWs, Handle, Copies;
      if state == Payload {
        var needCopy := Copies(zeroCopy, rh.head, s);
        var f := ReadPayload(needCopy);
        if f.Some? {
          var (s', e) := Handle(env, s, f.value);
          s := s';
          if e.Some? {
            return false, e;
          }
          state := HeaderStart;
          EmptySays(max, lenAndMaskSize, rh);
          assert Pending() == Unread();
          return true, None;
        }
      }
      return false, None;
    }

    /** How a full buffer that may not grow stands to what `WhileFull` says of it. */
    ghost predicate OnWay(t: Settled)
      requires rbuf != null && Buffered()
      reads this, rbuf
    {
      if rw < rbuf.Length then t == Settled(s, Pending(), None)
      else rbuf.Length >= BATCH_READ_BUFFER && t == WhileFull(env, zeroCopy, max, s, Pending(), state != HeaderStart)
    }

    /** One turn of parsing: a header, then a payload and its callback. */
    method ParseOne() returns (success: bool, err: Option<Error>)
      requires Valid() && rbuf != null && (state == Payload ==> 0 < rh.payloadLen || CutWs(max, Pending()).Item?)
      modifies this, rbuf
      ensures rbuf == old(rbuf) || fresh(rbuf)
      ensures rbuf != null && Buffered()
      ensures err.None? ==> Valid() && Same(env, max, old(s), old(Pending()), s, Pending())
      ensures err.None? ==> (if success then |Pending()| < |old(Pending())| && state == HeaderStart
                else CutWs(max, Pending()).More? && rw < rbuf.Length)
      ensures err.Some? ==>
                && Settle(env, max, old(s), old(Pending())).s == s
                && Settle(env, max, old(s), old(Pending())).error == err
      ensures err.None? && !success && state == Payload ==> 0 < rh.payloadLen
      ensures err.None? && old(rw == rbuf.Length) && (old(state) == Payload ==> 0 < old(rh.payloadLen)) ==>
                rw < rbuf.Length || rw - rr < old(rw - rr)
      ensures old(rw == rbuf.Length >= BATCH_READ_BUFFER) && (old(state) == Payload ==> 0 < old(rh.payloadLen)) ==>
                var t := WhileFull(env, zeroCopy, max, old(s), old(Pending()), old(state) != HeaderStart);
                if err.Some? then t.s == s && t.error == err else OnWay(t)
    {
      hide HeaderSays, CutWs, Handle, Settle, Same;
      ghost var s0, y := s, Pending();
      SameSelf(env, max, s0, y);
      SettleCases(env, max, s0, y);
      if state == HeaderStart { StartSays(max, passed, lenAndMaskSize, rh); }
      success, err := ReadHeader();
      if err.Some? || !success {
        return;
      }
      success, err := ReadPayloadAndCallback();
      if success {
        ItemSame(env, max, s0, y);
      }
    }

    /** Bytes come in behind the unread ones. */
    method Fill(bytes: seq<byte>)
      requires rbuf != null && Buffered() && |bytes| <= rbuf.Length - rw
      modifies this`rw, rbuf
      ensures Buffered() && Unread() == old(Unread()) + bytes && rw == old(rw) + |bytes|
    {
      ghost var unread := rbuf[rr..rw];
      var n := |bytes|;
      forall i | 0 <= i < n {
        rbuf[rw + i] := bytes[i];
      }
      assert rbuf[rr..rw] == unread && rbuf[rw..rw + n] == bytes;
      assert rbuf[rr..rw + n] == rbuf[rr..rw] + rbuf[rw..rw + n];
      rw := rw + n;
    }

    /** One read of the socket into the free end of the buffer. An empty end reads nothing. */
    method Receive(script: seq<KRead>) returns (n: nat, event: Option<Kernel>, rest: seq<KRead>, ghost bytes: seq<byte>)
      requires rbuf != null && Buffered()
      modifies this`rw, rbuf
      ensures Buffered() && Unread() == old(Unread()) + bytes && |bytes| == n && rw == old(rw) + n
      ensures Received(script) == bytes + Received(rest)
      ensures event.Some? ==> n == 0 && !event.value.Data?
      ensures old(rw) == rbuf.Length ==> event.None? && rest == script
      ensures old(rw) < rbuf.Length && event != Some(WouldBlock) ==> Size(rest) < Size(script)
      ensures old(rw) < rbuf.Length && script == [] ==> event == Some(WouldBlock)
      ensures old(rw) < rbuf.Length && script != [] ==>
                if !script[0].Data? then event == Some(script[0]) && rest == script[1..]
                else event.None? && (|script[0].bytes| <= rbuf.Length - old(rw) ==>
                    bytes == script[0].bytes && rest == script[1..])
      ensures Comes(script, bytes, rest)
      ensures event == Some(WouldBlock) || (event.None? && n < old(rbuf.Length - rw)) ==> FirstData(script) <= bytes
    {
      var want := rbuf.Length - rw;
      assert Unread() + [] == Unread() && [] + Received(script) == Received(script);
      ReadComes(script, want);
      if want == 0 {
        return 0, None, script, [];
      }
      if script == [] {
        return 0, Some(WouldBlock), [], [];
      }
      if !script[0].Data? {
        assert [] + Received(script[1..]) == Received(script[1..]);
        return 0, Some(script[0]), script[1..], [];
      }
      n := if |script[0].bytes| < want then |script[0].bytes| else want;
      TakenBytes(script, n);
      assert n == |script[0].bytes| ==> script[0].bytes[..n] == script[0].bytes && Taken(script, n) == script[1..];
      hide Received, Size, Taken, FirstData;
      Fill(script[0].bytes[..n]);
      return n, None, Taken(script, n), script[0].bytes[..n];
    }

    /** How the first loop of processWebsocketFrame goes on after one turn. */
    ghost predicate Ready()
      reads this
    {
      rbuf != null && Valid() && (state == Payload ==> 0 < rh.payloadLen)
    }

    ghost function FullRank(): nat
      requires rbuf != null && Buffered()
      reads this
    {
      if rw == rbuf.Length then 1 + rw - rr else 0
    }

    /** What a full buffer leads to: a larger one while it is small, and else a turn of parsing. */
    method MakeRoom() returns (parsed: bool, err: Option<Error>)
      requires Ready()
      modifies this, rbuf
      ensures rbuf == old(rbuf) || fresh(rbuf)
      ensures rbuf != null && Buffered()
      ensures err.None? ==> Ready() && Same(env, max, old(s), old(Pending()), s, Pending())
      ensures err.None? && old(rw == rbuf.Length) ==> FullRank() < old(FullRank())
      ensures old(rw < rbuf.Length) ==> err.None? && !parsed && unchanged(this) && Pending() == old(Pending())
      ensures old(rw == rbuf.Length < BATCH_READ_BUFFER) ==>
                err.None? && !parsed && s == old(s) && Pending() == old(Pending()) && rw < rbuf.Length
      ensures old(rw == rbuf.Length >= BATCH_READ_BUFFER) ==>
                parsed
                && var t := WhileFull(env, zeroCopy, max, old(s), old(Pending()), old(state) != HeaderStart);
                   if err.Some? then t.s == s && t.error == err else OnWay(t)
      ensures err.Some? ==>
                && Settle(env, max, old(s), old(Pending())).s == s
                && Settle(env, max, old(s), old(Pending())).error == err
    {
      hide HeaderSays, CutWs, Handle, Settle, Same;
      SameSelf(env, max, s, Pending());
      if rw == rbuf.Length && rbuf.Length < BATCH_READ_BUFFER {
        GrowReadBuffer();
      }
      if rw == rbuf.Length {
        var success;
        success, err := ParseOne();
        return true, err;
      }
      return false, None;
    }

    /** Where the reader stands when the socket ends behind one read of `data`, which has room. */
    ghost function StopsAt(data: seq<byte>): Settled
      requires rbuf != null && Buffered()
      reads this, rbuf
    {
      if |data| < rbuf.Length - rw || rbuf.Length < BATCH_READ_BUFFER then Settled(s, Pending() + data, None)
      else WhileFull(env, zeroCopy, max, s, Pending() + data, state != HeaderStart)
    }

    /** One turn of the first loop of processWebsocketFrame. */
    method ReadTurn(script: seq<KRead>)
        returns (next: Turned, rest: seq<KRead>, err: Option<Error>, ghost bytes: seq<byte>)
      requires Ready()
      modifies this, rbuf
      ensures rbuf == old(rbuf) || fresh(rbuf)
      ensures rbuf != null && Buffered() && Received(script) == bytes + Received(rest)
      ensures next != Refused ==> Ready() && Same(env, max, old(s), old(Pending()) + bytes, s, Pending())
      ensures next == Refused ==> Settle(env, max, old(s), old(Pending()) + bytes).s == s
      ensures next == Refused ==> err.Some? && Settle(env, max, old(s), old(Pending()) + bytes).error == err
      ensures next == Again ==> Size(rest) < Size(script) || (rest == script && FullRank() < old(FullRank()))
      ensures next == Again ==> bytes == [] || |bytes| == old(rbuf.Length - rw)
      ensures next == Broken ==> bytes == [] && s == old(s) && Pending() == old(Pending())
      ensures Comes(script, bytes, rest) && (next == Done ==> FirstData(script) <= bytes)
      ensures script == [] || script[0].WouldBlock? ==> old(rw < rbuf.Length) ==> next == Done
      ensures script != [] && script[0].Interrupted? && old(rw < rbuf.Length) ==>
                next == Again && rest == script[1..] && bytes == [] && unchanged(this) && Pending() == old(Pending())
      ensures script != [] && (script[0].Eof? || script[0].Failed?) && old(rw < rbuf.Length) ==>
                next == Broken && rest == script[1..]
      ensures script != [] && script[0].Data? && |script[0].bytes| < old(rbuf.Length - rw) ==>
                && next == Done && rest == script[1..] && bytes == script[0].bytes
                && s == old(s) && Pending() == old(Pending()) + bytes
      ensures script != [] && script[0].Data? && |script[0].bytes| == old(rbuf.Length - rw) ==>
                && rest == script[1..] && bytes == script[0].bytes && (next == Again || next == Refused)
                && var t := old(StopsAt(script[0].bytes));
                   if next == Refused then t.s == s && t.error == err else OnWay(t)
      ensures old(rw == rbuf.Length >= BATCH_READ_BUFFER) ==>
                && rest == script && bytes == [] && (next == Again || next == Refused)
                && var t := WhileFull(env, zeroCopy, max, old(s), old(Pending()), old(state) != HeaderStart);
                   if next == Refused then t.s == s && t.error == err else OnWay(t)
    {
      hide HeaderSays, CutWs, Handle, Settle, Same, Received, Size, Taken, Comes, FirstData;
      ghost var s0, y := s, Pending();
      SameSelf(env, max, s0, y);
      var want := rbuf.Length - rw;
      var n, event;
      n, event, rest, bytes := Receive(script);
      SameMore(env, max, s0, y, s0, y, bytes);
      assert Pending() == y + bytes && y + [] == y;
      if event.Some? {
        next :=
          match event.value
          case Interrupted => Again
          case Eof => Broken
          case Failed => Broken
          case _ => Done;
        return next, rest, None, bytes;
      }
      var parsed;
      parsed, err := MakeRoom();
      next := if err.Some? then Refused else if !parsed && n < want then Done else Again;
    }

    /** Such a turn on the way through a whole script, of which `got` has been read. */
    method Advance(
        ghost script: seq<KRead>, todo: seq<KRead>, ghost got: seq<byte>, ghost s0: Ws, ghost y0: seq<byte>,
        ghost room: int, ghost simple: bool, ghost t: Settled)
        returns (next: Turned, rest: seq<KRead>, err: Option<Error>, ghost bytes: seq<byte>)
      requires Ready()
      requires room > 0 ==>
                 || Waiting(script, todo, true, got, s0, y0, room, t)
                 || Moving(script, true, false, got, s0, y0, room)
      requires simple ==>
                 && OneReadThenEnd(script) && |FirstData(script)| <= room
                 && (|| Waiting(script, todo, true, got, s0, y0, room, t)
                     || Simple(script, todo, true, false, None, got, room, t))
      requires room > 0 && EndsAtOnce(script) ==> Waiting(script, todo, true, got, s0, y0, room, t)
      modifies this, rbuf
      ensures rbuf == old(rbuf) || fresh(rbuf)
      ensures rbuf != null && Buffered() && Received(todo) == bytes + Received(rest)
      ensures next != Refused ==> Ready() && Same(env, max, old(s), old(Pending()) + bytes, s, Pending())
      ensures next == Refused ==> Settle(env, max, old(s), old(Pending()) + bytes).s == s
      ensures next == Refused ==> err.Some? && Settle(env, max, old(s), old(Pending()) + bytes).error == err
      ensures next == Again ==> Size(rest) < Size(todo) || (rest == todo && FullRank() < old(FullRank()))
      ensures Comes(todo, bytes, rest) && (next == Done ==> FirstData(todo) <= bytes)
      ensures room > 0 && EndsAtOnce(script) ==>
                next == Broken || Waiting(script, rest, next == Again, got + bytes, s0, y0, room, t)
      ensures room > 0 ==>
                || Waiting(script, rest, next == Again, got + bytes, s0, y0, room, t)
                || Moving(script, next == Again, next == Broken, got + bytes, s0, y0, room)
      ensures simple ==>
                || Waiting(script, rest, next == Again, got + bytes, s0, y0, room, t)
                || Simple(script, rest, next == Again, next == Broken, Verdict(next, err), got + bytes, room, t)
    {
      hide HeaderSays, CutWs, Handle, Settle, Same, Received, Size, WhileFull, Comes;
      next, rest, err, bytes := ReadTurn(todo);
      assert got + [] == got && [] + bytes == bytes;
    }

    /** The first loop: read until the socket has no more, parsing only when the buffer is
        full. `broken` says that the socket failed or was closed by the peer: then frames that
        were read but not yet parsed are not handled. That takes a read that fills the buffer:
        after a shorter one the loop is left before the failure is seen. The loop cannot spin on
        a full buffer: every turn consumes some of the script or lowers the rank of the buffer. */
    method ReadAll(script: seq<KRead>)
        returns (rest: seq<KRead>, err: Option<Error>, broken: bool, ghost got: seq<byte>)
      requires Ready()
      modifies this, rbuf
      ensures rbuf == old(rbuf) || fresh(rbuf)
      ensures rbuf != null && Buffered() && Received(script) == got + Received(rest)
      ensures broken ==> err == Some(ReadFailed)
      ensures err.None? || broken ==> Ready() && Same(env, max, old(s), old(Pending()) + got, s, Pending())
      ensures err.Some? && !broken ==> Settle(env, max, old(s), old(Pending()) + got).s == s
      ensures err.Some? && !broken ==> Settle(env, max, old(s), old(Pending()) + got).error == err
      ensures err.None? ==> FirstData(script) <= got
      ensures EndsAtOnce(script) && old(rw < rbuf.Length) ==> broken
      ensures broken && old(rw < rbuf.Length) ==>
                || FirstFills(script, old(rbuf.Length - rw))
                || (EndsAtOnce(script) && got == [] && s == old(s) && Pending() == old(Pending()))
      ensures old(Fits(script)) ==>
                && got == FirstData(script)
                && Stopped(old(StopsAt(FirstData(script))), |got| < old(rbuf.Length - rw), err, broken)
    {
      hide HeaderSays, CutWs, Handle, Settle, Same, Received, Size;
      ghost var s0, y0, room, simple := s, Pending(), rbuf.Length - rw, Fits(script);
      ghost var t := StopsAt(FirstData(script));
      SameSelf(env, max, s0, y0);
      rest, err, broken, got := script, None, false, [];
      assert y0 + [] == y0 && [] + Received(script) == Received(script);
      ReadComes(script, 0);
      hide Comes;
      var more := true;
      while more
        invariant rbuf == old(rbuf) || fresh(rbuf)
        invariant rbuf != null && Buffered() && Received(script) == got + Received(rest)
        invariant more ==> err.None? && !broken
        invariant Comes(script, got, rest) && (!more && err.None? ==> FirstData(script) <= got)
        invariant broken ==> err == Some(ReadFailed)
        invariant err.None? || broken ==> Ready() && Same(env, max, s0, y0 + got, s, Pending())
        invariant err.Some? && !broken ==>
                    Settle(env, max, s0, y0 + got).s == s && Settle(env, max, s0, y0 + got).error == err
        invariant room > 0 && EndsAtOnce(script) ==> broken || Waiting(script, rest, more, got, s0, y0, room, t)
        invariant room > 0 ==>
                    || Waiting(script, rest, more, got, s0, y0, room, t)
                    || Moving(script, more, broken, got, s0, y0, room)
        invariant simple ==>
                    || Waiting(script, rest, more, got, s0, y0, room, t)
                    || Simple(script, rest, more, broken, err, got, room, t)
        decreases more, Size(rest), FullRank()
      {
        ghost var s1, y1, got1 := s, Pending(), got;
        var next;
        ghost var bytes;
        ghost var todo := rest;
        next, rest, err, bytes := Advance(script, rest, got, s0, y0, room, simple, t);
        ComesOn(script, got, todo, bytes, rest);
        Chain(env, max, s0, y0, got1, s1, y1, bytes, Received(rest));
        Assoc(y0, got1, bytes);
        got := got1 + bytes;
        more, broken := next == Again, next == Broken;
        if next != Refused {
          SameThen(env, max, s0, y0 + got, s1, y1 + bytes, s, Pending());
        }
        err := Verdict(next, err);
      }
    }

    /** A buffer with room for the data of one read, behind which the socket ends. */
    predicate Fits(script: seq<KRead>)
      reads this
    {
      && OneReadThenEnd(script)
      && rbuf != null && rw < rbuf.Length && |FirstData(script)| <= rbuf.Length - rw
    }

    /** The reader stands as `t` says: after a short read the end is not seen, after one that
        fills the buffer it is, unless a frame is refused before. */
    ghost predicate Stopped(t: Settled, short: bool, err: Option<Error>, broken: bool)
      requires Buffered()
      reads this, rbuf
    {
      if !short && t.error.Some? then !broken && err == t.error && s == t.s
      else broken == !short && (short ==> err.None?) && t == Settled(s, Pending(), None)
    }

    /** Before the first data. */
    ghost predicate Waiting(
        script: seq<KRead>, rest: seq<KRead>, more: bool, got: seq<byte>, s0: Ws, y0: seq<byte>, room: int, t: Settled)
      reads this, rbuf
    {
      && rbuf != null && Buffered() && rw < rbuf.Length && rbuf.Length - rw == room
      && more && Uninterrupted(rest) == Uninterrupted(script) && got == [] && s == s0 && Pending() == y0
      && StopsAt(FirstData(script)) == t
    }

    /** Behind it, for any script: the loop goes on only when a read has filled the buffer. */
    ghost predicate Moving(script: seq<KRead>, more: bool, broken: bool, got: seq<byte>, s0: Ws, y0: seq<byte>,
        room: int)
      requires Buffered()
      reads this, rbuf
    {
      more || broken ==>
        FirstFills(script, room) || (!more && EndsAtOnce(script) && got == [] && s == s0 && Pending() == y0)
    }

    /** And for one read before the end. */
    ghost predicate Simple(
        script: seq<KRead>, rest: seq<KRead>, more: bool, broken: bool, err: Option<Error>, got: seq<byte>, room: int,
            t: Settled)
      requires rbuf != null && Buffered()
      reads this, rbuf
    {
      && OneReadThenEnd(script) && got == FirstData(script)
      && if more then |got| == room && Uninterrupted(rest) == Uninterrupted(Uninterrupted(script)[1..]) && OnWay(t)
         else Stopped(t, |got| < room, err, broken)
    }

    /** The second loop of processWebsocketFrame. */
    method ParseAll() returns (err: Option<Error>)
      requires Valid() && rbuf != null && (state == Payload ==> 0 < rh.payloadLen)
      modifies this, rbuf
      ensures rbuf == old(rbuf) || fresh(rbuf)
      ensures rbuf != null && Buffered()
      ensures err.None? ==> Idle() && Same(env, max, old(s), old(Pending()), s, Pending()) && rw < rbuf.Length
      ensures err.Some? ==>
                && Settle(env, max, old(s), old(Pending())).s == s
                && Settle(env, max, old(s), old(Pending())).error == err
    {
      hide HeaderSays, CutWs, Handle, Settle, Same;
      ghost var s0, y0 := s, Pending();
      SameSelf(env, max, s0, y0);
      while true
        invariant rbuf == old(rbuf) || fresh(rbuf)
        invariant rbuf != null && Valid() && (state == Payload ==> 0 < rh.payloadLen)
        invariant Same(env, max, s0, y0, s, Pending())
        decreases |Pending()|
      {
        ghost var s1, y1 := s, Pending();
        SameNow(env, max, s0, y0, s1, y1);
        var success;
        success, err := ParseOne();
        if err.Some? {
          return;
        }
        SameThen(env, max, s0, y0, s1, y1, s, Pending());
        if !success {
          return;
        }
      }
    }

    /** The end of processWebsocketFrame: an empty buffer, or one of a failed connection, goes
        back to the pool. */
    method ReleaseBuffer(failed: bool)
      requires Buffered() && rbuf != null
      modifies this`rbuf, this`rr, this`rw
      ensures Buffered() && (failed ==> rbuf == null)
      ensures !failed ==>
                && Unread() == old(Unread())
                && (rbuf == null || (rbuf == old(rbuf) && rr == old(rr) && rw == old(rw)))
      ensures rbuf != null ==> rr < rw
    {
      if failed || rr == rw {
        rr, rw := 0, 0;
        rbuf := null;
      }
    }

    /** processWebsocketFrame, for whatever the kernel returns. Without an error everything
        received has been handled as the flat decoder handles it, and what is left is no whole
        frame; with an error of a frame, what was handled is what the flat decoder handles
        before the same error; when the socket fails, some of what was received may not have
        been handled, and `left` is that part. `room` is the free space before the first read.
        Something whole is lost only if that read fills it: after a shorter one the call ends
        before the failure is seen. For one read and then the end it is said exactly what is
        lost: in a small buffer all that was read, in one of batch size what is behind the
        frames that are handled while it is full, the first whole frame at least. */
    method ProcessWebsocketFrame(script: seq<KRead>)
      returns (
        rest: seq<KRead>, err: Option<Error>, broken: bool, ghost got: seq<byte>, ghost left: seq<byte>,
            ghost room: int)
      requires Idle()
      modifies this, rbuf
      ensures rbuf == old(rbuf) || fresh(rbuf) || rbuf == null
      ensures Received(script) == got + Received(rest) && (err.None? ==> FirstData(script) <= got)
      ensures EndsAtOnce(script) ==> broken
      ensures err.None? ==> Idle() && Settle(env, max, old(s), old(Pending()) + got) == Settled(s, Pending(), None)
      ensures err.None? ==> rbuf != null ==> rr < rw < rbuf.Length
      ensures err.Some? && !broken ==>
                Settle(env, max, old(s), old(Pending()) + got).s == s
                    && Settle(env, max, old(s), old(Pending()) + got).error == err
      ensures broken ==> err == Some(ReadFailed) && Same(env, max, old(s), old(Pending()) + got, s, left)
      ensures if old(rbuf) != null then room == old(rbuf.Length - rw) else room >= old(rh.payloadLen) + MAX_FRAME_HEADER
      ensures Lost(max, broken, left) ==> FirstFills(script, room)
      ensures old(Fits(script)) ==>
                && got == FirstData(script)
                && LostAfter(old(StopsAt(FirstData(script))), |got| == room, broken, s, left)
    {
      assert rbuf == null ==> !Fits(script);
      assert rbuf != null ==> Buffered();
      hide *;
      if rbuf == null {
        Fresh();
      }
      room := rbuf.Length - rw;
      rest, err, broken, got, left := ReadAndParse(script);
    }

    /** The two loops, on a buffer, which is given back when it is empty or of no more use. */
    method ReadAndParse(script: seq<KRead>)
      returns (rest: seq<KRead>, err: Option<Error>, broken: bool, ghost got: seq<byte>, ghost left: seq<byte>)
      requires Idle() && rbuf != null
      modifies this, rbuf
      ensures rbuf == old(rbuf) || fresh(rbuf) || rbuf == null
      ensures Received(script) == got + Received(rest) && (err.None? ==> FirstData(script) <= got)
      ensures EndsAtOnce(script) ==> broken
      ensures err.None? ==> Idle() && Settle(env, max, old(s), old(Pending()) + got) == Settled(s, Pending(), None)
      ensures err.None? ==> rbuf != null ==> rr < rw < rbuf.Length
      ensures err.Some? && !broken ==>
                Settle(env, max, old(s), old(Pending()) + got).s == s
                    && Settle(env, max, old(s), old(Pending()) + got).error == err
      ensures broken ==> err == Some(ReadFailed) && Same(env, max, old(s), old(Pending()) + got, s, left)
      ensures Lost(max, broken, left) ==> FirstFills(script, old(rbuf.Length - rw))
      ensures old(Fits(script)) ==>
                && got == FirstData(script)
                && LostAfter(old(StopsAt(FirstData(script))), |got| == old(rbuf.Length - rw), broken, s, left)
    {
      hide HeaderSays, CutWs, Handle, Settle, Same, Received, Size, WhileFull;
      hide FirstFills, EndsAtOnce, FirstData, OneReadThenEnd, Uninterrupted, StopsAt;
      ghost var s0, y0 := s, Pending();
      StillWaiting(max, state, passed, lenAndMaskSize, rh, Unread());
      rest, err, broken, got := ReadAll(script);
      if broken {
        left := Pending();
        ReleaseBuffer(true);
        return;
      }
      left := [];
      if err.None? {
        ghost var s1, y1 := s, Pending();
        SameNow(env, max, s0, y0 + got, s1, y1);
        err := ParseAll();
        if err.None? {
          SameNow(env, max, s1, y1, s, Pending());
          SettleCases(env, max, s, Pending());
        }
      }
      ReleaseBuffer(err.Some?);
    }

    /** Any number of calls, one for each time the socket becomes readable. When the socket fails,
        it is in call `at`, which began with `room` bytes of free space. */
    method Serve(scripts: seq<seq<KRead>>)
      returns (err: Option<Error>, broken: bool, ghost got: seq<byte>, ghost left: seq<byte>, ghost at: nat,
          ghost room: int)
      requires Idle()
      modifies this, rbuf
      ensures err.None? ==> Idle() && Settle(env, max, old(s), old(Pending()) + got) == Settled(s, Pending(), None)
      ensures err.Some? && !broken ==>
                Settle(env, max, old(s), old(Pending()) + got).s == s
                    && Settle(env, max, old(s), old(Pending()) + got).error == err
      ensures broken ==> err == Some(ReadFailed) && Same(env, max, old(s), old(Pending()) + got, s, left)
      ensures err.None? ==> |got| >= AllFirst(scripts)
      ensures broken ==> at < |scripts| && room > 0 && (at == 0 && old(rbuf) != null ==> room == old(rbuf.Length - rw))
      ensures Lost(max, broken, left) ==> FirstFills(scripts[at], room)
    {
      hide HeaderSays, CutWs, Handle, Settle, Received, Size, Same, FirstFills;
      hide AllFirst, FirstData, EndsAtOnce, Uninterrupted, OneReadThenEnd, WhileFull, LostAfter, StopsAt, Fits;
      ghost var s0, y0 := s, Pending();
      AllFirstSteps(scripts, 0);
      got, err, broken, left, at, room := [], None, false, [], 0, 0;
      assert y0 + [] == y0;
      SettleCases(env, max, s0, y0);
      for i := 0 to |scripts|
        invariant rbuf == old(rbuf) || fresh(rbuf) || rbuf == null
        invariant Idle() && err.None? && !broken && Settle(env, max, s0, y0 + got) == Settled(s, Pending(), None)
        invariant |got| >= AllFirst(scripts[..i])
        invariant i == 0 ==> rbuf == old(rbuf) && rw == old(rw)
      {
        ghost var s1, y1 := s, Pending();
        var rest;
        ghost var bytes;
        at := i;
        rest, err, broken, bytes, left, room := ProcessWebsocketFrame(scripts[i]);
        Later(env, max, s0, y0 + got, s1, y1, bytes);
        if broken { LaterSame(env, max, s0, y0 + got, s1, y1, bytes, s, left); }
        Assoc(y0, got, bytes);
        got := got + bytes;
        if err.Some? {
          return;
        }
        AllFirstSteps(scripts, i + 1);
      }
      assert scripts[..|scripts|] == scripts;
    }

    method Fresh()
      requires Valid() && rbuf == null
      modifies this`rbuf
      ensures rbuf != null && fresh(rbuf) && Valid() && Unread() == [] && rw == 0
      ensures rbuf.Length >= rh.payloadLen + MAX_FRAME_HEADER
      ensures Pending() == old(Pending()) && (old(Idle()) ==> Idle())
    {
      hide HeaderSays;
      ghost var y := Pending();
      HeaderFits(max, state, passed, lenAndMaskSize, rh);
      var size := ReadBufferSize();
      rbuf := GetBytes(size);
    }
  }

  /** Something whole, or something to be refused, was received and not handled. */
  predicate Lost(max: int, broken: bool, left: seq<byte>) {
    broken && !CutWs(max, left).More?
  }

  /** What one read before the end loses, when the reader stops as `t` says. */
  predicate LostAfter(t: Settled, filled: bool, broken: bool, s: Ws, left: seq<byte>) {
    broken == (filled && t.error.None?) && (broken ==> s == t.s && left == t.rest)
  }

  /** What is left has been handled as far as it can be exactly when it is no whole frame. */
  lemma NothingLostExactly(env: Env, max: int, s: Ws, left: seq<byte>)
    ensures Settle(env, max, s, left) == Settled(s, left, None) <==> CutWs(max, left).More?
  {
    SettleCases(env, max, s, left);
    SettleShrinks(env, max, s, left);
    hide CutWs, Handle, Settle;
    if CutWs(max, left).Item? {
      var f := CutWs(max, left);
      SettleShrinks(env, max, Handle(env, s, f.item).0, left[f.size..]);
    }
  }

  lemma SettleShrinks(env: Env, max: int, s: Ws, y: seq<byte>)
    ensures |Settle(env, max, s, y).rest| <= |y|
  {
    CutWsLawful();
    hide CutWs, Lawful, Handle;
  }

  lemma LaterSame(env: Env, max: int, s0: Ws, x: seq<byte>, s: Ws, y: seq<byte>, bytes: seq<byte>, s': Ws,
      left: seq<byte>)
    requires Settle(env, max, s0, x) == Settled(s, y, None) && Same(env, max, s, y + bytes, s', left)
    ensures Same(env, max, s0, x + bytes, s', left)
  {
    hide Settle;
    forall b: seq<byte> ensures Settle(env, max, s0, x + bytes + b) == Settle(env, max, s', left + b) {
      Later(env, max, s0, x, s, y, bytes + b);
      Assoc(x, bytes, b);
      Assoc(y, bytes, b);
      assert Settle(env, max, s, y + bytes + b) == Settle(env, max, s', left + b);
    }
  }

  /** A new reader, and the first byte of a message. `small` says that the pool has given no
      buffer as large as a batch. */
  method FirstByte(env: Env, max: int, multiple: real) returns (c: ReadSide, small: bool)
    requires multiple >= 1.0
    ensures fresh(c) && c.env == env && c.max == max
    ensures small ==> c.Idle() && c.rbuf != null && fresh(c.rbuf) && c.rw < c.rbuf.Length < BATCH_READ_BUFFER
    ensures small ==> c.Pending() == [0x82] && c.s == NewWs
  {
    c := new ReadSide(env, max, multiple, true);
    assert CutWs(max, [0x82]).More? && CutWs(max, []).More?;
    hide HeaderSays, Settle, Same, Received, CutWs, Handle;
    c.Fresh();
    assert c.Pending() == [];
    small := c.rbuf.Length < BATCH_READ_BUFFER;
    if small {
      OneByteComes(c);
      small := c.rbuf != null && c.rbuf.Length < BATCH_READ_BUFFER;
    }
  }

  method OneByteComes(c: ReadSide)
    requires c.Idle() && c.rbuf != null && c.rw == 0 && c.rbuf.Length < BATCH_READ_BUFFER
    requires c.Pending() == [] && c.s == NewWs && CutWs(c.max, [0x82]).More?
    modifies c, c.rbuf
    ensures c.Idle() && c.Pending() == [0x82] && c.s == NewWs
    ensures c.rbuf == null || c.rbuf == old(c.rbuf) || fresh(c.rbuf)
  {
    hide HeaderSays, Settle, Same, Received, CutWs, Handle;
    var script: seq<KRead> := [Data([0x82]), Eof];
    var rest, err, broken;
    ghost var got, left, room;
    assert Uninterrupted(script) == script && FirstData(script) == [0x82];
    assert EndsAtOnce([Eof]) && script[1..] == [Eof] && OneReadThenEnd(script);
    assert c.Fits(script) && !FirstFills(script, c.rbuf.Length - c.rw);
    hide Uninterrupted, FirstData, FirstFills, EndsAtOnce, OneReadThenEnd, WhileFull;
    rest, err, broken, got, left, room := c.ProcessWebsocketFrame(script);
    assert [] + got == [0x82];
    SettleCases(c.env, c.max, NewWs, [0x82]);
  }

  /** Then a run can lose a message: the first byte of an empty binary message has come, its second
      fills the buffer together with what follows, and then the socket ends. The message is
      whole, and is not delivered. */
  method MessageIsLost(c: ReadSide) returns (ghost left: seq<byte>)
    requires c.Idle() && c.rbuf != null && c.rw < c.rbuf.Length < BATCH_READ_BUFFER
    requires c.Pending() == [0x82] && !c.s.closed && c.s.frag.None?
    modifies c, c.rbuf
    ensures c.s == old(c.s)
    ensures var m := CutWs(c.max, left);
            && m.Item? && m.item == WsFrame(0x82, [], [])
            && (Calm(c.env) ==> Handle(c.env, c.s, m.item) == (c.s.(log := c.s.log + [OnMessage(BINARY, [])]), None))
  {
    var d: seq<byte> := [0] + seq(c.rbuf.Length - c.rw - 1, _ => 0x82);
    var script: seq<KRead> := [Data(d), Eof];
    ghost var y := c.Pending();
    var rest, err, broken;
    ghost var got, room;
    assert Uninterrupted(script) == script && c.Fits(script);
    hide HeaderSays, Settle, Same, Received, CutWs, Handle;
    rest, err, broken, got, left, room := c.ProcessWebsocketFrame(script);
    assert left == [0x82] + d;
    EmptyMessage(c.max, left);
    EmptyHandled(c.env, c.s);
  }

  lemma EmptyMessage(max: int, b: seq<byte>)
    requires |b| >= 2 && b[0] == 0x82 && b[1] == 0
    ensures CutWs(max, b) == Item(WsFrame(0x82, [], []), 2, max)
  {
    assert b[2..2] == [];
  }

  lemma EmptyHandled(env: Env, s: Ws)
    requires !s.closed && s.frag.None?
    ensures Calm(env) ==> Handle(env, s, WsFrame(0x82, [], [])) == (s.(log := s.log + [OnMessage(BINARY, [])]), None)
  {
  }


  /** Handling `x + bytes` is handling `x` and then, behind its leftover, `bytes`. */
  lemma Later(env: Env, max: int, s0: Ws, x: seq<byte>, s: Ws, y: seq<byte>, bytes: seq<byte>)
    requires Settle(env, max, s0, x) == Settled(s, y, None)
    ensures Settle(env, max, s0, x + bytes) == Settle(env, max, s, y + bytes)
  {
    CutWsLawful();
    SameMaxRun(env, max, s0, x);
    Resume(CutWs, Callback(env), max, s0, x, bytes);
    hide CutWs, Handle, Lawful, Run;
    var r := Run(CutWs, Callback(env), max, s0, x);
    var r' := Run(CutWs, Callback(env), max, r.h, x[r.consumed..] + bytes);
    DropDrop(x, bytes, r.consumed, r'.consumed);
  }

  lemma DropDrop(x: seq<byte>, bytes: seq<byte>, i: nat, j: nat)
    requires i <= |x| && i + j <= |x| + |bytes|
    ensures (x + bytes)[i + j..] == (x[i..] + bytes)[j..]
  {
  }

  lemma {:induction false} SameMaxRun(env: Env, max: int, s: Ws, x: seq<byte>)
    requires Lawful(CutWs)
    ensures Run(CutWs, Callback(env), max, s, x).p == max
    decreases |x|
  {
    NextMax(max, x);
    Decided(CutWs, max, x, []);
    hide CutWs, Handle, Lawful;
    if CutWs(max, x).Item? {
      SameMaxRun(env, max, Handle(env, s, CutWs(max, x).item).0, x[CutWs(max, x).size..]);
    }
  }

  /** The bytes of any messages come to exactly those messages. */
  lemma MessagesSettle(env: Env, max: int, s: Ws, ms: seq<Message>)
    requires Calm(env) && !s.closed && s.frag.None? && Fits(max, AllFrames(ms))
    requires forall k :: 0 <= k < |ms| && ms[k].op == TEXT ==> env.utf8(Body(ms[k]))
    ensures Settle(env, max, s, PrintAll(WsBytes, AllFrames(ms)))
              == Settled(s.(log := s.log + Expected(env, ms)), [], None)
  {
    hide Calm, Fits, AllFrames, Body, Expected, CutWs, Handle, Lawful, WsBytes;
    CutWsLawful();
    CutUndoesWs();
    FittingFrames(max, AllFrames(ms));
    MessagesReassemble(env, s, ms);
    ParserUndoesPrinter(CutWs, Callback(env), WsBytes, WsOk, SameMax, max, s, AllFrames(ms));
    var bytes := PrintAll(WsBytes, AllFrames(ms));
    assert bytes[|bytes|..] == [];
  }

  lemma HeaderFits(max: int, state: State, passed: seq<byte>, size: nat, rh: Header)
    requires HeaderSays(max, state, passed, size, rh)
    ensures state == LenAndMask ==> size <= 12
  {
  }

  /** A payload that is still waited for is not empty. */
  lemma StillWaiting(max: int, state: State, passed: seq<byte>, size: nat, rh: Header, unread: seq<byte>)
    requires HeaderSays(max, state, passed, size, rh) && CutWs(max, passed + unread).More?
    ensures state == Payload ==> 0 < rh.payloadLen
  {
    if state == Payload {
      PayloadSays(max, passed, size, rh, unread);
    }
  }

  lemma Chain(env: Env, max: int, s0: Ws, y0: seq<byte>, got: seq<byte>, s: Ws, y: seq<byte>, bytes: seq<byte>,
      later: seq<byte>)
    requires Same(env, max, s0, y0 + got, s, y)
    ensures Same(env, max, s0, y0 + (got + bytes), s, y + bytes)
    ensures Settle(env, max, s0, y0 + (got + bytes)) == Settle(env, max, s, y + bytes)
    ensures got + (bytes + later) == got + bytes + later
  {
    hide Same, Settle;
    SameMore(env, max, s0, y0 + got, s, y, bytes);
    Assoc(y0, got, bytes);
    Assoc(got, bytes, later);
    SameNow(env, max, s0, y0 + (got + bytes), s, y + bytes);
  }

  lemma EmptySays(max: int, size: nat, rh: Header)
    ensures HeaderSays(max, HeaderStart, [], size, rh)
  {
  }

  /** With the header passed, the frame is whole as soon as its payload is. */
  lemma PayloadSays(max: int, passed: seq<byte>, size: nat, rh: Header, unread: seq<byte>)
    requires HeaderSays(max, Payload, passed, size, rh)
    ensures var b := passed + unread;
            if |unread| < rh.payloadLen then CutWs(max, b).More?
            else CutWs(max, b) == Item(WsFrame(rh.head, rh.key, unread[..rh.payloadLen]),
                |b| - |unread[rh.payloadLen..]|, max)
                 && b[|b| - |unread[rh.payloadLen..]|..] == unread[rh.payloadLen..]
  {
    HeaderStable(passed, unread);
    var b := passed + unread;
    hide FromBE, PayloadLen, KeyOf, LengthError, ExtSize;
    var len := rh.payloadLen;
    if |unread| >= len {
      assert b[|passed|..|passed| + len] == unread[..len] && b[|passed| + len..] == unread[len..];
    }
  }

  lemma StartSays(max: int, passed: seq<byte>, size: nat, rh: Header)
    requires HeaderSays(max, HeaderStart, passed, size, rh)
    ensures passed == []
  {
  }

  lemma TwoSay(max: int, b0: byte, b1: byte, key: Key)
    ensures HeaderSays(max, LenAndMask, [b0, b1], ExtSize(b1), Header(b0, b1 >= 0x80, b1 % 0x80, key))
  {
  }

  /** What the length and key bytes add to the two first ones. */
  lemma WholeSays(max: int, passed: seq<byte>, size: nat, rh: Header, bytes: seq<byte>, later: seq<byte>)
    requires HeaderSays(max, LenAndMask, passed, size, rh) && |bytes| == size
    ensures var n := size - (if rh.masked then 4 else 0);
            && 0 <= n && n == (if rh.payloadLen == 126 then 2 else if rh.payloadLen == 127 then 8 else 0)
            && var len' := if rh.payloadLen == 126 then FromBE(bytes[..2])
                 else if rh.payloadLen == 127 then FromBE(bytes[..8]) else rh.payloadLen;
               var key' := if rh.masked then bytes[n..n + 4] else [];
               && passed + (bytes + later) == passed + bytes + later
               && (LengthError(max, len').None? ==>
                    HeaderSays(max, Payload, passed + bytes, size, rh.(payloadLen := len', key := key')))
               && (LengthError(max, len').Some? ==>
                    CutWs(max, passed + bytes + later) == Fail(LengthError(max, len').value))
  {
    Assoc(passed, bytes, later);
    Sizes(passed[1]);
    HeaderWhole(max, passed, bytes, later);
    hide CutWs, FromBE, LengthError, PayloadLen, KeyOf, LenSize, ExtSize;
  }

  lemma TwoOff(b: seq<byte>, rr: nat, rw: nat)
    requires rr + 2 <= rw <= |b|
    ensures b[rr..rw] == [b[rr], b[rr + 1]] + b[rr + 2..rw]
  {
  }

  lemma Sizes(b1: byte)
    ensures LenSize(b1) == if b1 % 0x80 == 126 then 2 else if b1 % 0x80 == 127 then 8 else 0
    ensures ExtSize(b1) == LenSize(b1) + (if b1 >= 0x80 then 4 else 0)
  {
  }

  lemma ShortHeader(max: int, b: seq<byte>)
    requires |b| < 2
    ensures CutWs(max, b).More?
  {
  }

  /** A header whose bytes have all come, and what they say. */
  lemma HeaderWhole(max: int, passed: seq<byte>, bytes: seq<byte>, rest: seq<byte>)
    requires |passed| == 2 && |bytes| == ExtSize(passed[1])
    ensures var h, n := passed + bytes, LenSize(passed[1]);
            && |h| == 2 + ExtSize(h[1]) && h[0] == passed[0] && h[1] == passed[1]
            && PayloadLen(h) == (if n == 0 then passed[1] % 0x80 else FromBE(bytes[..n]))
            && KeyOf(h) == (if passed[1] >= 0x80 then bytes[n..n + 4] else [])
            && (LengthError(max, PayloadLen(h)).Some? ==>
                 CutWs(max, h + rest) == Fail(LengthError(max, PayloadLen(h)).value))
  {
    var h, n := passed + bytes, LenSize(passed[1]);
    assert h[2..2 + n] == bytes[..n] && h[2 + n..] == bytes[n..];
    HeaderStable(h, rest);
    hide FromBE, LenSize, LengthError;
  }

  lemma Product(n: nat, m: real)
    requires m >= 1.0
    ensures (n as real * m).Floor >= n
  {
    assert n as real * m >= n as real * 1.0;
  }

  /** A header of which only the first two bytes have been passed. */
  lemma HeaderSoFar(max: int, passed: seq<byte>, unread: seq<byte>, size: nat, rh: Header)
    requires HeaderSays(max, LenAndMask, passed, size, rh)
    ensures |unread| < size ==> CutWs(max, passed + unread).More?
  {
  }
}
