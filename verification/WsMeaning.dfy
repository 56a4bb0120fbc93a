/** What a WebSocket frame of any bytes leads to, in the numbers of sections 5.2 to 5.5 of
    RFC 6455 and without the model's own masking (websocket/conn_core.go, websocket/ws_header.go). */
module WsMeaning {
  import opened Bytes
  import opened Framing
  import opened WsFrame

  // ---- the header ----------------------------------------------------------------------------

  /** The first two bytes say how many bytes of length and of key follow. */
  predicate Header(l: byte, ext: seq<byte>, key: seq<byte>) {
    && |ext| == (if l % 128 == 126 then 2 else if l % 128 == 127 then 8 else 0)
    && |key| == (if l >= 128 then 4 else 0)
  }

  function Length(l: byte, ext: seq<byte>): nat {
    if |ext| == 2 then 0x100 * (ext[0] as int) + ext[1]
    else if |ext| == 8 then
      0x1_0000_0000 * FromBE([ext[0], ext[1], ext[2], ext[3]]) + FromBE([ext[4], ext[5], ext[6], ext[7]])
    else l % 128
  }

  /** Any header, of whatever form of the length, decodes as section 5.2 says; a length beyond
      the limit is refused without waiting for the payload. */
  lemma WireDecodes(max: int, h: byte, l: byte, ext: seq<byte>, key: seq<byte>, rest: seq<byte>)
    requires Header(l, ext, key)
    ensures var len := Length(l, ext);
            CutWs(max, [h, l] + ext + key + rest) ==
              if max > 0 && len > max then Fail(TooBigMessage(len))
              else if len >= 0x8000_0000 then Fail(LengthOutOfScope(len))
              else if |rest| < len then More
              else Item(WsFrame(h, key, rest[..len]), 2 + |ext| + |key| + len, max)
  {
    var b: seq<byte> := [h, l] + ext + key + rest;
    var n := 2 + |ext| + |key|;
    assert b[2..2 + |ext|] == ext && b[2 + |ext|..n] == key && b[n..] == rest;
    LengthRead(l, ext);
    hide FromBE, Length;
    assert LenSize(l) == |ext| && ExtSize(l) == |ext| + |key|;
    assert PayloadLen(b) == Length(l, ext);
    assert KeyOf(b) == key;
    var len := Length(l, ext);
    if |rest| >= len { assert b[n..n + len] == rest[..len]; }
  }

  lemma LengthRead(l: byte, ext: seq<byte>)
    ensures |ext| == 2 || |ext| == 8 ==> FromBE(ext) == Length(l, ext)
    ensures ext == [] ==> Length(l, ext) == l % 128
  {
    if |ext| == 2 {
      assert ext == [ext[0], ext[1]];
      ReadBigEndian(ext[0], ext[1], 0, 0);
    } else if |ext| == 8 {
      var a, b := [ext[0], ext[1], ext[2], ext[3]], [ext[4], ext[5], ext[6], ext[7]];
      assert ext == a + b;
      ReadHalves(a, b);
    }
  }

  /** A header of which bytes are missing decides nothing. */
  lemma HeaderIncomplete(max: int, h: byte, l: byte, ext: seq<byte>, key: seq<byte>, k: nat)
    requires Header(l, ext, key) && k < 2 + |ext| + |key|
    ensures CutWs(max, ([h, l] + ext + key)[..k]) == More
  {
    hide FromBE;
  }

  /** The bytes of a frame, with the shortest form of its length. */
  lemma OnTheWire(f: WsFrame)
    ensures var n, m := |f.raw|, if f.key == [] then 0 else 128;
            (n <= 125 ==> WsBytes(f) == [f.head, n + m] + f.key + f.raw)
            && (125 < n <= 65535 ==> WsBytes(f) == [f.head, 126 + m, n / 0x100, n % 0x100] + f.key + f.raw)
            && (65535 < n ==> WsBytes(f) == [f.head, 127 + m] + ToBE(n / 0x1_0000_0000, 4) + ToBE(n, 4)
                                              + f.key + f.raw)
  {
    BigEndian(|f.raw|);
    BigEndian8(|f.raw|);
    hide ToBE;
    var n: nat, m: byte := |f.raw|, if f.key == [] then 0 else 128;
    if n <= 125 {
      assert [f.head, n + m] + [] == [f.head, n + m];
    } else if n <= 65535 {
      assert [f.head, 126 + m] + [n / 0x100, n % 0x100] == [f.head, 126 + m, n / 0x100, n % 0x100];
    } else {
      Assoc([f.head, 127 + m], ToBE(n / 0x1_0000_0000, 4), ToBE(n, 4));
    }
  }

  // ---- masking -----------------------------------------------------------------------------

  /** `data` is what a frame with this key and these raw bytes carries: byte `k` is combined
      with byte `k` mod 4 of the key. */
  predicate Carries(f: WsFrame, data: seq<byte>) {
    && |data| == |f.raw|
    && (f.key == [] ==> data == f.raw)
    && (|f.key| == 4 ==> forall k :: 0 <= k < |data| ==> data[k] == Xor(f.raw[k], f.key[k % 4]))
  }

  lemma {:induction false} MaskFromAt(key: Key, s: seq<byte>, at: nat, k: nat)
    requires |key| == 4 && k < |s|
    ensures MaskFrom(key, s, at)[k] == Xor(s[k], key[(at + k) % 4])
    decreases |s|
  {
    hide Xor;
    if k > 0 { MaskFromAt(key, s[1..], at + 1, k - 1); }
  }

  /** Masking is byte by byte, with the byte of the key that the position says. */
  lemma MaskAt(key: Key, s: seq<byte>, k: nat)
    requires |key| == 4 && k < |s|
    ensures Mask(key, s)[k] == Xor(s[k], key[k % 4])
  {
    MaskFromAt(key, s, 0, k);
    hide Xor, MaskFrom;
  }

  lemma MaskCarries(f: WsFrame, data: seq<byte>)
    ensures Carries(f, data) <==> data == Mask(f.key, f.raw)
  {
    hide Xor, MaskFrom;
    if |f.key| == 4 {
      forall k | 0 <= k < |f.raw| ensures Mask(f.key, f.raw)[k] == Xor(f.raw[k], f.key[k % 4]) {
        MaskAt(f.key, f.raw, k);
      }
    }
  }

  // ---- refusals ----------------------------------------------------------------------------

  /** The first byte of a frame: four bits of opcode, three reserved bits, and the end. */
  function Op(f: WsFrame): nat { f.head % 16 }

  predicate Final(f: WsFrame) { f.head / 128 == 1 }

  predicate Reserved(f: WsFrame) { f.head / 16 % 8 != 0 }

  /** The code at the front of a Close frame's body. */
  function Code(data: seq<byte>): nat
    requires |data| >= 2
  {
    0x100 * (data[0] as int) + data[1]
  }

  /** A Close frame whose body is not a code that is valid, followed by text. */
  predicate BadClose(env: Env, data: seq<byte>) {
    |data| == 1 || (|data| >= 2 && (!env.utf8(data[2..]) || !env.validCode(Code(data))))
  }

  /** What breaks the protocol: a reserved bit; an opcode that is not assigned; a message that
      begins inside another, or a piece of none; a control frame that is cut or has more than
      125 bytes; a Close frame of a bad body. */
  predicate Breaks(env: Env, s: Ws, f: WsFrame, data: seq<byte>) {
    || Reserved(f) || 3 <= Op(f) <= 7 || Op(f) >= 11
    || (Op(f) == 0 && s.frag.None?) || (1 <= Op(f) <= 2 && s.frag.Some?)
    || (8 <= Op(f) <= 10 && (|data| > 125 || !Final(f)))
    || (Op(f) == 8 && BadClose(env, data))
  }

  predicate TextOfCloseIsBad(env: Env, f: WsFrame, data: seq<byte>) {
    !Reserved(f) && Op(f) == 8 && 2 <= |data| <= 125 && Final(f) && !env.utf8(data[2..])
  }

  function Why(env: Env, f: WsFrame, data: seq<byte>): Reason {
    if TextOfCloseIsBad(env, f, data) then NotUtf8 else BadFrame
  }

  /** The application is told of the end once. */
  function Told(s: Ws, why: Reason): seq<Event> {
    if s.told then [] else [OnClose(why)]
  }

  lemma RefusalIs(env: Env, s: Ws, why: Reason)
    requires !s.closed && !env.writeFails(s.log)
    ensures Refuse(env, s, why)
              == (Ws(true, s.frag, true, s.log + [Sent(8, [3, 234])] + Told(s, why)), Some(Protocol))
  {
    Digits2(1002, 3, 234);
    hide ToBE;
    assert s.log + [Sent(8, [3, 234])] + [] == s.log + [Sent(8, [3, 234])];
  }

  /** On an open connection whose write succeeds, a frame is refused exactly when it breaks the
      protocol; then the peer gets a Close frame with code 1002, the application is told why
      unless it was told before, and the connection is closed. */
  lemma RefusedExactly(env: Env, s: Ws, f: WsFrame, data: seq<byte>)
    requires Carries(f, data) && !s.closed && !env.writeFails(s.log)
    ensures Handle(env, s, f).1 == Some(Protocol) <==> Breaks(env, s, f, data)
    ensures Breaks(env, s, f, data) ==>
              Handle(env, s, f).0 == Ws(true, s.frag, true,
                                        s.log + [Sent(8, [3, 234])] + Told(s, Why(env, f, data)))
  {
    MaskCarries(f, data);
    RefusalIs(env, s, BadFrame);
    RefusalIs(env, s, NotUtf8);
    CodeRead(data);
    hide Mask, Carries, Refuse, FromBE, Told, WholeMessage;
  }

  lemma CodeRead(data: seq<byte>)
    ensures |data| >= 2 ==> FromBE(data[..2]) == Code(data)
  {
    if |data| >= 2 {
      assert data[..2] == [data[0], data[1]];
      ReadBigEndian(data[0], data[1], 0, 0);
    }
  }

  /** When nothing can be sent, the same frames end the connection without an answer. */
  lemma RefusedInSilence(env: Env, s: Ws, f: WsFrame, data: seq<byte>)
    requires Carries(f, data) && (s.closed || env.writeFails(s.log)) && Breaks(env, s, f, data)
    ensures Handle(env, s, f) ==
              (Ws(true, s.frag, true, s.log + Told(s, if s.closed then Why(env, f, data) else CannotWrite)),
               Some(WriteFailed))
  {
    MaskCarries(f, data);
    CodeRead(data);
    assert s.log + [] == s.log;
    hide Mask, Carries, FromBE, WholeMessage, CodeBytes;
  }

  // ---- messages ----------------------------------------------------------------------------

  /** A whole message: it is handed over, and the handler may close the connection; text that
      is not UTF-8 closes it; behind the end nothing is handed over. */
  function Whole(env: Env, s: Ws, op: nat, data: seq<byte>, why: Reason): Ws {
    if s.closed then s
    else if op == 1 && !env.utf8(data) then Ws(true, s.frag, true, s.log + Told(s, why))
    else Ws(env.closes(s.log + [OnMessage(op, data)]), s.frag, s.told, s.log + [OnMessage(op, data)])
  }

  lemma WholeIs(env: Env, s: Ws, op: nat, data: seq<byte>, pieces: bool)
    ensures WholeMessage(env, s, op, data, pieces)
              == Whole(env, s, op, data, if pieces then NotUtf8 else EndOfFile)
  {
    assert s.log + [] == s.log;
  }

  /** A text or binary frame outside a message is a message of its own, or opens one. */
  lemma FirstFrameMeans(env: Env, s: Ws, f: WsFrame, data: seq<byte>)
    requires Carries(f, data) && !Reserved(f) && 1 <= Op(f) <= 2 && s.frag.None?
    ensures Handle(env, s, f) ==
              (if Final(f) then Whole(env, s, Op(f), data, EndOfFile) else s.(frag := Some(Fragments(Op(f), data))),
               None)
  {
    MaskCarries(f, data);
    WholeIs(env, s, Op(f), data, false);
    hide Mask, Carries, WholeMessage, Whole;
  }

  /** A continuation inside a message comes behind its bytes; the last one completes it. */
  lemma NextFrameMeans(env: Env, s: Ws, f: WsFrame, data: seq<byte>)
    requires Carries(f, data) && !Reserved(f) && Op(f) == 0 && s.frag.Some?
    ensures var all := s.frag.value.data + data;
            Handle(env, s, f) ==
              (if Final(f) then Whole(env, s.(frag := None), s.frag.value.op, all, NotUtf8)
               else s.(frag := Some(Fragments(s.frag.value.op, all))), None)
  {
    MaskCarries(f, data);
    WholeIs(env, s.(frag := None), s.frag.value.op, s.frag.value.data + data, true);
    hide Mask, Carries, WholeMessage, Whole;
  }

  // ---- control frames -------------------------------------------------------------------------

  predicate GoodControl(f: WsFrame, data: seq<byte>) {
    !Reserved(f) && 8 <= Op(f) <= 10 && |data| <= 125 && Final(f)
  }

  /** Close: an empty one is answered with code 1000 and reading goes on; one with a valid code
      and text is answered with the same bytes, and the connection is closed. */
  lemma CloseMeans(env: Env, s: Ws, f: WsFrame, data: seq<byte>)
    requires Carries(f, data) && GoodControl(f, data) && Op(f) == 8 && !BadClose(env, data)
    requires !s.closed && !env.writeFails(s.log)
    ensures Handle(env, s, f) ==
              if data == [] then
                (Ws(false, s.frag, true, s.log + [Sent(8, [3, 232])] + Told(s, PeerClosed)), None)
              else
                (Ws(true, s.frag, true, s.log + [Sent(8, data)] + Told(s, PeerClosed)), Some(CloseReceived))
  {
    MaskCarries(f, data);
    CodeRead(data);
    Digits2(1000, 3, 232);
    NothingTold(s, [Sent(8, [3, 232])]);
    NothingTold(s, [Sent(8, data)]);
    hide Mask, Carries, FromBE, Refuse, ToBE;
  }

  lemma NothingTold(s: Ws, more: seq<Event>)
    ensures s.log + more + [] == s.log + more
  {
  }

  /** Ping and pong: a ping is answered with a pong of the same bytes, when that is asked for,
      and then handed over; otherwise only that there was one; a pong that is ignored leaves no
      trace. */
  lemma PingPongMeans(env: Env, s: Ws, f: WsFrame, data: seq<byte>)
    requires Carries(f, data) && GoodControl(f, data) && Op(f) != 8 && !s.closed
    requires Op(f) == 9 && env.replyPing ==> !env.writeFails(s.log)
    ensures Handle(env, s, f) ==
              (if Op(f) == 9 && env.replyPing then
                 var log := s.log + [Sent(10, data), OnMessage(9, data)];
                 Ws(env.closes(log), s.frag, s.told, log)
               else if Op(f) == 10 && env.ignorePong then s
               else
                 var log := s.log + [OnMessage(Op(f), [])];
                 Ws(env.closes(log), s.frag, s.told, log), None)
  {
    MaskCarries(f, data);
    assert s.log + [Sent(10, data)] + [OnMessage(9, data)] == s.log + [Sent(10, data), OnMessage(9, data)];
    hide Mask, Carries, Refuse, OnCloseFrame;
  }

  /** What an answer does that cannot be sent: on a closed connection nothing new is told but
      the end, and a refused write closes it. */
  lemma AnswerFails(env: Env, s: Ws, f: WsFrame, data: seq<byte>)
    requires Carries(f, data) && GoodControl(f, data) && (s.closed || env.writeFails(s.log))
    requires (Op(f) == 8 && !BadClose(env, data)) || (Op(f) == 9 && env.replyPing)
    ensures var ended := Ws(true, s.frag, true, s.log + Told(s, CannotWrite));
            Handle(env, s, f) ==
              if Op(f) == 8 && data == [] then
                (if s.closed then Ws(true, s.frag, true, s.log + Told(s, PeerClosed)) else ended, None)
              else if Op(f) == 8 && s.closed then (s, Some(WriteFailed))
              else (ended, Some(WriteFailed))
  {
    MaskCarries(f, data);
    CodeRead(data);
    assert s.log + [] == s.log;
    hide Mask, Carries, FromBE, Refuse, CodeBytes;
  }

  /** And without an answer to send, a closed connection leaves everything as it is. */
  lemma ClosedIsQuiet(env: Env, s: Ws, f: WsFrame, data: seq<byte>)
    requires Carries(f, data) && GoodControl(f, data) && s.closed
    requires Op(f) == 10 || (Op(f) == 9 && !env.replyPing)
    ensures Handle(env, s, f) == (s, None)
  {
    MaskCarries(f, data);
    hide Mask, Carries, Refuse, OnCloseFrame;
  }
}
