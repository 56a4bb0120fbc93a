/** Header blocks on the wire, and the client preface (http2/conn.go). */
module Http2Wire {
  import opened Bytes
  import opened Framing
  import opened Http2Frame
  import opened Http2Send
  import opened Http2Conn
  import opened Http2History

  // ---- header blocks -----------------------------------------------------------------

  /** The connection when the last frame of a split block is handed to finishHeaders. */
  function Assembled(c: Conn, max: nat, id: nat, block: seq<byte>, endStream: bool): Conn {
    var c1 := c.(lastId := if id > c.lastId then id else c.lastId);
    if |block| <= max then c1 else c1.(hdr := Assembly(false, id, block, endStream))
  }

  lemma HeadersFrame(env: Env, c: Conn, id: nat, block: seq<byte>, endStream: bool, endHeaders: bool)
    requires 0 < id
    ensures var f, c1 := Frame(HEADERS, HeadersFlags(endStream, endHeaders), id, block),
              c.(lastId := if id > c.lastId then id else c.lastId);
            OnFrame(env, c, f) ==
              if endHeaders then FinishHeaders(env, c1, id, block, endStream)
              else (c1.(hdr := Assembly(true, id, block, endStream)), None)
  {
    HeadersIsFrame([], id, block, endStream, endHeaders);
    hide FinishHeaders, Flag, HeadersFlags, Valid;
  }

  lemma ContinuationFrame(env: Env, c: Conn, id: nat, piece: seq<byte>, last: bool)
    requires 0 < id && c.hdr.active && c.hdr.id == id && id <= c.lastId
    ensures var f, c1 := Frame(CONTINUATION, Bits(last, 4), id, piece), c.(hdr := c.hdr.(block := c.hdr.block + piece));
            && GoodShape(f) && Flag(f.flags, END_HEADERS) == last
            && OnFrame(env, c, f) ==
                 if last then FinishHeaders(env, c1.(hdr := c1.hdr.(active := false)), id, c.hdr.block + piece,
                     c.hdr.endStream) else (c1, None)
  {
    hide FinishHeaders, Valid;
  }

  /** The rest of a block, put together behind what the assembly already holds. */
  lemma {:induction false} ContinuationsAssemble(env: Env, c: Conn, max: nat, id: nat, block: seq<byte>)
    requires 0 < id && max > 0 && block != [] && c.hdr.active && c.hdr.id == id && id <= c.lastId
    ensures var all := c.hdr.block + block;
            Fold(Callback(env), c, Continuations(max, id, block)) ==
              FinishHeaders(env, c.(hdr := Assembly(false, id, all, c.hdr.endStream)), id, all, c.hdr.endStream)
    decreases |block|
  {
    var n := Min(max, |block|);
    var last := n == |block|;
    var f, more := Frame(CONTINUATION, Bits(last, 4), id, block[..n]), Continuations(max, id, block[n..]);
    assert Continuations(max, id, block) == [f] + more && ([f] + more)[1..] == more;
    ContinuationFrame(env, c, id, block[..n], last);
    var r := OnFrame(env, c, f);
    hide OnFrame, FinishHeaders, Continuations, Valid;
    FoldFirst(Callback(env), c, f, more);
    if last {
      assert block[..n] == block;
      NoFrames(max, id);
      assert block[n..] == [];
      FoldNone(Callback(env), r.0);
    } else {
      ContinuationsAssemble(env, r.0, max, id, block[n..]);
      assert c.hdr.block + block[..n] + block[n..] == c.hdr.block + block;
    }
  }

  lemma NoFrames(max: nat, id: nat)
    requires max > 0
    ensures Continuations(max, id, []) == []
  {
  }

  lemma FoldNone<I, E, H>(fn: (H, I) -> (H, Option<E>), h: H)
    ensures Fold(fn, h, []) == (h, None)
  {
  }

  lemma BlockAssembles(env: Env, c: Conn, max: nat, id: nat, block: seq<byte>, endStream: bool)
    requires 0 < id && max > 0
    ensures Fold(Callback(env), c, BlockFrames(max, id, block, endStream)) ==
              FinishHeaders(env, Assembled(c, max, id, block, endStream), id, block, endStream)
  {
    hide OnFrame, FinishHeaders, Continuations, Valid, HeadersFlags;
    var whole := |block| <= max;
    var first := if whole then block else block[..max];
    var f := Frame(HEADERS, HeadersFlags(endStream, whole), id, first);
    var more := if whole then [] else Continuations(max, id, block[max..]);
    assert BlockFrames(max, id, block, endStream) == [f] + more;
    HeadersFrame(env, c, id, first, endStream, whole);
    FoldFirst(Callback(env), c, f, more);
    var r := OnFrame(env, c, f);
    if whole {
      FoldNone(Callback(env), r.0);
    } else {
      ContinuationsAssemble(env, r.0, max, id, block[max..]);
      assert block[..max] + block[max..] == block;
    }
  }

  lemma {:induction false} ContinuationsFollow(p: Parser, max: nat, id: nat, block: seq<byte>)
    requires 0 < max <= p.max && max <= MAX_FRAME_SIZE && 0 < id < 0x8000_0000
    requires block != [] ==> p.awaiting && p.lastId == id
    ensures AllOk(FrameOk, After, p, Continuations(max, id, block))
    decreases |block|
  {
    if block != [] {
      var n := Min(max, |block|);
      var f, more := Frame(CONTINUATION, Bits(n == |block|, 4), id, block[..n]), Continuations(max, id, block[n..]);
      assert ([f] + more)[1..] == more;
      ContinuationsFollow(After(p, f), max, id, block[n..]);
    }
  }

  lemma BlockFollows(p: Parser, max: nat, id: nat, block: seq<byte>, endStream: bool)
    requires 0 < max <= p.max && max <= MAX_FRAME_SIZE && 0 < id < 0x8000_0000 && !p.awaiting
    ensures AllOk(FrameOk, After, p, BlockFrames(max, id, block, endStream))
  {
    var whole := |block| <= max;
    var first := if whole then block else block[..max];
    var f := Frame(HEADERS, HeadersFlags(endStream, whole), id, first);
    var more := if whole then [] else Continuations(max, id, block[max..]);
    HeadersIsFrame([], id, first, endStream, whole);
    assert BlockFrames(max, id, block, endStream) == [f] + more && ([f] + more)[1..] == more;
    hide HeadersFlags, Flag, Continuations, GoodShape;
    if !whole { ContinuationsFollow(After(p, f), max, id, block[max..]); }
  }

  /** Header blocks survive splitting: for every block and every positive frame limit that the
      receiver allows, parsing the output of writeHeaderBlock hands exactly the block and its
      END_STREAM flag to finishHeaders, once, and consumes every byte unless that fails. */
  lemma HeaderBlocksSurviveSplitting(env: Env, p: Parser, c: Conn, max: nat, id: nat, block: seq<byte>, endStream: bool)
    requires 0 < max <= p.max && max <= MAX_FRAME_SIZE && 0 < id < 0x8000_0000 && !p.awaiting
    ensures Lawful(CutFrame)
    ensures var bytes := PrintAll(FrameBytes, BlockFrames(max, id, block, endStream));
            var r := Run(CutFrame, Callback(env), p, c, bytes);
            && (r.h, r.error) == FinishHeaders(env, Assembled(c, max, id, block, endStream), id, block, endStream)
            && (r.error.None? ==> r.consumed == |bytes| && !r.p.awaiting)
  {
    CutFrameLawful();
    CutUndoesFrame();
    BlockFollows(p, max, id, block, endStream);
    BlockAssembles(env, c, max, id, block, endStream);
    BlockEndsIt(p, max, id, block, endStream);
    hide *;
    ParserUndoesPrinter(CutFrame, Callback(env), FrameBytes, FrameOk, After, p, c,
        BlockFrames(max, id, block, endStream));
  }

  lemma {:induction false} ContinuationsEndIt(p: Parser, max: nat, id: nat, block: seq<byte>)
    requires max > 0 && block != []
    ensures !NextAll(After, p, Continuations(max, id, block)).awaiting
    decreases |block|
  {
    var n := Min(max, |block|);
    var f, more := Frame(CONTINUATION, Bits(n == |block|, 4), id, block[..n]), Continuations(max, id, block[n..]);
    assert Continuations(max, id, block) == [f] + more && ([f] + more)[1..] == more;
    if n < |block| { ContinuationsEndIt(After(p, f), max, id, block[n..]); }
  }

  lemma BlockEndsIt(p: Parser, max: nat, id: nat, block: seq<byte>, endStream: bool)
    requires max > 0 && 0 < id
    ensures !NextAll(After, p, BlockFrames(max, id, block, endStream)).awaiting
  {
    var frames := BlockFrames(max, id, block, endStream);
    if |block| <= max {
      HeadersIsFrame([], id, block, endStream, true);
      assert frames[1..] == [];
      assert NextAll(After, After(p, frames[0]), []) == After(p, frames[0]);
    } else {
      assert frames[1..] == Continuations(max, id, block[max..]);
      ContinuationsEndIt(After(p, frames[0]), max, id, block[max..]);
    }
  }

  // ---- the client preface ------------------------------------------------------------------

  /** "PRI * HTTP/2.0", two line ends, "SM", two line ends. */
  function Preface(): (s: seq<byte>)
    ensures |s| == 24
  {
    [80, 82, 73, 32, 42, 32, 72, 84, 84, 80, 47, 50, 46, 48, 13, 10, 13, 10, 83, 77, 13, 10, 13, 10]
  }

  /** It is this text, letter by letter (section 3.4 of RFC 9113). */
  lemma PrefaceText(k: nat)
    requires k < 24
    ensures Preface()[k] == "PRI * HTTP/2.0\r\n\r\nSM\r\n\r\n"[k] as int
  {
    var text := "PRI * HTTP/2.0\r\n\r\nSM\r\n\r\n";
    assert |text| == 24;
    assert forall i :: 0 <= i < 24 ==> Preface()[i] == text[i] as int;
  }

  /** A connection with the preface it may still wait for. */
  datatype Front = Front(waiting: bool, held: seq<byte>, p: Parser, c: Conn)

  /** What Feed did, and how many bytes the caller may drop. */
  datatype FedFront = FedFront(s: Front, consumed: nat, error: Option<Error>)

  ghost function FeedConn(env: Env, s: Front, data: seq<byte>): (r: FedFront)
    requires Lawful(CutFrame)
    ensures r.consumed <= |data|
  {
    if s.waiting then
      var buf := s.held + data;
      if |buf| < |Preface()| then FedFront(s.(held := buf), |data|, None)
      else if buf[..|Preface()|] != Preface() then FedFront(s.(held := buf), |data|, Some(Malformed))
      else
        var r := Run(CutFrame, Callback(env), s.p, s.c, buf[|Preface()|..]);
        FedFront(Front(false, [], r.p, r.h), |data|, None)     // the parse's count and error are dropped
    else
      var r := Run(CutFrame, Callback(env), s.p, s.c, data);
      FedFront(s.(p := r.p, c := r.h), r.consumed, r.error)
  }

  /** However the preface itself is cut, it is recognised, or refused, in the same way. */
  lemma PrefaceInPieces(env: Env, s: Front, a: seq<byte>, b: seq<byte>)
    requires Lawful(CutFrame) && s.waiting && |s.held| + |a| < |Preface()|
    ensures var one := FeedConn(env, s, a);
            && one.consumed == |a| && one.error.None? && one.s.waiting
            && FeedConn(env, s, a + b).s == FeedConn(env, one.s, b).s
            && FeedConn(env, s, a + b).error == FeedConn(env, one.s, b).error
  {
    hide Lawful, CutFrame, OnFrame, Preface;
    Assoc(s.held, a, b);
  }

  /** Anything else in its place is refused as soon as all 24 bytes have come, and none of it
      reaches the connection. */
  lemma WrongPreface(env: Env, s: Front, data: seq<byte>)
    requires Lawful(CutFrame) && s.waiting && |s.held| + |data| >= 24 && (s.held + data)[..24] != Preface()
    ensures var r := FeedConn(env, s, data);
            r.error == Some(Malformed) && r.s.c == s.c && r.s.waiting
  {
    hide Lawful, CutFrame, OnFrame, Preface;
  }

  /** Frames that are all there, by the lengths in their headers. */
  predicate Whole(b: seq<byte>)
    decreases |b|
  {
    b == [] || (|b| >= FRAME_HEADER_LEN && |b| >= FRAME_HEADER_LEN + FromBE(b[..3])
        && Whole(b[FRAME_HEADER_LEN + FromBE(b[..3])..]))
  }

  /** No length is above the limit, and every frame that is all there may come where it does, has
      a good shape, and meets none of the guards by which a stream or the connection refuses it. */
  ghost predicate AllTaken(env: Env, p: Parser, c: Conn, b: seq<byte>)
    decreases |b|
  {
    |b| >= FRAME_HEADER_LEN ==>
      var length := FromBE(b[..3]);
      && length <= p.max
      && (|b| >= FRAME_HEADER_LEN + length ==>
            var f := FrameAt(b);
            && CheckContinuation(p, f).None? && GoodShape(f) && !Refused(env, c, f) && !Breaks(env, c, f)
            && AllTaken(env, After(p, f), OnFrame(env, c, f).0, b[FRAME_HEADER_LEN + length..]))
  }

  /** The parser's part of that. */
  lemma TakenByParser(p: Parser, b: seq<byte>)
    ensures match CutFrame(p, b)
            case More => |b| >= FRAME_HEADER_LEN ==> FromBE(b[..3]) <= p.max && |b| < FRAME_HEADER_LEN + FromBE(b[..3])
            case Fail(_) =>
              && |b| >= FRAME_HEADER_LEN
              && (|| FromBE(b[..3]) > p.max
                  || (&& |b| >= FRAME_HEADER_LEN + FromBE(b[..3])
                      && !(CheckContinuation(p, FrameAt(b)).None? && GoodShape(FrameAt(b)))))
            case Item(f, n, p') =>
              && |b| >= FRAME_HEADER_LEN && FromBE(b[..3]) <= p.max && |b| >= FRAME_HEADER_LEN + FromBE(b[..3])
              && f == FrameAt(b) && n == FRAME_HEADER_LEN + FromBE(b[..3]) && p' == After(p, f)
              && CheckContinuation(p, f).None? && GoodShape(f)
  {
    hide FromBE, CheckContinuation, GoodShape, After;
  }

  /** A pass over bytes has an error exactly when not all their frames are taken, and without one
      it consumes them all exactly when they are whole frames. */
  lemma {:induction false} PassExactly(env: Env, p: Parser, c: Conn, b: seq<byte>)
    requires Lawful(CutFrame)
    ensures var r := Run(CutFrame, Callback(env), p, c, b);
            && (r.error.None? <==> AllTaken(env, p, c, b))
            && (if r.error.None? then r.consumed == |b| <==> Whole(b) else r.consumed < |b|)
    decreases |b|
  {
    Decided(CutFrame, p, b, []);
    CutByLength(p, b);
    TakenByParser(p, b);
    Decided(CutFrame, p, [], []);
    var cut := CutFrame(p, b);
    if cut.Item? { ErrorsExactly(env, c, cut.item); }
    hide Lawful, CutFrame, OnFrame, Refused, Breaks, FromBE, CheckContinuation, GoodShape, After, FrameAt;
    if cut.Item? {
      var (c', e) := OnFrame(env, c, cut.item);
      if e.None? { PassExactly(env, cut.next, c', b[cut.size..]); }
    }
  }

  /** When a frame is cut off, its length field says how much; when it is not, its header or its
      payload is not all there. */
  lemma CutByLength(p: Parser, b: seq<byte>)
    ensures match CutFrame(p, b)
            case Item(_, n, _) => |b| >= FRAME_HEADER_LEN && n == FRAME_HEADER_LEN + FromBE(b[..3]) <= |b|
            case More => |b| < FRAME_HEADER_LEN || |b| < FRAME_HEADER_LEN + FromBE(b[..3])
            case Fail(_) => b != []
  {
    hide FromBE, CheckContinuation, GoodShape;
  }

  /** Frames that come in the same call as the end of the preface have the effect of coming in
      the next one. But the call reports no error, and all bytes as consumed. So its error is
      the right one exactly when all the frames are taken, and then what it leaves to its
      caller is right exactly when the frames are whole. */
  lemma FramesBehindPreface(env: Env, s: Front, rest: seq<byte>)
    requires Lawful(CutFrame) && s.waiting && s.held == []
    ensures var together := FeedConn(env, s, Preface() + rest);
            var first := FeedConn(env, s, Preface());
            var second := FeedConn(env, first.s, rest);
            && together.s == second.s
            && (together.error == second.error <==> AllTaken(env, s.p, s.c, rest))
            && (AllTaken(env, s.p, s.c, rest) ==>
                  ((Preface() + rest)[together.consumed..] == rest[second.consumed..] <==> Whole(rest)))
            && (!AllTaken(env, s.p, s.c, rest) ==> (Preface() + rest)[together.consumed..] != rest[second.consumed..])
  {
    hide Lawful, OnFrame, Preface, CutFrame, Valid, Whole, AllTaken;
    NothingYet(env, s.p, s.c);
    BehindPreface(env, s, rest);
    BehindPreface(env, s, []);
    assert Preface() + [] == Preface();
    Opened(env, Front(false, [], s.p, s.c), rest);
    PassExactly(env, s.p, s.c, rest);
    hide FeedConn, Run;
    var r := Run(CutFrame, Callback(env), s.p, s.c, rest);
    assert (Preface() + rest)[|Preface()| + |rest|..] == [];
    assert rest[r.consumed..] == [] <==> r.consumed == |rest|;
  }

  /** The input that shows a dropped error: a frame that ends any connection, behind the preface. */
  lemma ErrorBehindPrefaceIsDropped(env: Env, c: Conn)
    requires Lawful(CutFrame)
    ensures var s := Front(true, [], NewParser, c);
            var push := FrameBytes(Frame(PUSH_PROMISE, 4, 2, [])) + [];
            && FeedConn(env, s, Preface() + push).error.None?
            && FeedConn(env, FeedConn(env, s, Preface()).s, push).error == Some(ConnError(PROTOCOL_ERROR))
  {
    var s, f := Front(true, [], NewParser, c), Frame(PUSH_PROMISE, 4, 2, []);
    var push := FrameBytes(f) + [];
    GoesOnExactly(env, NewParser, c, f, []);
    hide Lawful, OnFrame, Preface, CutFrame, FrameBytes, Valid;
    NothingYet(env, NewParser, c);
    BehindPreface(env, s, push);
    BehindPreface(env, s, []);
    assert Preface() + [] == Preface();
    Opened(env, Front(false, [], NewParser, c), push);
    assert OnFrame(env, c, f).1 == Some(ConnError(PROTOCOL_ERROR)) by { PushRefused(env, c, f); }
  }

  lemma PushRefused(env: Env, c: Conn, f: Frame)
    requires f == Frame(PUSH_PROMISE, 4, 2, [])
    ensures OnFrame(env, c, f) == (c, Some(ConnError(PROTOCOL_ERROR)))
  {
  }

  lemma NothingYet(env: Env, p: Parser, c: Conn)
    requires Lawful(CutFrame)
    ensures Run(CutFrame, Callback(env), p, c, []) == Outcome(p, c, 0, None)
  {
    assert CutFrame(p, []).More?;
    hide Lawful, OnFrame, CutFrame;
  }

  lemma Opened(env: Env, s: Front, data: seq<byte>)
    requires Lawful(CutFrame) && !s.waiting
    ensures var r := Run(CutFrame, Callback(env), s.p, s.c, data);
            FeedConn(env, s, data) == FedFront(s.(p := r.p, c := r.h), r.consumed, r.error)
  {
    hide Lawful, OnFrame, CutFrame, Run;
  }

  lemma BehindPreface(env: Env, s: Front, rest: seq<byte>)
    requires Lawful(CutFrame) && s.waiting && s.held == []
    ensures var r := Run(CutFrame, Callback(env), s.p, s.c, rest);
            FeedConn(env, s, Preface() + rest) == FedFront(Front(false, [], r.p, r.h), |Preface()| + |rest|, None)
  {
    hide Lawful, OnFrame, CutFrame, Preface, Run;
    assert [] + (Preface() + rest) == Preface() + rest;
    assert (Preface() + rest)[..|Preface()|] == Preface() && (Preface() + rest)[|Preface()|..] == rest;
  }

  /** The input that shows it: up to eight bytes of a frame behind the preface are gone. */
  lemma FrameBehindPrefaceIsLost(env: Env, s: Front, rest: seq<byte>)
    requires Lawful(CutFrame) && s.waiting && s.held == [] && 0 < |rest| < FRAME_HEADER_LEN
    ensures var together := FeedConn(env, s, Preface() + rest);
            together == FedFront(Front(false, [], s.p, s.c), |Preface()| + |rest|, None)
  {
    assert CutFrame(s.p, rest).More?;
    hide Lawful, OnFrame, CutFrame, Preface;
    BehindPreface(env, s, rest);
  }

  /** What a client writes first, a server accepts, in one piece: it stops waiting, consumes all
      of it without an error, and its only answer is the acknowledgement of the settings. */
  lemma ClientIsWelcome(env: Env)
    ensures Lawful(CutFrame)
    ensures var c, hello := Start(false), Preface() + PrintAll(FrameBytes, Start(true).out);
            var p := After(NewParser, Start(true).out[0]);
            FeedConn(env, Front(true, [], NewParser, c), hello) ==
            FedFront(Front(false, [], p, c.(out := c.out + [Frame(SETTINGS, 1, 0, [])])), |hello|, None)
  {
    var c, ss := Start(false), [Setting(5, DEFAULT_MAX_FRAME_SIZE)];
    var f := Frame(SETTINGS, 0, 0, SettingsPayload(ss));
    CutFrameLawful();
    WelcomeFrame(env, c, f);
    assert Start(true).out == [f] && [f] == [f] + [];
    PrintOne(FrameBytes, f, []);
    hide Lawful, CutFrame, OnFrame, Preface, FrameBytes, FrameOk, After, Start;
    GoesOnExactly(env, NewParser, c, f, []);
    NothingYet(env, After(NewParser, f), OnFrame(env, c, f).0);
    BehindPreface(env, Front(true, [], NewParser, c), FrameBytes(f) + []);
  }

  lemma WelcomeFrame(env: Env, c: Conn, f: Frame)
    requires f == Frame(SETTINGS, 0, 0, SettingsPayload([Setting(5, DEFAULT_MAX_FRAME_SIZE)]))
               && c.send.maxFrame == DEFAULT_MAX_FRAME_SIZE
    ensures OnFrame(env, c, f) == (c.(out := c.out + [Frame(SETTINGS, 1, 0, [])]), None) && FrameOk(NewParser, f)
  {
    var x := Setting(5, DEFAULT_MAX_FRAME_SIZE);
    SettingsRoundTrip([x], []);
    assert SettingsPayload([x]) + [] == SettingsPayload([x]);
    assert ReadSettings([]) == [] && [x] + [] == [x];
    assert ReadSettings(f.payload) == [x];
    assert [x][1..] == [];
    assert ApplySettings(c.send, [x]) == (c.send, None);
    assert c.out + DataFrames([]) == c.out;
    assert Sending(c, PeerSettings([x])) == (c, None);
    hide ReadSettings, FromBE, ToBE, Valid;
  }
}
