/** What a whole history of an HTTP/2 connection tells its handler, and what ends it
    (http2/conn.go). */
module Http2History {
  import opened Bytes
  import opened Framing
  import opened Http2Frame
  import opened Http2Send
  import opened Http2Conn
  import opened Http2Safety

  // ---- the end of a stream, as the handler hears of it --------------------------------------

  /** The handler was told of the end that `t[j]` records. */
  predicate Told(t: seq<Mark>, j: nat)
    requires j < |t|
  {
    j > 0 && (t[j - 1] == GotHeaders(t[j].id, true)
        || (t[j - 1].GotData? && t[j - 1].id == t[j].id && t[j - 1].endStream))
  }

  /** The bytes behind the padding of the DATA frame that carried the end `t[j]` records;
      `None` when a header block carried it. */
  function Carried(t: seq<Mark>, j: nat): Option<seq<byte>>
    requires j < |t|
  {
    if j > 0 && t[j - 1].Accepted? then Some(t[j - 1].data)
    else if j > 1 && t[j - 1].GotData? && t[j - 2].Accepted? then Some(t[j - 2].data)
    else None
  }

  /** In front of an end stands its frame: a header block, a DATA frame with bytes and their
      delivery, or a DATA frame without bytes. */
  predicate EndAt(t: seq<Mark>, j: nat)
    requires j < |t|
  {
    t[j].Ended? ==>
      && j > 0
      && var id := t[j].id;
         || t[j - 1] == GotHeaders(id, true)
         || t[j - 1] == Accepted(id, [], true)
         || (j > 1 && t[j - 1].GotData? && t[j - 1].data != [] && t[j - 1] == GotData(id, t[j - 1].data, true)
             && t[j - 2] == Accepted(id, t[j - 1].data, true))
  }

  predicate Ends(t: seq<Mark>) {
    forall j :: 0 <= j < |t| ==> EndAt(t, j)
  }

  lemma EndsConcat(a: seq<Mark>, b: seq<Mark>)
    requires Ends(a) && Ends(b)
    ensures Ends(a + b)
  {
    forall j | 0 <= j < |a + b| ensures EndAt(a + b, j) {
      if j < |a| { assert EndAt(a, j); } else { assert EndAt(b, j - |a|); }
    }
  }

  /** The history went on from `c` to `c'`, each new end behind its frame. */
  predicate Goes(c: Conn, c': Conn) {
    c.trace <= c'.trace && Ends(c'.trace[|c.trace|..])
  }

  lemma GoesOn(c: Conn, c': Conn, c'': Conn)
    requires Goes(c, c') && Goes(c', c'')
    ensures Goes(c, c'')
  {
    var a, b := c'.trace[|c.trace|..], c''.trace[|c'.trace|..];
    EndsConcat(a, b);
    assert c''.trace[|c.trace|..] == a + b;
  }

  lemma GoesWith(c: Conn, c': Conn, t: seq<Mark>)
    requires c'.trace == c.trace + t && Ends(t)
    ensures Goes(c, c')
  {
    assert c'.trace[|c.trace|..] == t;
  }

  lemma GoesSame(c: Conn, c': Conn)
    requires c'.trace == c.trace
    ensures Goes(c, c')
  {
    assert c.trace + [] == c.trace;
    GoesWith(c, c', []);
  }

  /** Calls of the local side add nothing but registrations. */
  predicate OnlyRegistered(t: seq<Mark>) {
    forall j :: 0 <= j < |t| ==> t[j].Registered?
  }

  lemma RegisteredConcat(a: seq<Mark>, b: seq<Mark>)
    requires OnlyRegistered(a) && OnlyRegistered(b)
    ensures OnlyRegistered(a + b)
  {
  }

  lemma {:induction false} ActsRegister(c: Conn, ls: seq<Call>)
    ensures c.trace <= Acts(c, ls).trace && OnlyRegistered(Acts(c, ls).trace[|c.trace|..])
    decreases |ls|
  {
    if ls != [] {
      ActFields(c, ls[0]);
      hide Act, Makes, Valid;
      var c1 := Act(c, ls[0]);
      assert OnlyRegistered(c1.trace[|c.trace|..]);
      hide OnlyRegistered;
      ActsRegister(c1, ls[1..]);
      var t := Acts(c1, ls[1..]).trace;
      assert t[|c.trace|..] == c1.trace[|c.trace|..] + t[|c1.trace|..];
      RegisteredConcat(c1.trace[|c.trace|..], t[|c1.trace|..]);
    }
  }

  lemma ActsGo(c: Conn, ls: seq<Call>)
    ensures Goes(c, Acts(c, ls))
  {
    hide Acts;
    ActsRegister(c, ls);
  }

  lemma MakeGoes(c: Conn, id: nat, mark: Mark)
    requires mark.Opened?
    ensures Goes(c, Make(c, id, mark))
  {
    if id !in c.streams {
      MakeFields(c, id, mark);
      hide Make;
      GoesWith(c, Make(c, id, mark), [mark]);
    } else {
      GoesSame(c, c);
    }
  }

  lemma EndRecvSame(c: Conn, id: nat, s: Stream, attached: bool, endStream: bool)
    ensures EndRecv(c, id, s, attached, endStream).trace == c.trace
  {
    hide Valid, Step;
  }

  lemma DropSame(c: Conn, id: nat)
    ensures Drop(c, id).trace == c.trace
  {
    hide Valid, Step;
  }

  /** The marks of a delivery, a callback, and the end of the receiving direction. */
  lemma TellGoes(c: Conn, id: nat, s: Stream, t: seq<Mark>, calls: seq<Call>, attached: bool, endStream: bool)
    requires Ends(t)
    ensures var c1 := Acts(c.(streams := c.streams[id := s], trace := c.trace + t), calls);
            Goes(c, c1) && Goes(c, EndRecv(c1, id, s, attached, endStream))
  {
    hide Acts, EndRecv, Ends;
    var c0 := c.(streams := c.streams[id := s], trace := c.trace + t);
    GoesWith(c, c0, t);
    ActsGo(c0, calls);
    var c1 := Acts(c0, calls);
    GoesOn(c, c0, c1);
    EndRecvSame(c1, id, s, attached, endStream);
    GoesSame(c1, EndRecv(c1, id, s, attached, endStream));
    GoesOn(c, c1, EndRecv(c1, id, s, attached, endStream));
  }

  lemma DeliverHeadersGoes(env: Env, c: Conn, id: nat, contentLength: Option<nat>, endStream: bool)
    requires id in c.streams
    ensures Goes(c, DeliverHeaders(env, c, id, contentLength, endStream).0)
  {
    hide Acts, EndRecv, Goes, Attached, LengthWrong, HandlerCalls, WithLength, Valid;
    var s, told := WithLength(c, id, contentLength), [GotHeaders(id, endStream)];
    var calls := HandlerCalls(env, told, Telling(c, id, s, told, endStream).trace);
    TellGoes(c, id, s, Marks(told, id, endStream), calls, Attached(calls, id), endStream);
  }

  lemma DataMarks(id: nat, body: seq<byte>, endStream: bool)
    ensures var told := if |body| > 0 then [GotData(id, body, endStream)] else [];
            Ends([Accepted(id, body, endStream)] + Marks(told, id, endStream))
  {
    var told := if |body| > 0 then [GotData(id, body, endStream)] else [];
    var t := [Accepted(id, body, endStream)] + Marks(told, id, endStream);
    if body == [] {
      assert t == [Accepted(id, body, endStream)] + (if endStream then [Ended(id)] else []);
    } else {
      assert t == [Accepted(id, body, endStream), GotData(id, body, endStream)]
          + (if endStream then [Ended(id)] else []);
    }
  }

  lemma DeliverDataGoes(env: Env, c: Conn, id: nat, body: seq<byte>, endStream: bool)
    requires id in c.streams
    ensures Goes(c, DeliverData(env, c, id, body, endStream).0)
  {
    DataMarks(id, body, endStream);
    hide Acts, EndRecv, Goes, Attached, LengthWrong, HandlerCalls, Marks, Ends, Valid;
    var s := c.streams[id].(bodyLen := c.streams[id].bodyLen + |body|);
    var told := if |body| > 0 then [GotData(id, body, endStream)] else [];
    var t := [Accepted(id, body, endStream)] + Marks(told, id, endStream);
    Assoc(c.trace, [Accepted(id, body, endStream)], Marks(told, id, endStream));
    var calls := HandlerCalls(env, told, c.trace + t);
    TellGoes(c, id, s, t, calls, Attached(calls, id), endStream);
  }

  lemma FinishHeadersGoes(env: Env, c: Conn, id: nat, block: seq<byte>, endStream: bool)
    ensures Goes(c, FinishHeaders(env, c, id, block, endStream).0)
  {
    hide Goes, Make, CheckRecv, DeliverHeaders, Valid;
    var c1 := c.(blocks := c.blocks + [HeaderBlock(id, block, endStream)]);
    GoesSame(c, c1);
    var v := env.verdict(c1.blocks);
    var (c0, e0) := CheckRecv(c1, id, HeadersKind);
    GoesSame(c, c0);
    if !v.Undecodable? && e0.None? {
      MakeGoes(c0, id, Opened(id));
      var c2 := Make(c0, id, Opened(id));
      GoesOn(c, c0, c2);
      assert Admit(c1, id) == (c2, None);
      if v.Good? {
        DeliverHeadersGoes(env, c2, id, v.contentLength, endStream);
        GoesOn(c, c2, DeliverHeaders(env, c2, id, v.contentLength, endStream).0);
      }
    }
  }

  lemma GiveGoes(c: Conn, id: nat, n: nat)
    ensures Goes(c, GiveRecvWindow(c, id, n).0)
  {
    if GiveRecvWindow(c, id, n).1.Some? {
      GoesSame(c, GiveRecvWindow(c, id, n).0);
    } else {
      GoesWith(c, GiveRecvWindow(c, id, n).0, [Taken(id, n)]);
    }
  }

  lemma OnDataGoes(env: Env, c: Conn, f: Frame)
    ensures Goes(c, OnData(env, c, f).0)
  {
    hide Goes, Unpad, CheckRecv, GiveRecvWindow, DeliverData, Flag, Valid;
    var p := Unpad(f);
    GoesSame(c, c);
    var (c1, e) := CheckRecv(c, f.id, DataKind);
    GoesSame(c, c1);
    if p.Some? && e.None? && f.id in c1.streams {
      GiveGoes(c1, f.id, |f.payload|);
      var (c2, e2) := GiveRecvWindow(c1, f.id, |f.payload|);
      GoesOn(c, c1, c2);
      GiveStays(c1, f.id, |f.payload|);
      if e2.None? {
        DeliverDataGoes(env, c2, f.id, p.value, Flag(f.flags, END_STREAM));
        GoesOn(c, c2, DeliverData(env, c2, f.id, p.value, Flag(f.flags, END_STREAM)).0);
      }
    }
  }

  lemma GiveStays(c: Conn, id: nat, n: nat)
    requires id in c.streams
    ensures id in GiveRecvWindow(c, id, n).0.streams
  {
  }

  lemma OnRSTStreamGoes(env: Env, c: Conn, f: Frame)
    ensures Goes(c, OnRSTStream(env, c, f).0)
  {
    hide Goes, CheckRecv, Acts, Drop, FromBE, Valid;
    var (c1, e) := CheckRecv(c, f.id, ResetKind);
    GoesSame(c, c1);
    if e.None? {
      var told := [GotReset(f.id, FromBE(f.payload))];
      var c2 := c1.(trace := c1.trace + told);
      GoesWith(c1, c2, told);
      GoesOn(c, c1, c2);
      var calls := HandlerCalls(env, told, c2.trace);
      ActsGo(c2, calls);
      GoesOn(c, c2, Acts(c2, calls));
      DropSame(Acts(c2, calls), f.id);
      GoesSame(Acts(c2, calls), Drop(Acts(c2, calls), f.id));
      GoesOn(c, Acts(c2, calls), Drop(Acts(c2, calls), f.id));
    }
  }

  lemma OnHeadersGoes(env: Env, c: Conn, f: Frame)
    ensures Goes(c, OnHeaders(env, c, f).0)
  {
    hide Goes, Unpad, FinishHeaders, FromBE, Flag, Valid;
    var p := Unpad(f);
    GoesSame(c, c);
    if p.Some? {
      var payload := if Flag(f.flags, PRIORITY_FLAG) && |p.value| >= 5 then p.value[5..] else p.value;
      GoesSame(c, c.(hdr := Assembly(true, f.id, payload, Flag(f.flags, END_STREAM))));
      FinishHeadersGoes(env, c, f.id, payload, Flag(f.flags, END_STREAM));
    }
  }

  lemma OnContinuationGoes(env: Env, c: Conn, f: Frame)
    ensures Goes(c, OnContinuation(env, c, f).0)
  {
    hide Goes, FinishHeaders, Flag, Valid;
    GoesSame(c, c);
    var c1 := c.(hdr := c.hdr.(block := c.hdr.block + f.payload));
    GoesSame(c, c1);
    var c2 := c1.(hdr := c1.hdr.(active := false));
    GoesSame(c, c2);
    FinishHeadersGoes(env, c2, f.id, c1.hdr.block, c.hdr.endStream);
    GoesOn(c, c2, FinishHeaders(env, c2, f.id, c1.hdr.block, c.hdr.endStream).0);
  }

  lemma OtherSame(env: Env, c: Conn, f: Frame)
    requires f.ftype != HEADERS && f.ftype != CONTINUATION && f.ftype != DATA && f.ftype != RST_STREAM
    ensures OnFrame(env, c, f).0.trace == c.trace
  {
    hide Step, Valid, ReadSettings, FromBE, Possible;
  }

  lemma OnFrameGoes(env: Env, c: Conn, f: Frame)
    ensures Goes(c, OnFrame(env, c, f).0)
  {
    var c1 := c.(lastId := if f.id > c.lastId then f.id else c.lastId);
    if !GoodShape(f) || (f.ftype != HEADERS && f.ftype != CONTINUATION && f.ftype != DATA && f.ftype != RST_STREAM) {
      if GoodShape(f) { OtherSame(env, c, f); }
      GoesSame(c, OnFrame(env, c, f).0);
    } else {
      hide Goes, OnHeaders, OnContinuation, OnData, OnRSTStream, OnSettings, OnPing, OnPriority, OnConnWindowUpdate,
          OnStreamWindowUpdate, GoodShape, Valid;
      GoesSame(c, c1);
      OnHeadersGoes(env, c1, f);
      OnContinuationGoes(env, c1, f);
      OnDataGoes(env, c1, f);
      OnRSTStreamGoes(env, c1, f);
      GoesOn(c, c1, OnFrame(env, c, f).0);
    }
  }

  lemma {:induction false} RunGoes(env: Env, p: Parser, c: Conn, buf: seq<byte>)
    requires Lawful(CutFrame)
    ensures Goes(c, Run(CutFrame, Callback(env), p, c, buf).h)
    decreases |buf|
  {
    GoesSame(c, c);
    Decided(CutFrame, p, buf, []);
    hide Lawful, CutFrame, Goes, OnFrame;
    var cut := CutFrame(p, buf);
    if cut.Item? {
      var (c', e) := OnFrame(env, c, cut.item);
      OnFrameGoes(env, c, cut.item);
      if e.None? {
        RunGoes(env, cut.next, c', buf[cut.size..]);
        GoesOn(c, c', Run(CutFrame, Callback(env), cut.next, c', buf[cut.size..]).h);
      }
    }
  }

  lemma {:induction false} LiveGoes(env: Env, p: Parser, c: Conn, rest: seq<byte>, inputs: seq<Input>)
    requires Lawful(CutFrame)
    ensures Goes(c, Live(env, p, c, rest, inputs).h)
    decreases |inputs|
  {
    GoesSame(c, c);
    hide Lawful, Goes, Acts, Run, CutFrame;
    if inputs != [] {
      if inputs[0].Local? {
        ActsGo(c, inputs[0].calls);
        var c' := Acts(c, inputs[0].calls);
        LiveGoes(env, p, c', rest, inputs[1..]);
        GoesOn(c, c', Live(env, p, c', rest, inputs[1..]).h);
      } else {
        var buf := rest + inputs[0].chunk;
        RunGoes(env, p, c, buf);
        var r := Run(CutFrame, Callback(env), p, c, buf);
        if r.error.None? {
          LiveGoes(env, r.p, r.h, buf[r.consumed..], inputs[1..]);
          GoesOn(c, r.h, Live(env, r.p, r.h, buf[r.consumed..], inputs[1..]).h);
        }
      }
    }
  }

  /** In every life of a connection, the handler is told of an accepted END_STREAM exactly when
      a header block carried it, or a DATA frame that has bytes behind its padding. */
  lemma EndsAreToldExactly(env: Env, isClient: bool, inputs: seq<Input>, j: nat)
    ensures Lawful(CutFrame)
    ensures var t := Live(env, NewParser, Start(isClient), [], inputs).h.trace;
            j < |t| && t[j].Ended? ==> (Told(t, j) <==> Carried(t, j).None? || Carried(t, j).value != [])
  {
    CutFrameLawful();
    hide Live, Lawful, CutFrame;
    LiveGoes(env, NewParser, Start(isClient), [], inputs);
    var t := Live(env, NewParser, Start(isClient), [], inputs).h.trace;
    assert t[0..] == t;
    if j < |t| { assert EndAt(t, j); }
  }

  /** For one DATA frame: what its delivery adds to the history tells of the end exactly when
      there are bytes to deliver, whatever the handler calls meanwhile. */
  lemma EndIsToldExactly(env: Env, c: Conn, id: nat, body: seq<byte>)
    requires id in c.streams
    ensures var t, t' := c.trace, DeliverData(env, c, id, body, true).0.trace;
            && t + [Accepted(id, body, true)] <= t' && Ended(id) in t'[|t|..]
            && ((exists k :: |t| <= k < |t'| && t'[k].GotData? && t'[k].id == id && t'[k].endStream) <==> body != [])
  {
    DataTrace(env, c, id, body);
    hide DeliverData;
    var n, t' := |c.trace|, DeliverData(env, c, id, body, true).0.trace;
    var own := DataOf(id, body);
    assert own[|own| - 1] == Ended(id) && own[0] == Accepted(id, body, true);
    assert t'[n..][|own| - 1] == t'[n + |own| - 1] == Ended(id);
    if body != [] { assert t'[n + 1] == GotData(id, body, true); }
    forall k | n + |own| <= k < |t'| ensures t'[k].Registered? {
      assert t'[n + |own|..][k - n - |own|].Registered?;
    }
    if body == [] {
      assert own == [Accepted(id, body, true), Ended(id)];
    }
  }

  /** What a DATA frame that ends a stream adds to the history before the handler calls. */
  function DataOf(id: nat, body: seq<byte>): seq<Mark> {
    [Accepted(id, body, true)] + (if body != [] then [GotData(id, body, true)] else []) + [Ended(id)]
  }

  lemma DataTrace(env: Env, c: Conn, id: nat, body: seq<byte>)
    requires id in c.streams
    ensures var t' := DeliverData(env, c, id, body, true).0.trace;
            && c.trace + DataOf(id, body) <= t' && OnlyRegistered(t'[|c.trace| + |DataOf(id, body)|..])
  {
    hide Acts, EndRecv, Attached, LengthWrong, HandlerCalls, Valid, OnlyRegistered;
    var s := c.streams[id].(bodyLen := c.streams[id].bodyLen + |body|);
    var told := if |body| > 0 then [GotData(id, body, true)] else [];
    var c1 := Telling(c.(trace := c.trace + [Accepted(id, body, true)]), id, s, told, true);
    assert c1.trace == c.trace + DataOf(id, body);
    var calls := HandlerCalls(env, told, c1.trace);
    ActsRegister(c1, calls);
    EndRecvSame(Acts(c1, calls), id, s, Attached(calls, id), true);
  }

  // ---- what ends a history ----------------------------------------------------------------------

  /** An error of either kind, of the connection or of one stream, ends the pass over the bytes:
      the history goes on behind a frame exactly when the frame has no error. */
  lemma GoesOnExactly(env: Env, p: Parser, c: Conn, f: Frame, rest: seq<byte>)
    requires FrameOk(p, f)
    ensures Lawful(CutFrame)
    ensures var n, (c', e) := |FrameBytes(f)|, OnFrame(env, c, f);
            var r := Run(CutFrame, Callback(env), p, c, FrameBytes(f) + rest);
            && (r.consumed >= n <==> e.None?)
            && (if e.Some? then r == Outcome(p, c', 0, e)
                else var r' := Run(CutFrame, Callback(env), After(p, f), c', rest);
                    r == r'.(consumed := n + r'.consumed))
  {
    hide OnFrame, FrameBytes, FrameOk, After, CutFrame;
    CutFrameLawful();
    CutUndoesFrame();
    hide Lawful;
    var b := FrameBytes(f) + rest;
    assert CutFrame(p, b) == Item(f, |FrameBytes(f)|, After(p, f));
    assert Callback(env)(c, f) == OnFrame(env, c, f);
    assert b[0..] == b && b[|FrameBytes(f)|..] == rest;
    Turn(CutFrame, Callback(env), p, c, b, 0);
    assert FrameBytes(f) != [] by { FrameNotEmpty(f); }
  }

  lemma FrameNotEmpty(f: Frame)
    ensures FrameBytes(f) != []
  {
  }

  /** A stream that has ended, so that neither HEADERS nor DATA may come on it. */
  predicate Closing(c: Conn, id: nat) {
    id in c.streams && (c.streams[id].state == HalfClosedRemote || c.streams[id].state == Closed)
  }

  /** A header block that is decoded and on a stream of the table or on a new one that the peer
      may open. */
  predicate MayOpen(c: Conn, id: nat) {
    id in c.streams || ((if c.isClient then id % 2 == 0 else id % 2 == 1) && id > c.maxPeer)
  }

  /** A finished header block is refused for its stream: it comes too late, its fields are bad,
      or it ends a request without the body that it declares. */
  predicate BlockRefused(env: Env, c: Conn, id: nat, block: seq<byte>, endStream: bool) {
    var v := env.verdict(c.blocks + [HeaderBlock(id, block, endStream)]);
    && !v.Undecodable? && MayOpen(c, id)
    && (|| Closing(c, id)
        || (id in c.streams && c.streams[id].state == HalfClosedLocal)
        || v.BadFields?
        || (endStream && !c.isClient && v.contentLength.Some?
             && v.contentLength.value != (if id in c.streams then c.streams[id].bodyLen else 0)))
  }

  /** A DATA frame within the credit is refused for its stream: it comes too late, or it ends a
      body of another length than was declared. */
  predicate DataRefused(c: Conn, f: Frame) {
    && f.id in c.streams && Unpad(f).Some?
    && (|| Closing(c, f.id)
        || (&& Flag(f.flags, END_STREAM) && !c.isClient
            && |f.payload| <= c.recvWindow && |f.payload| <= c.streams[f.id].recvWindow
            && c.streams[f.id].declared >= 0 && c.streams[f.id].declared != c.streams[f.id].bodyLen + |Unpad(f).value|))
  }

  /** The frames, of a good shape, that are refused for their stream only. */
  predicate Refused(env: Env, c: Conn, f: Frame)
    requires GoodShape(f)
  {
    if f.ftype == PRIORITY then DependsOn(f.payload) == f.id
    else if f.ftype == WINDOW_UPDATE then
      f.id != 0 && f.id in c.send.streams && f.id in c.streams && FromBE(f.payload) != 0
          && c.send.streams[f.id] + FromBE(f.payload) > MAX_WINDOW
    else if f.ftype == DATA then DataRefused(c, f)
    else if f.ftype == CONTINUATION then
      c.hdr.active && c.hdr.id == f.id && Flag(f.flags, END_HEADERS)
          && BlockRefused(env, c, f.id, c.hdr.block + f.payload, c.hdr.endStream)
    else if f.ftype == HEADERS && Unpad(f).Some? then
      var b := Unpad(f).value;
      if Flag(f.flags, PRIORITY_FLAG) then
        |b| >= 5 && (DependsOn(b) == f.id
            || (Flag(f.flags, END_HEADERS) && BlockRefused(env, c, f.id, b[5..], Flag(f.flags, END_STREAM))))
      else Flag(f.flags, END_HEADERS) && BlockRefused(env, c, f.id, b, Flag(f.flags, END_STREAM))
    else false
  }

  /** A finished header block that ends the connection: HPACK cannot decode it, or its stream
      is not there and is none that the peer may open now. */
  predicate BlockBreaks(env: Env, c: Conn, id: nat, block: seq<byte>, endStream: bool) {
    env.verdict(c.blocks + [HeaderBlock(id, block, endStream)]).Undecodable? || !MayOpen(c, id)
  }

  /** A setting with a value that is not allowed. */
  predicate BadSetting(x: Setting) {
    || (x.id == 2 && x.value > 1)
    || (x.id == 4 && x.value > MAX_WINDOW)
    || (x.id == 5 && !(DEFAULT_MAX_FRAME_SIZE <= x.value <= MAX_FRAME_SIZE))
  }

  predicate AnyBad(ss: seq<Setting>) {
    exists k :: 0 <= k < |ss| && BadSetting(ss[k])
  }

  /** A DATA frame that ends the connection: bad padding, no such stream, or more than the
      credit of the connection or of a stream that may still get data. */
  predicate DataBreaks(c: Conn, f: Frame) {
    || Unpad(f).None?
    || f.id !in c.streams
    || (!Closing(c, f.id) && (|f.payload| > c.recvWindow || |f.payload| > c.streams[f.id].recvWindow))
  }

  /** The frames, of a good shape, that end the connection by an error of its own. */
  predicate Breaks(env: Env, c: Conn, f: Frame)
    requires GoodShape(f)
  {
    if f.ftype == SETTINGS then !Flag(f.flags, ACK) && AnyBad(ReadSettings(f.payload))
    else if f.ftype == WINDOW_UPDATE then
      || FromBE(f.payload) == 0
      || (if f.id == 0 then c.send.conn + FromBE(f.payload) > MAX_WINDOW
           else f.id !in c.streams || f.id !in c.send.streams)
    else if f.ftype == PUSH_PROMISE then true
    else if f.ftype == RST_STREAM then f.id !in c.streams
    else if f.ftype == DATA then DataBreaks(c, f)
    else if f.ftype == CONTINUATION then
      || !c.hdr.active
      || c.hdr.id != f.id
      || (Flag(f.flags, END_HEADERS) && BlockBreaks(env, c, f.id, c.hdr.block + f.payload, c.hdr.endStream))
    else if f.ftype == HEADERS then
      if Unpad(f).None? then true
      else
        var b := Unpad(f).value;
        if Flag(f.flags, PRIORITY_FLAG) then
          || |b| < 5
          || (DependsOn(b) != f.id && Flag(f.flags, END_HEADERS)
               && BlockBreaks(env, c, f.id, b[5..], Flag(f.flags, END_STREAM)))
        else Flag(f.flags, END_HEADERS) && BlockBreaks(env, c, f.id, b, Flag(f.flags, END_STREAM))
    else false
  }

  predicate OfStream(e: Option<Error>) {
    e.Some? && e.value.StreamError?
  }

  predicate OfConn(e: Option<Error>) {
    e.Some? && !e.value.StreamError?
  }

  /** These and no others end the history with the error of one stream. */
  lemma StreamErrorsExactly(env: Env, c: Conn, f: Frame)
    requires GoodShape(f)
    ensures OfStream(OnFrame(env, c, f).1) <==> Refused(env, c, f)
  {
    hide *;
    ErrorsExactly(env, c, f);
  }

  /** And these with an error of the connection: bad padding or settings, an unknown stream or
      one that may not be opened, a header block that cannot be decoded or was not begun, an
      increment of 0 or beyond the largest window, more data than the credit, a push. */
  lemma ConnErrorsExactly(env: Env, c: Conn, f: Frame)
    requires GoodShape(f)
    ensures OfConn(OnFrame(env, c, f).1) <==> Breaks(env, c, f)
  {
    hide *;
    ErrorsExactly(env, c, f);
  }

  lemma ErrorsExactly(env: Env, c: Conn, f: Frame)
    requires GoodShape(f)
    ensures OfStream(OnFrame(env, c, f).1) <==> Refused(env, c, f)
    ensures OfConn(OnFrame(env, c, f).1) <==> Breaks(env, c, f)
  {
    hide Valid;
    var c1 := c.(lastId := if f.id > c.lastId then f.id else c.lastId);
    if f.ftype == HEADERS || f.ftype == CONTINUATION || f.ftype == DATA {
      RefusedLooksAt(env, c, c1, f);
      hide Refused, Breaks, OnHeaders, OnContinuation, OnData;
      if f.ftype == HEADERS { HeadersRefused(env, c1, f); }
      if f.ftype == CONTINUATION { ContinuationRefused(env, c1, f); }
      if f.ftype == DATA { DataRefusedExactly(env, c1, f); }
    } else if f.ftype == WINDOW_UPDATE {
      hide OnStreamWindowUpdate, OnConnWindowUpdate, FromBE;
      UpdateRefused(c1, f);
      ConnUpdateRefused(c, f);
    } else {
      hide OnFrame;
      OthersNotRefused(env, c, f);
    }
  }

  lemma RefusedLooksAt(env: Env, c: Conn, c': Conn, f: Frame)
    requires GoodShape(f) && c' == c.(lastId := c'.lastId)
    ensures Refused(env, c, f) == Refused(env, c', f) && Breaks(env, c, f) == Breaks(env, c', f)
  {
    hide FromBE, Unpad, Flag, Valid, AnyBad, ReadSettings;
  }

  lemma BlockRefusedExactly(env: Env, c: Conn, id: nat, block: seq<byte>, endStream: bool)
    ensures OfStream(FinishHeaders(env, c, id, block, endStream).1) <==> BlockRefused(env, c, id, block, endStream)
    ensures OfConn(FinishHeaders(env, c, id, block, endStream).1) <==> BlockBreaks(env, c, id, block, endStream)
  {
    var c1 := c.(blocks := c.blocks + [HeaderBlock(id, block, endStream)]);
    var (c0, e0) := CheckRecv(c1, id, HeadersKind);
    if e0.None? && id !in c.streams {
      MakeFields(c0, id, Opened(id));
    }
    hide Make, Acts, EndRecv, HandlerCalls, Attached, Telling, Valid;
  }

  lemma HeadersRefused(env: Env, c: Conn, f: Frame)
    requires f.ftype == HEADERS && GoodShape(f)
    ensures OfStream(OnHeaders(env, c, f).1) <==> Refused(env, c, f)
    ensures OfConn(OnHeaders(env, c, f).1) <==> Breaks(env, c, f)
  {
    hide FinishHeaders, BlockRefused, BlockBreaks, FromBE, Unpad, Valid;
    var p := Unpad(f);
    if p.Some? {
      var payload := if Flag(f.flags, PRIORITY_FLAG) && |p.value| >= 5 then p.value[5..] else p.value;
      BlockRefusedExactly(env, c, f.id, payload, Flag(f.flags, END_STREAM));
    }
  }

  lemma ContinuationRefused(env: Env, c: Conn, f: Frame)
    requires f.ftype == CONTINUATION && GoodShape(f)
    ensures OfStream(OnContinuation(env, c, f).1) <==> Refused(env, c, f)
    ensures OfConn(OnContinuation(env, c, f).1) <==> Breaks(env, c, f)
  {
    hide FinishHeaders, BlockRefused, BlockBreaks, Valid, Flag;
    var c1 := c.(hdr := c.hdr.(block := c.hdr.block + f.payload, active := false));
    BlockRefusedExactly(env, c1, f.id, c1.hdr.block, c.hdr.endStream);
    BlockLooksAt(env, c, c1, f.id, c1.hdr.block, c.hdr.endStream);
  }

  lemma BlockLooksAt(env: Env, c: Conn, c': Conn, id: nat, block: seq<byte>, endStream: bool)
    requires c' == c.(hdr := c'.hdr)
    ensures BlockRefused(env, c, id, block, endStream) == BlockRefused(env, c', id, block, endStream)
    ensures BlockBreaks(env, c, id, block, endStream) == BlockBreaks(env, c', id, block, endStream)
  {
  }

  lemma DataRefusedExactly(env: Env, c: Conn, f: Frame)
    requires f.ftype == DATA && GoodShape(f)
    ensures OfStream(OnData(env, c, f).1) <==> Refused(env, c, f)
    ensures OfConn(OnData(env, c, f).1) <==> Breaks(env, c, f)
  {
    var p := Unpad(f);
    hide Unpad, Flag, Acts, EndRecv, HandlerCalls, Attached, Telling, Valid;
    if p.Some? && f.id in c.streams && !Closing(c, f.id) {
      var (c1, e) := CheckRecv(c, f.id, DataKind);
      GiveStays(c1, f.id, |f.payload|);
      var (c2, e2) := GiveRecvWindow(c1, f.id, |f.payload|);
      if e2.None? { GiveKeepsWindows(c1, f.id, |f.payload|); }
    }
  }

  lemma UpdateRefused(c: Conn, f: Frame)
    requires f.ftype == WINDOW_UPDATE && |f.payload| == 4
    ensures OfStream(OnStreamWindowUpdate(c, f).1) <==>
              && f.id in c.streams && f.id in c.send.streams
              && FromBE(f.payload) != 0 && c.send.streams[f.id] + FromBE(f.payload) > MAX_WINDOW
    ensures OfConn(OnStreamWindowUpdate(c, f).1) <==>
              f.id !in c.streams || f.id !in c.send.streams || FromBE(f.payload) == 0
  {
    Powers();
    var inc := FromBE(f.payload);
    if f.id in c.streams && f.id in c.send.streams {
      OverflowTestIsExact(c.send.streams[f.id], inc);
      hide Overflows, FromBE, Int32;
      var s' := c.send.(streams := c.send.streams[f.id := Int32(c.send.streams[f.id] + Int32(inc))]);
      FlushSucceeds(s');
    }
    hide Flush, Overflows, FromBE, Int32;
  }

  lemma ConnUpdateRefused(c: Conn, f: Frame)
    requires |f.payload| == 4
    ensures !OfStream(OnConnWindowUpdate(c, f).1)
    ensures OfConn(OnConnWindowUpdate(c, f).1) <==>
              FromBE(f.payload) == 0 || c.send.conn + FromBE(f.payload) > MAX_WINDOW
  {
    Powers();
    OverflowTestIsExact(c.send.conn, FromBE(f.payload));
    hide Flush, Overflows, FromBE, Int32, Valid;
    FlushSucceeds(c.send.(conn := Int32(c.send.conn + Int32(FromBE(f.payload)))));
  }

  lemma OthersNotRefused(env: Env, c: Conn, f: Frame)
    requires GoodShape(f) && f.ftype != HEADERS && f.ftype != CONTINUATION && f.ftype != DATA
               && f.ftype != WINDOW_UPDATE
    ensures OfStream(OnFrame(env, c, f).1) <==> (f.ftype == PRIORITY && DependsOn(f.payload) == f.id)
    ensures OfConn(OnFrame(env, c, f).1) <==> Breaks(env, c, f)
  {
    if f.ftype == SETTINGS { SettingsErrors(c.send, ReadSettings(f.payload)); }
    hide AnyBad, ApplySettings, ReadSettings, Acts, FromBE, Valid, Drop, HandlerCalls;
  }

  lemma {:induction false} SettingsErrors(s: Send, ss: seq<Setting>)
    ensures !OfStream(ApplySettings(s, ss).1) && (OfConn(ApplySettings(s, ss).1) <==> AnyBad(ss))
    decreases |ss|
  {
    if ss != [] {
      assert AnyBad(ss) <==> BadSetting(ss[0]) || AnyBad(ss[1..]) by {
        if AnyBad(ss[1..]) {
          var k :| 0 <= k < |ss[1..]| && BadSetting(ss[1..][k]);
          assert ss[k + 1] == ss[1..][k];
        }
        if AnyBad(ss) && !BadSetting(ss[0]) {
          var k :| 0 <= k < |ss| && BadSetting(ss[k]);
          assert ss[1..][k - 1] == ss[k];
        }
      }
      hide AnyBad;
      if ApplySetting(s, ss[0]).Some? { SettingsErrors(ApplySetting(s, ss[0]).value, ss[1..]); }
    }
  }

  // ---- failing inputs ------------------------------------------------------------------------------

  /** Every header block is good, and the handler calls nothing. */
  function Steady(contentLength: Option<nat>): Env {
    Env(_ => Good(contentLength), _ => [])
  }

  /** A request without a body so far, and a DATA frame without bytes that ends it. */
  function Request(id: nat): Frame { Frame(HEADERS, 4, id, []) }

  function EmptyEnd(id: nat): Frame { Frame(DATA, 1, id, []) }

  lemma RequestOpens(len: Option<nat>, c: Conn, id: nat)
    requires !c.isClient && id % 2 == 1 && id > c.maxPeer && id !in c.streams
    ensures var (c', e) := OnFrame(Steady(len), c, Request(id));
            && e.None? && c'.trace == c.trace + [Opened(id), GotHeaders(id, false)] && c'.maxPeer == id
            && !c'.isClient && c'.recvWindow == c.recvWindow && c'.localInitial == c.localInitial
            && c'.streams == c.streams[id := Stream(Open, c.localInitial, if len.Some? then len.value else -1, 0)]
  {
    var lastId := if id > c.lastId then id else c.lastId;
    var c1 := c.(lastId := lastId, blocks := c.blocks + [HeaderBlock(id, [], false)], maxPeer := id);
    MakeFields(c1, id, Opened(id));
    var c2 := Make(c1, id, Opened(id));
    hide Make, Valid;
    assert [Opened(id)] + [GotHeaders(id, false)] == [Opened(id), GotHeaders(id, false)];
    Assoc(c.trace, [Opened(id)], [GotHeaders(id, false)]);
    assert Marks([GotHeaders(id, false)], id, false) == [GotHeaders(id, false)];
  }

  lemma EmptyEndComes(len: Option<nat>, c: Conn, id: nat)
    requires !c.isClient && 0 < id && id in c.streams && c.streams[id].state == Open && c.streams[id].bodyLen == 0
    requires c.recvWindow >= 0 && c.streams[id].recvWindow >= 0
    ensures var (c', e) := OnFrame(Steady(len), c, EmptyEnd(id));
            && c'.trace == c.trace + [Taken(id, 0), Accepted(id, [], true), Ended(id)]
            && (forall j :: j in c.streams && j != id ==> j in c'.streams && c'.streams[j] == c.streams[j])
            && e == (if c.streams[id].declared > 0 then Some(StreamError(id, PROTOCOL_ERROR)) else None)
  {
    hide Valid;
    var t := c.trace;
    assert [Taken(id, 0)] + [Accepted(id, [], true)] + [Ended(id)] == [Taken(id, 0), Accepted(id, [], true), Ended(id)];
    assert t + [Taken(id, 0)] + [Accepted(id, [], true)] + [Ended(id)]
        == t + [Taken(id, 0), Accepted(id, [], true), Ended(id)];
    assert Marks([], id, true) == [Ended(id)];
  }

  lemma FirstFrames(p: Parser, id: nat)
    requires 0 < id < 0x8000_0000 && !p.awaiting
    ensures FrameOk(p, Request(id)) && FrameOk(p, EmptyEnd(id))
    ensures !After(p, Request(id)).awaiting && !After(p, EmptyEnd(id)).awaiting
  {
  }

  /** The input that shows an end the handler is not told of: a request, and an empty DATA frame
      with END_STREAM. */
  lemma EndCanBeUntold()
    ensures Lawful(CutFrame)
    ensures var bytes := FrameBytes(Request(1)) + (FrameBytes(EmptyEnd(1)) + []);
            var r := Live(Steady(None), NewParser, Start(false), [], [Arrive(bytes)]);
            && r.error.None?
            && r.h.trace == [Opened(1), GotHeaders(1, false), Taken(1, 0), Accepted(1, [], true), Ended(1)]
            && !Told(r.h.trace, 4)
  {
    hide CutFrame, Lawful, OnFrame, FrameBytes, FrameOk, After, Start;
    var env, p, c := Steady(None), NewParser, Start(false);
    var bytes := FrameBytes(Request(1)) + (FrameBytes(EmptyEnd(1)) + []);
    StartFields();
    RequestOpens(None, c, 1);
    var c1 := OnFrame(env, c, Request(1)).0;
    EmptyEndComes(None, c1, 1);
    var c2 := OnFrame(env, c1, EmptyEnd(1)).0;
    FirstFrames(p, 1);
    GoesOnExactly(env, p, c, Request(1), FrameBytes(EmptyEnd(1)) + []);
    var p1 := After(p, Request(1));
    FirstFrames(p1, 1);
    GoesOnExactly(env, p1, c1, EmptyEnd(1), []);
    NothingMore(env, After(p1, EmptyEnd(1)), c2);
    assert [] + bytes == bytes;
    assert c2.trace == [Opened(1), GotHeaders(1, false)] + [Taken(1, 0), Accepted(1, [], true), Ended(1)];
    OneArrival(env, p, c, bytes);
  }

  lemma OneArrival(env: Env, p: Parser, c: Conn, bytes: seq<byte>)
    requires Lawful(CutFrame)
    ensures var r, l := Run(CutFrame, Callback(env), p, c, bytes), Live(env, p, c, [], [Arrive(bytes)]);
            l.h == r.h && l.error == r.error
  {
    hide Lawful, CutFrame;
    assert [] + bytes == bytes;
    assert [Arrive(bytes)][1..] == [];
    hide Run;
  }

  lemma NothingMore(env: Env, p: Parser, c: Conn)
    requires Lawful(CutFrame)
    ensures Run(CutFrame, Callback(env), p, c, []) == Outcome(p, c, 0, None)
  {
    Decided(CutFrame, p, [], []);
    hide Lawful, CutFrame;
  }

  lemma StartFields()
    ensures var c := Start(false); !c.isClient && c.maxPeer == 0 && c.streams == map[] && c.trace == []
                                   && c.recvWindow == c.localInitial == MAX_RECV_WINDOW
  {
  }

  /** The input that shows that a stream error ends more than its stream: two requests, of which
      the first ends without the body it declares. The second stream is open, but the bytes of
      its frame are not even consumed. */
  lemma StreamErrorEndsAll(later: seq<byte>)
    ensures Lawful(CutFrame)
    ensures var before := FrameBytes(Request(1)) + (FrameBytes(Request(3)) + (FrameBytes(EmptyEnd(1)) + later));
            var r := Run(CutFrame, Callback(Steady(Some(5))), NewParser, Start(false), before);
            && r.error == Some(StreamError(1, PROTOCOL_ERROR))
            && 3 in r.h.streams && r.h.streams[3].state == Open
            && r.consumed == |FrameBytes(Request(1))| + |FrameBytes(Request(3))|
  {
    hide CutFrame, Lawful, OnFrame, FrameBytes, FrameOk, After, Start;
    var env, p, c := Steady(Some(5)), NewParser, Start(false);
    var rest3 := FrameBytes(EmptyEnd(1)) + later;
    StartFields();
    RequestOpens(Some(5), c, 1);
    var c1 := OnFrame(env, c, Request(1)).0;
    RequestOpens(Some(5), c1, 3);
    var c2 := OnFrame(env, c1, Request(3)).0;
    EmptyEndComes(Some(5), c2, 1);
    FirstFrames(p, 1);
    GoesOnExactly(env, p, c, Request(1), FrameBytes(Request(3)) + rest3);
    var p1 := After(p, Request(1));
    FirstFrames(p1, 3);
    GoesOnExactly(env, p1, c1, Request(3), rest3);
    var p2 := After(p1, Request(3));
    FirstFrames(p2, 1);
    GoesOnExactly(env, p2, c2, EmptyEnd(1), later);
  }

  // ---- a peer that keeps to its credit ------------------------------------------------------------------

  /** A DATA frame is within what the increments that the peer can have seen allow, on both
      levels: it has read some first part of what we wrote. */
  ghost predicate WithinCredit(c: Conn, f: Frame) {
    f.ftype == DATA && f.id in c.streams ==>
      exists seen: nat ::
        && seen <= |c.out|
        && TakenAll(c.trace) + |f.payload| <= DEFAULT_INITIAL_WINDOW + Granted(c.out[..seen], 0)
        && TakenOf(c.trace, f.id) + |f.payload| <= c.localInitial + Granted(c.out[..seen], f.id)
  }

  /** In one pass over `buf`, every DATA frame is. */
  ghost predicate Keeps(env: Env, p: Parser, c: Conn, buf: seq<byte>)
    requires Lawful(CutFrame)
    decreases |buf|
  {
    Decided(CutFrame, p, buf, []);
    var cut := CutFrame(p, buf);
    cut.Item? ==>
      && WithinCredit(c, cut.item)
      && var (c', e) := OnFrame(env, c, cut.item);
         e.None? ==> Keeps(env, cut.next, c', buf[cut.size..])
  }

  /** In a whole life. */
  ghost predicate KeepsAlways(env: Env, p: Parser, c: Conn, rest: seq<byte>, inputs: seq<Input>)
    requires Lawful(CutFrame)
    decreases |inputs|
  {
    if inputs == [] then true
    else if inputs[0].Local? then KeepsAlways(env, p, Acts(c, inputs[0].calls), rest, inputs[1..])
    else
      var buf := rest + inputs[0].chunk;
      var r := Run(CutFrame, Callback(env), p, c, buf);
      Keeps(env, p, c, buf) && (r.error.None? ==> KeepsAlways(env, r.p, r.h, buf[r.consumed..], inputs[1..]))
  }

  lemma DataNotRefused(env: Env, c: Conn, f: Frame)
    requires Inv(c) && f.ftype == DATA && GoodShape(f) && WithinCredit(c, f)
    ensures OnData(env, c, f).1 != Some(FlowControl)
  {
    hide Inv, Unpad, Flag, WithinCredit, CheckRecv, GiveRecvWindow, Acts, EndRecv, HandlerCalls, Attached, Telling,
        Valid;
    var (c1, e) := CheckRecv(c, f.id, DataKind);
    CheckErrors(c, f.id);
    if f.id in c.streams { CreditGiven(c, c1, f); }
  }

  lemma CheckErrors(c: Conn, id: nat)
    ensures CheckRecv(c, id, DataKind).1 != Some(FlowControl)
  {
  }

  lemma CreditGiven(c: Conn, c': Conn, f: Frame)
    requires Inv(c) && f.ftype == DATA && f.id != 0 && f.id in c.streams && WithinCredit(c, f)
               && c' == c.(maxPeer := c'.maxPeer)
    ensures GiveRecvWindow(c', f.id, |f.payload|).1.None?
  {
    hide Inv, GiveRecvWindow, Granted, TakenAll, TakenOf;
    var seen: nat :| && seen <= |c.out|
                     && TakenAll(c.trace) + |f.payload| <= DEFAULT_INITIAL_WINDOW + Granted(c.out[..seen], 0)
                     && TakenOf(c.trace, f.id) + |f.payload| <= c.localInitial + Granted(c.out[..seen], f.id);
    InvCredit(c);
    CreditSame(c, c');
    PeerWithinCreditIsAccepted(c', f.id, |f.payload|, seen);
  }

  lemma InvCredit(c: Conn)
    requires Inv(c)
    ensures CreditInv(c)
  {
  }

  lemma CreditSame(c: Conn, c': Conn)
    requires CreditInv(c) && c' == c.(maxPeer := c'.maxPeer)
    ensures CreditInv(c')
  {
  }

  lemma FrameNotRefused(env: Env, c: Conn, f: Frame)
    requires Inv(c) && GoodShape(f) && WithinCredit(c, f)
    ensures OnFrame(env, c, f).1 != Some(FlowControl)
  {
    var c1 := c.(lastId := if f.id > c.lastId then f.id else c.lastId);
    hide Inv, OnHeaders, OnContinuation, OnData, OnRSTStream, OnStreamWindowUpdate, OnConnWindowUpdate, OnSettings,
        OnPing, OnPriority, Valid;
    UnseenKeeps(c, c1);
    if f.ftype == DATA {
      assert WithinCredit(c1, f);
      DataNotRefused(env, c1, f);
    } else if f.ftype == WINDOW_UPDATE {
      UpdateErrors(c, f);
      UpdateErrors(c1, f);
    } else {
      HeaderErrors(env, c1, f);
      OtherErrors(env, c1, f);
      OtherErrors(env, c, f);
    }
  }

  lemma HeaderErrors(env: Env, c: Conn, f: Frame)
    ensures OnHeaders(env, c, f).1 != Some(FlowControl) && OnContinuation(env, c, f).1 != Some(FlowControl)
  {
    hide Acts, EndRecv, Make, FromBE, Unpad, Flag, Valid, Telling, HandlerCalls, Attached, WithLength;
  }

  lemma OtherErrors(env: Env, c: Conn, f: Frame)
    ensures OnRSTStream(env, c, f).1 != Some(FlowControl) && OnSettings(c, f).1 != Some(FlowControl)
    ensures OnPing(c, f).1 != Some(FlowControl) && OnPriority(c, f).1 != Some(FlowControl)
  {
    SettingsRefused(c.send, ReadSettings(f.payload));
    hide ReadSettings, ApplySettings, Acts, Drop, FromBE, Flag, Valid, HandlerCalls;
  }

  lemma UpdateErrors(c: Conn, f: Frame)
    requires |f.payload| == 4
    ensures OnConnWindowUpdate(c, f).1 != Some(FlowControl) && OnStreamWindowUpdate(c, f).1 != Some(FlowControl)
  {
    Powers();
    var inc := FromBE(f.payload);
    hide Flush, Overflows, FromBE, Int32, Valid;
    FlushSucceeds(c.send.(conn := Int32(c.send.conn + Int32(inc))));
    if f.id in c.send.streams {
      FlushSucceeds(c.send.(streams := c.send.streams[f.id := Int32(c.send.streams[f.id] + Int32(inc))]));
    }
  }

  lemma {:induction false} SettingsRefused(s: Send, ss: seq<Setting>)
    ensures ApplySettings(s, ss).1 != Some(FlowControl)
    decreases |ss|
  {
    if ss != [] && ApplySetting(s, ss[0]).Some? { SettingsRefused(ApplySetting(s, ss[0]).value, ss[1..]); }
  }

  lemma {:induction false} PassNotRefused(env: Env, p: Parser, c: Conn, buf: seq<byte>)
    requires Lawful(CutFrame) && Inv(c) && Agree(p, c) && Keeps(env, p, c, buf)
    ensures Run(CutFrame, Callback(env), p, c, buf).error != Some(FlowControl)
    decreases |buf|
  {
    Decided(CutFrame, p, buf, []);
    CutShape(p, buf);
    CutErrors(p, buf);
    hide Lawful, CutFrame, Inv, Agree, OnFrame, After, GoodShape, CheckContinuation, Valid, WithinCredit;
    var cut := CutFrame(p, buf);
    if cut.Item? {
      var (c', e) := OnFrame(env, c, cut.item);
      FrameNotRefused(env, c, cut.item);
      OnFrameKeeps(env, c, cut.item);
      if e.None? {
        OnFrameAgrees(env, p, c, cut.item);
        PassNotRefused(env, cut.next, c', buf[cut.size..]);
      }
    }
  }

  lemma CutErrors(p: Parser, buf: seq<byte>)
    ensures CutFrame(p, buf) != Fail(FlowControl)
  {
    hide GoodShape, FromBE;
  }

  lemma {:induction false} LifeNotRefused(env: Env, p: Parser, c: Conn, rest: seq<byte>, inputs: seq<Input>)
    requires Lawful(CutFrame) && Inv(c) && Agree(p, c) && KeepsAlways(env, p, c, rest, inputs)
    ensures Live(env, p, c, rest, inputs).error != Some(FlowControl)
    decreases |inputs|
  {
    hide Lawful, Inv, Acts, Run, CutFrame, Keeps;
    if inputs != [] {
      if inputs[0].Local? {
        ActsKeepInv(c, inputs[0].calls);
        ActsKeepHdr(c, inputs[0].calls);
        LifeNotRefused(env, p, Acts(c, inputs[0].calls), rest, inputs[1..]);
      } else {
        var buf := rest + inputs[0].chunk;
        RunKeeps(env, p, c, buf);
        PassNotRefused(env, p, c, buf);
        var r := Run(CutFrame, Callback(env), p, c, buf);
        if r.error.None? { LifeNotRefused(env, r.p, r.h, buf[r.consumed..], inputs[1..]); }
      }
    }
  }

  /** In every life of a connection in which each DATA frame stays within the credit that its
      peer has seen by then, no frame is refused for flow control. */
  lemma PoliteLifeIsNotRefused(env: Env, isClient: bool, inputs: seq<Input>)
    ensures Lawful(CutFrame)
    ensures KeepsAlways(env, NewParser, Start(isClient), [], inputs) ==>
              Live(env, NewParser, Start(isClient), [], inputs).error != Some(FlowControl)
  {
    CutFrameLawful();
    StartInv(isClient);
    assert Agree(NewParser, Start(isClient));
    hide Live, Lawful, CutFrame, Start, KeepsAlways, Agree;
    if KeepsAlways(env, NewParser, Start(isClient), [], inputs) {
      LifeNotRefused(env, NewParser, Start(isClient), [], inputs);
    }
  }
}
