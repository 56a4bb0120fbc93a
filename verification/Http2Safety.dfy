/** What holds over every run of an HTTP/2 connection, whatever bytes arrive, whatever the
    header decoder says and whatever the handler does in its callbacks. */
module Http2Safety {
  import opened Bytes
  import opened Framing
  import opened Http2Frame
  import opened Http2Send
  import opened Http2Conn

  // ---- stream numbers -----------------------------------------------------------------

  /** The streams the peer opened, in order. */
  function OpenedIds(t: seq<Mark>): seq<nat> {
    if t == [] then []
    else
      var x := t[|t| - 1];
      OpenedIds(t[..|t| - 1]) + (if x.Opened? then [x.id] else [])
  }

  lemma OpenedSnoc(t: seq<Mark>, x: Mark)
    ensures OpenedIds(t + [x]) == if x.Opened? then OpenedIds(t) + [x.id] else OpenedIds(t)
  {
    assert (t + [x])[..|t|] == t;
  }

  predicate Increasing(s: seq<nat>) {
    forall i, j :: 0 <= i < j < |s| ==> s[i] < s[j]
  }

  /** Strictly increasing, of the peer's parity, and none above the largest on record. */
  ghost predicate IdsInv(isClient: bool, t: seq<Mark>, maxPeer: nat) {
    var ids := OpenedIds(t);
    && Increasing(ids)
    && forall k :: 0 <= k < |ids| ==> ids[k] % 2 == (if isClient then 0 else 1) && ids[k] <= maxPeer
  }

  // ---- ended streams --------------------------------------------------------------------

  /** END_STREAM was accepted on the stream and the local side registered it no more since. */
  predicate Over(t: seq<Mark>, id: nat) {
    if t == [] then false
    else
      var x := t[|t| - 1];
      if x == Ended(id) then true
      else if x == Registered(id) then false
      else Over(t[..|t| - 1], id)
  }

  lemma OverSnoc(t: seq<Mark>, x: Mark, id: nat)
    ensures Over(t + [x], id) == (x == Ended(id) || (x != Registered(id) && Over(t, id)))
  {
    assert (t + [x])[..|t|] == t;
  }

  predicate Content(x: Mark) {
    x.GotHeaders? || x.GotData?
  }

  /** No HEADERS and no DATA of a stream that is over ever reached the handler. */
  predicate Quiet(t: seq<Mark>) {
    t == [] || (var x := t[|t| - 1]; Quiet(t[..|t| - 1]) && (Content(x) ==> !Over(t[..|t| - 1], x.id)))
  }

  lemma QuietSnoc(t: seq<Mark>, x: Mark)
    ensures Quiet(t + [x]) == (Quiet(t) && (Content(x) ==> !Over(t, x.id)))
  {
    assert (t + [x])[..|t|] == t;
  }

  predicate Halted(s: Stream) {
    s.state == HalfClosedRemote || s.state == Closed
  }

  ghost predicate EndInv(t: seq<Mark>, streams: map<nat, Stream>, maxPeer: nat) {
    forall id: nat :: Over(t, id) ==> id <= maxPeer && (id in streams ==> Halted(streams[id]))
  }

  /** The same but for one stream, whose callback is running: it is still in the table as it
      was, or the handler closed it and any new one is not over. */
  ghost predicate EndInvBut(t: seq<Mark>, streams: map<nat, Stream>, maxPeer: nat, id: nat, s: Stream, attached: bool) {
    && (forall j: nat :: Over(t, j) ==> j <= maxPeer && (j != id && j in streams ==> Halted(streams[j])))
    && (if attached then id in streams && streams[id] == s else id in streams ==> !Over(t, id))
  }

  // ---- receive credit ------------------------------------------------------------------------

  /** The credit that WINDOW_UPDATE frames for `id` gave, 0 being the connection. */
  function Granted(out: seq<Frame>, id: nat): nat {
    if out == [] then 0
    else
      var f := out[|out| - 1];
      Granted(out[..|out| - 1], id) + (if f.ftype == WINDOW_UPDATE && f.id == id then FromBE(f.payload) else 0)
  }

  function TakenAll(t: seq<Mark>): nat {
    if t == [] then 0 else TakenAll(t[..|t| - 1]) + (if t[|t| - 1].Taken? then t[|t| - 1].n else 0)
  }

  function TakenOf(t: seq<Mark>, id: nat): nat {
    if t == [] then 0
    else TakenOf(t[..|t| - 1], id) + (if t[|t| - 1].Taken? && t[|t| - 1].id == id then t[|t| - 1].n else 0)
  }

  lemma TakenSnoc(t: seq<Mark>, x: Mark, id: nat)
    ensures TakenAll(t + [x]) == TakenAll(t) + (if x.Taken? then x.n else 0)
    ensures TakenOf(t + [x], id) == TakenOf(t, id) + (if x.Taken? && x.id == id then x.n else 0)
  {
    assert (t + [x])[..|t|] == t;
  }

  predicate NoCredit(fs: seq<Frame>) {
    forall k :: 0 <= k < |fs| ==> fs[k].ftype != WINDOW_UPDATE
  }

  lemma {:induction false} GrantedSame(out: seq<Frame>, fs: seq<Frame>, id: nat)
    requires NoCredit(fs)
    ensures Granted(out + fs, id) == Granted(out, id)
    decreases |fs|
  {
    if fs == [] {
      assert out + fs == out;
    } else {
      var init := fs[..|fs| - 1];
      assert (out + fs)[..|out + fs| - 1] == out + init;
      GrantedSame(out, init, id);
    }
  }

  lemma {:induction false} DataIsNoCredit(cs: seq<Chunk>)
    ensures NoCredit(DataFrames(cs))
  {
    if cs != [] { DataIsNoCredit(cs[1..]); }
  }

  lemma {:induction false} HeadersAreNoCredit(max: nat, id: nat, block: seq<byte>, endStream: bool)
    requires max > 0
    ensures NoCredit(BlockFrames(max, id, block, endStream))
  {
    if |block| > max { ContinuationsAreNoCredit(max, id, block[max..]); }
  }

  lemma {:induction false} ContinuationsAreNoCredit(max: nat, id: nat, block: seq<byte>)
    requires max > 0
    ensures NoCredit(Continuations(max, id, block))
    decreases |block|
  {
    if block != [] { ContinuationsAreNoCredit(max, id, block[Min(max, |block|)..]); }
  }

  /** Initial credit plus credit given minus bytes accepted is what each window says. */
  ghost predicate CreditInv(c: Conn) {
    && c.recvWindow == DEFAULT_INITIAL_WINDOW + Granted(c.out, 0) - TakenAll(c.trace)
    && (forall id: nat :: id in c.streams && id != 0 ==>
          c.streams[id].recvWindow == c.localInitial + Granted(c.out, id) - TakenOf(c.trace, id))
    && (forall id: nat :: id != 0 ==> Granted(c.out, id) == TakenOf(c.trace, id))
  }

  // ---- the invariant ------------------------------------------------------------------------------

  ghost predicate Inv(c: Conn) {
    && c.send.streams.Keys == c.streams.Keys
    && IdsInv(c.isClient, c.trace, c.maxPeer)
    && EndInv(c.trace, c.streams, c.maxPeer)
    && Quiet(c.trace)
    && CreditInv(c)
  }

  lemma StartInv(isClient: bool)
    ensures Inv(Start(isClient))
  {
    var c := Start(isClient);
    FromTo(MAX_RECV_WINDOW - DEFAULT_INITIAL_WINDOW, 4) by { Powers(); }
    assert [] + c.out[..1] == c.out[..1] && NoCredit(c.out[..1]);
    forall id: nat ensures Granted(c.out, id) ==
              if isClient || id != 0 then 0 else MAX_RECV_WINDOW - DEFAULT_INITIAL_WINDOW
    {
      GrantedSame([], c.out[..1], id);
      if isClient { assert c.out == c.out[..1]; }
    }
  }

  lemma NewInv(isClient: bool)
    ensures Inv(NewConn(isClient))
  {
  }

  // ---- local calls -----------------------------------------------------------------------------

  lemma SendingFrame(c: Conn, e: Event, id: nat)
    requires Possible(e)
    ensures Granted(Sending(c, e).0.out, id) == Granted(c.out, id)
  {
    StepKeepsValid(c.send, e);
    DataIsNoCredit(Step(c.send, e).frames);
    GrantedSame(c.out, DataFrames(Step(c.send, e).frames), id);
  }

  lemma {:induction false} SlicesKeys(s: Send, id: nat, data: seq<byte>, end: bool)
    requires s.maxFrame > 0
    ensures Slices(s, id, data, end).s.streams.Keys == s.streams.Keys
    decreases |data|
  {
    if data != [] && Avail(s, id) > 0 {
      var n := Min(Min(s.maxFrame, |data|), Avail(s, id));
      SlicesKeys(Charge(s, id, n), id, data[n..], end);
    }
  }

  lemma {:induction false} FlushKeys(s: Send)
    ensures Flush(s).s.streams.Keys == s.streams.Keys
    decreases |s.pending|
  {
    if s.pending != [] && 0 < Avail(s, s.pending[0].id) && |s.pending[0].data| <= Avail(s, s.pending[0].id) {
      FlushKeys(Charge(s, s.pending[0].id, |s.pending[0].data|).(pending := s.pending[1..]));
    }
  }

  lemma {:induction false} SettingsKeys(s: Send, ss: seq<Setting>)
    ensures ApplySettings(s, ss).0.streams == s.streams
    decreases |ss|
  {
    if ss != [] && ApplySetting(s, ss[0]).Some? { SettingsKeys(ApplySetting(s, ss[0]).value, ss[1..]); }
  }

  /** Only Register and Forget change which streams have a send window. */
  lemma StepKeys(s: Send, e: Event)
    requires Valid(s)
    ensures Step(s, e).s.streams.Keys ==
              if e.Register? then s.streams.Keys + {e.id} else if e.Forget? then s.streams.Keys - {e.id}
                  else s.streams.Keys
  {
    hide Int32, Slices, Flush, ApplySettings;
    match e
    case WriteData(id, data, end) => SlicesKeys(s, id, data, end);
    case ConnUpdate(inc) => FlushKeys(s.(conn := Int32(s.conn + Int32(inc))));
    case StreamUpdate(id, inc) =>
      if id in s.streams {
        FlushKeys(s.(streams := s.streams[id := Int32(s.streams[id] + Int32(inc))]));
      }
    case PeerSettings(ss) => SettingsKeys(s, ss);
    case Register(id) =>
    case Forget(id) =>
  }

  /** A step of the sending side touches nothing of the receiving side. */
  lemma SendingKeeps(c: Conn, e: Event)
    requires Possible(e)
    ensures var c' := Sending(c, e).0;
            && c' == c.(send := c'.send, out := c'.out)
            && c'.send.streams.Keys ==
                 (if e.Register? then c.send.streams.Keys + {e.id} else if e.Forget? then c.send.streams.Keys - {e.id}
                     else c.send.streams.Keys)
            && forall id: nat :: Granted(c'.out, id) == Granted(c.out, id)
  {
    forall id: nat ensures Granted(Sending(c, e).0.out, id) == Granted(c.out, id) { SendingFrame(c, e, id); }
    StepKeepsValid(c.send, e);
    StepKeys(c.send, e);
    hide Step, Granted, Valid;
  }

  /** The part of the invariant that a running callback does not disturb. */
  ghost predicate Base(c: Conn) {
    && c.send.streams.Keys == c.streams.Keys
    && IdsInv(c.isClient, c.trace, c.maxPeer)
    && Quiet(c.trace)
    && CreditInv(c)
  }

  /** `c'` is `c` with other frames queued or written on the sending side. */
  ghost predicate SentOnly(c: Conn, c': Conn) {
    && c' == c.(send := c'.send, out := c'.out)
    && c'.send.streams.Keys == c.send.streams.Keys
    && forall id: nat :: Granted(c'.out, id) == Granted(c.out, id)
  }

  lemma SentOnlyKeeps(c: Conn, c': Conn)
    requires Base(c) && SentOnly(c, c')
    ensures Base(c')
  {
    hide IdsInv, Quiet, Granted;
  }

  /** Making a stream under a mark that is no content and no credit. */
  lemma MakeKeeps(c: Conn, id: nat, mark: Mark)
    requires Base(c) && (mark == Registered(id) || mark == Opened(id))
    requires mark == Opened(id) && id !in c.streams ==> IdsInv(c.isClient, c.trace + [mark], c.maxPeer)
    ensures Base(Make(c, id, mark))
  {
    if id !in c.streams {
      MakeFields(c, id, mark);
      MakeCredit(c, id, mark);
      MarkKeeps(c.isClient, c.trace, c.maxPeer, mark);
      hide CreditInv, Make, IdsInv, Quiet;
    }
  }

  lemma MarkKeeps(isClient: bool, t: seq<Mark>, maxPeer: nat, mark: Mark)
    requires IdsInv(isClient, t, maxPeer) && Quiet(t) && !Content(mark)
    requires mark.Opened? ==> IdsInv(isClient, t + [mark], maxPeer)
    ensures IdsInv(isClient, t + [mark], maxPeer) && Quiet(t + [mark])
  {
    OpenedSnoc(t, mark);
    QuietSnoc(t, mark);
    hide OpenedIds, Quiet, Over, Increasing;
  }

  lemma MakeFields(c: Conn, id: nat, mark: Mark)
    requires id !in c.streams
    ensures var c' := Make(c, id, mark);
            && c'.streams == c.streams[id := Stream(Open, c.localInitial, -1, 0)] && c'.trace == c.trace + [mark]
            && c' == c.(send := c'.send, out := c'.out, streams := c'.streams, trace := c'.trace)
            && (c.send.streams.Keys == c.streams.Keys ==> c'.send.streams.Keys == c'.streams.Keys)
            && forall j: nat :: Granted(c'.out, j) == Granted(c.out, j)
  {
    SendingKeeps(c, Event.Register(id));
    hide Sending, Granted, Valid;
  }

  lemma MakeCredit(c: Conn, id: nat, mark: Mark)
    requires CreditInv(c) && !mark.Taken? && id !in c.streams
    ensures CreditInv(Make(c, id, mark))
  {
    MakeFields(c, id, mark);
    var c' := Make(c, id, mark);
    hide Make;
    forall j: nat ensures TakenOf(c'.trace, j) == TakenOf(c.trace, j) && TakenAll(c'.trace) == TakenAll(c.trace) {
      TakenSnoc(c.trace, mark, j);
    }
    hide Granted, TakenOf, TakenAll, Sending;
  }

  lemma DropKeeps(c: Conn, id: nat)
    requires Base(c)
    ensures Base(Drop(c, id))
  {
    SendingKeeps(c, Forget(id));
    hide Quiet, IdsInv, Granted, TakenOf, TakenAll, Sending;
  }

  lemma BlockKeeps(c: Conn, id: nat, block: seq<byte>, endStream: bool)
    ensures SentOnly(c, c.(out := c.out + BlockFrames(c.send.maxFrame, id, block, endStream)))
  {
    HeadersAreNoCredit(c.send.maxFrame, id, block, endStream);
    forall j: nat ensures Granted(c.out + BlockFrames(c.send.maxFrame, id, block, endStream), j) == Granted(c.out, j) {
      GrantedSame(c.out, BlockFrames(c.send.maxFrame, id, block, endStream), j);
    }
  }

  lemma ActKeeps(c: Conn, l: Call)
    requires Base(c)
    ensures Base(Act(c, l))
  {
    hide Base, Make, Drop, Sending, BlockFrames;
    match l
    case Register(id) => MakeKeeps(c, id, Registered(id));
    case Close(id) => DropKeeps(c, id);
    case SendData(id, data, end) =>
      SendingKeeps(c, WriteData(id, data, end));
      SentOnlyKeeps(c, Act(c, l));
    case SendHeaders(id, block, endStream) =>
      MakeKeeps(c, id, Registered(id));
      var c' := Make(c, id, Registered(id));
      BlockKeeps(c', id, block, endStream);
      SentOnlyKeeps(c', Act(c, l));
  }

  /** What a local call does to the receiving side. */
  predicate Makes(c: Conn, l: Call) {
    (l.Register? || l.SendHeaders?) && l.id !in c.streams
  }

  lemma ActFields(c: Conn, l: Call)
    ensures var c' := Act(c, l);
            && c' == c.(send := c'.send, out := c'.out, streams := c'.streams, trace := c'.trace)
            && c'.trace == (if Makes(c, l) then c.trace + [Registered(l.id)] else c.trace)
            && c'.streams == (if Makes(c, l) then c.streams[l.id := Stream(Open, c.localInitial, -1, 0)]
                              else if l.Close? then c.streams - {l.id} else c.streams)
  {
    hide Sending, BlockFrames, Valid;
    match l
    case Register(id) => if id !in c.streams { MakeFields(c, id, Registered(id)); }
    case Close(id) => SendingKeeps(c, Forget(id));
    case SendData(id, data, end) => SendingKeeps(c, WriteData(id, data, end));
    case SendHeaders(id, block, endStream) => if id !in c.streams { MakeFields(c, id, Registered(id)); }
  }

  lemma ActEnds(c: Conn, l: Call)
    requires EndInv(c.trace, c.streams, c.maxPeer)
    ensures var c' := Act(c, l); EndInv(c'.trace, c'.streams, c'.maxPeer)
  {
    ActFields(c, l);
    hide Act, Over;
    if Makes(c, l) {
      forall id: nat ensures Over(c.trace + [Registered(l.id)], id) == (id != l.id && Over(c.trace, id)) {
        OverSnoc(c.trace, Registered(l.id), id);
      }
    }
  }

  lemma ActEndsBut(c: Conn, l: Call, id: nat, s: Stream, attached: bool)
    requires EndInvBut(c.trace, c.streams, c.maxPeer, id, s, attached)
    ensures var c' := Act(c, l); EndInvBut(c'.trace, c'.streams, c'.maxPeer, id, s, attached && l != Close(id))
  {
    ActFields(c, l);
    hide Act, Over;
    if Makes(c, l) {
      forall j: nat ensures Over(c.trace + [Registered(l.id)], j) == (j != l.id && Over(c.trace, j)) {
        OverSnoc(c.trace, Registered(l.id), j);
      }
    }
  }

  /** Whatever the local side does between frames keeps the invariant. */
  lemma {:induction false} ActsKeepInv(c: Conn, ls: seq<Call>)
    requires Inv(c)
    ensures Inv(Acts(c, ls))
    decreases |ls|
  {
    if ls != [] {
      ActKeeps(c, ls[0]);
      ActEnds(c, ls[0]);
      hide Base, EndInv, Act;
      ActsKeepInv(Act(c, ls[0]), ls[1..]) by { InvParts(Act(c, ls[0])); }
    }
  }

  lemma InvParts(c: Conn)
    ensures Inv(c) <==> Base(c) && EndInv(c.trace, c.streams, c.maxPeer)
  {
  }

  /** And what it does inside a callback keeps all but the stream of the callback. */
  lemma {:induction false} ActsInCallback(c: Conn, ls: seq<Call>, id: nat, s: Stream, attached: bool)
    requires Base(c) && EndInvBut(c.trace, c.streams, c.maxPeer, id, s, attached)
    ensures var c' := Acts(c, ls);
            Base(c') && EndInvBut(c'.trace, c'.streams, c'.maxPeer, id, s, attached && Attached(ls, id))
    decreases |ls|
  {
    hide Base, EndInvBut, Act;
    if ls != [] {
      ActKeeps(c, ls[0]);
      ActEndsBut(c, ls[0], id, s, attached);
      ActsInCallback(Act(c, ls[0]), ls[1..], id, s, attached && ls[0] != Close(id));
      assert Attached(ls, id) == (ls[0] != Close(id) && Attached(ls[1..], id));
    }
  }

  // ---- callbacks ------------------------------------------------------------------------------------

  predicate TellsOf(told: seq<Mark>, id: nat) {
    told == [] || (|told| == 1 && Content(told[0]) && told[0].id == id)
  }

  lemma MarksKeep(t: seq<Mark>, told: seq<Mark>, id: nat, endStream: bool, j: nat)
    requires TellsOf(told, id)
    ensures var t' := t + Marks(told, id, endStream);
            && Over(t', j) == ((endStream && j == id) || Over(t, j))
            && OpenedIds(t') == OpenedIds(t) && TakenAll(t') == TakenAll(t) && TakenOf(t', j) == TakenOf(t, j)
            && (Quiet(t) && !Over(t, id) ==> Quiet(t'))
  {
    var t1 := t + told;
    if told == [] {
      assert t1 == t;
    } else {
      assert t1 == t + [told[0]];
      OverSnoc(t, told[0], j);
      OpenedSnoc(t, told[0]);
      TakenSnoc(t, told[0], j);
      QuietSnoc(t, told[0]);
    }
    if endStream {
      assert t + Marks(told, id, endStream) == t1 + [Ended(id)];
      OverSnoc(t1, Ended(id), j);
      OpenedSnoc(t1, Ended(id));
      TakenSnoc(t1, Ended(id), j);
      QuietSnoc(t1, Ended(id));
    } else {
      assert t + Marks(told, id, endStream) == t1;
    }
  }

  ghost predicate MayTell(c: Conn, id: nat, s: Stream, told: seq<Mark>) {
    && id in c.streams && !Halted(c.streams[id]) && !Halted(s) && s.recvWindow == c.streams[id].recvWindow
    && id <= c.maxPeer && TellsOf(told, id)
  }

  /** Replacing a stream by one with the same window. */
  lemma SwapKeeps(c: Conn, id: nat, s: Stream)
    requires Base(c) && id in c.streams && s.recvWindow == c.streams[id].recvWindow
    ensures Base(c.(streams := c.streams[id := s]))
  {
    hide Quiet, IdsInv, Granted, TakenAll, TakenOf, Valid;
    assert c.streams[id := s].Keys == c.streams.Keys;
  }

  lemma MarksKeepBase(c: Conn, id: nat, told: seq<Mark>, endStream: bool)
    requires Base(c) && !Over(c.trace, id) && TellsOf(told, id)
    ensures Base(c.(trace := c.trace + Marks(told, id, endStream)))
  {
    var t' := c.trace + Marks(told, id, endStream);
    forall j: nat
      ensures OpenedIds(t') == OpenedIds(c.trace) && Quiet(t')
      ensures TakenAll(t') == TakenAll(c.trace) && TakenOf(t', j) == TakenOf(c.trace, j)
    {
      MarksKeep(c.trace, told, id, endStream, j);
    }
    hide Over, Quiet, OpenedIds, TakenAll, TakenOf, Granted, Increasing, Marks, Valid;
    assert OpenedIds(t') == OpenedIds(c.trace) && Quiet(t') && TakenAll(t') == TakenAll(c.trace) by {
      var j: nat := 0;
      assert TakenOf(t', j) == TakenOf(c.trace, j);
    }
  }

  lemma TellingKeeps(c: Conn, id: nat, s: Stream, told: seq<Mark>, endStream: bool)
    requires Inv(c) && MayTell(c, id, s, told)
    ensures var c' := Telling(c, id, s, told, endStream);
            && Base(c')
            && EndInvBut(c'.trace, c'.streams, c'.maxPeer, id, s, true)
            && (!endStream ==> EndInv(c'.trace, c'.streams, c'.maxPeer))
  {
    assert !Over(c.trace, id);
    assert Base(c) by { InvParts(c); }
    SwapKeeps(c, id, s);
    MarksKeepBase(c.(streams := c.streams[id := s]), id, told, endStream);
    hide Base;
    var t' := c.trace + Marks(told, id, endStream);
    forall j: nat ensures Over(t', j) == ((endStream && j == id) || Over(c.trace, j)) {
      MarksKeep(c.trace, told, id, endStream, j);
    }
    hide Over, Marks, Inv, Valid;
    assert EndInv(c.trace, c.streams, c.maxPeer) by { InvParts(c); }
  }

  lemma EndRecvKeeps(c: Conn, id: nat, s: Stream, attached: bool)
    requires Base(c) && EndInvBut(c.trace, c.streams, c.maxPeer, id, s, attached)
    ensures Inv(EndRecv(c, id, s, attached, true))
  {
    var s' := s.(state := if s.state == Open then HalfClosedRemote
                         else if s.state == HalfClosedLocal then Closed else s.state);
    var c' := if attached then c.(streams := c.streams[id := s']) else c;
    if attached { SwapKeeps(c, id, s'); }
    hide Base, Over, Valid;
    assert EndInv(c'.trace, c'.streams, c'.maxPeer);
    if s'.state == Closed {
      ActKeeps(c', Close(id));
      ActEnds(c', Close(id));
    }
    InvParts(EndRecv(c, id, s, attached, true));
  }

  /** A callback and what follows it keep the invariant, whatever the handler calls. */
  lemma CallbackKeeps(c: Conn, id: nat, s: Stream, told: seq<Mark>, endStream: bool, calls: seq<Call>)
    requires Inv(c) && MayTell(c, id, s, told)
    ensures var c1 := Acts(Telling(c, id, s, told, endStream), calls);
            Base(c1) && Inv(EndRecv(c1, id, s, Attached(calls, id), endStream))
  {
    TellingKeeps(c, id, s, told, endStream);
    var c' := Telling(c, id, s, told, endStream);
    hide Base, EndInv, EndInvBut, Telling, Acts, MayTell, Attached;
    ActsInCallback(c', calls, id, s, true);
    if endStream {
      EndRecvKeeps(Acts(c', calls), id, s, Attached(calls, id));
    } else {
      InvParts(c');
      ActsKeepInv(c', calls);
    }
  }

  // ---- received frames --------------------------------------------------------------------------------

  lemma RaiseKeeps(c: Conn, maxPeer: nat)
    requires Inv(c) && maxPeer >= c.maxPeer
    ensures Inv(c.(maxPeer := maxPeer))
  {
    hide Over, Quiet, OpenedIds, Granted, TakenAll, TakenOf, Valid, Increasing;
  }

  lemma NewIdKeeps(isClient: bool, t: seq<Mark>, maxPeer: nat, id: nat)
    requires IdsInv(isClient, t, maxPeer) && id > maxPeer && id % 2 == (if isClient then 0 else 1)
    ensures IdsInv(isClient, t + [Opened(id)], id)
  {
    OpenedSnoc(t, Opened(id));
    hide OpenedIds;
  }

  lemma CheckRecvKeeps(c: Conn, id: nat, kind: Kind)
    requires Inv(c)
    ensures Inv(CheckRecv(c, id, kind).0)
    ensures CheckRecv(c, id, kind).1.None? && kind == HeadersKind && id !in c.streams ==>
              IdsInv(c.isClient, c.trace + [Opened(id)], id) && CheckRecv(c, id, kind).0.maxPeer == id
                  && !Over(c.trace, id)
    ensures CheckRecv(c, id, kind).1.None? && (kind == HeadersKind || kind == DataKind) && id in c.streams ==>
              !Halted(c.streams[id])
  {
    RaiseKeeps(c, CheckRecv(c, id, kind).0.maxPeer);
    if CheckRecv(c, id, kind).1.None? && kind == HeadersKind && id !in c.streams {
      assert IdsInv(c.isClient, c.trace, c.maxPeer) && EndInv(c.trace, c.streams, c.maxPeer);
      hide Inv, IdsInv, Over, Valid;
      NewIdKeeps(c.isClient, c.trace, c.maxPeer, id);
    } else {
      hide Inv, IdsInv, Over, Valid;
    }
  }

  lemma OpenKeeps(c: Conn, id: nat)
    requires Inv(c) && (id !in c.streams ==>
               IdsInv(c.isClient, c.trace + [Opened(id)], c.maxPeer) && !Over(c.trace, id))
    ensures Inv(Make(c, id, Opened(id)))
  {
    var c' := Make(c, id, Opened(id));
    InvParts(c);
    if id !in c.streams {
      MakeKeeps(c, id, Opened(id));
      MakeFields(c, id, Opened(id));
      hide Base, Make, Over, Inv;
      forall j: nat ensures Over(c.trace + [Opened(id)], j) == Over(c.trace, j) { OverSnoc(c.trace, Opened(id), j); }
      assert EndInv(c'.trace, c'.streams, c'.maxPeer);
      InvParts(c');
    }
  }

  lemma DeliverHeadersKeeps(env: Env, c: Conn, id: nat, contentLength: Option<nat>, endStream: bool)
    requires Inv(c) && id in c.streams && !Halted(c.streams[id]) && id <= c.maxPeer
    ensures Inv(DeliverHeaders(env, c, id, contentLength, endStream).0)
  {
    hide Inv, Acts, EndRecv, Attached, LengthWrong, Valid, HandlerCalls, Telling;
    var s := WithLength(c, id, contentLength);
    var told := [GotHeaders(id, endStream)];
    var calls := HandlerCalls(env, told, Telling(c, id, s, told, endStream).trace);
    CallbackKeeps(c, id, s, told, endStream, calls);
  }

  lemma AdmitKeeps(c: Conn, id: nat)
    requires Inv(c)
    ensures var (c', e) := Admit(c, id);
            Inv(c') && (e.None? ==> id in c'.streams && !Halted(c'.streams[id]) && id <= c'.maxPeer)
  {
    var (c1, e) := CheckRecv(c, id, HeadersKind);
    CheckRecvKeeps(c, id, HeadersKind);
    hide Inv, CheckRecv, Make, Valid, IdsInv;
    if e.None? {
      OpenKeeps(c1, id);
      OpenedAlive(c1, id);
    }
  }

  lemma FinishHeadersKeeps(env: Env, c: Conn, id: nat, block: seq<byte>, endStream: bool)
    requires Inv(c)
    ensures Inv(FinishHeaders(env, c, id, block, endStream).0)
  {
    hide Inv, Admit, DeliverHeaders, Valid;
    var c1 := c.(blocks := c.blocks + [HeaderBlock(id, block, endStream)]);
    var v := env.verdict(c1.blocks);
    UnseenKeeps(c, c1);
    AdmitKeeps(c1, id);
    var (c2, e) := Admit(c1, id);
    if v.Good? && e.None? {
      DeliverHeadersKeeps(env, c2, id, v.contentLength, endStream);
    }
  }

  /** The invariant looks at neither the header assembly nor the other bookkeeping. */
  lemma UnseenKeeps(c: Conn, c': Conn)
    requires Inv(c)
    requires c' == c.(lastId := c'.lastId, hdr := c'.hdr, closed := c'.closed, blocks := c'.blocks)
    ensures Inv(c')
  {
    hide IdsInv, EndInv, Quiet, Granted, TakenAll, TakenOf, Valid;
  }

  lemma OpenedAlive(c: Conn, id: nat)
    requires id in c.streams ==> !Halted(c.streams[id])
    requires id <= c.maxPeer
    ensures var c' := Make(c, id, Opened(id)); id in c'.streams && !Halted(c'.streams[id]) && id <= c'.maxPeer
  {
    if id !in c.streams { MakeFields(c, id, Opened(id)); }
  }

  lemma GrantedSnoc(out: seq<Frame>, f: Frame, id: nat)
    ensures Granted(out + [f], id)
              == Granted(out, id) + (if f.ftype == WINDOW_UPDATE && f.id == id then FromBE(f.payload) else 0)
  {
    assert (out + [f])[..|out|] == out;
  }

  lemma CreditWorth(id: nat, n: nat)
    requires n < 0x1_0000_0000
    ensures FromBE(CreditFrame(id, n).payload) == n
  {
    FromTo(n, 4) by { Powers(); }
  }

  /** A DATA frame is refused for flow control exactly when it exceeds what was granted and
      not yet used up, for the connection or for its stream. */
  lemma RejectedExactly(c: Conn, id: nat, n: nat)
    requires CreditInv(c) && id != 0 && id in c.streams
    ensures GiveRecvWindow(c, id, n).1.Some? <==>
              || TakenAll(c.trace) + n > DEFAULT_INITIAL_WINDOW + Granted(c.out, 0)
              || TakenOf(c.trace, id) + n > c.localInitial + Granted(c.out, id)
    ensures GiveRecvWindow(c, id, n).1.Some? ==> GiveRecvWindow(c, id, n).1.value == FlowControl
  {
    hide Granted, TakenAll, TakenOf, Valid;
  }

  /** Accepting a DATA frame gives all its credit back, so every window is what it was. */
  lemma GiveKeepsWindows(c: Conn, id: nat, n: nat)
    requires id in c.streams && GiveRecvWindow(c, id, n).1.None?
    ensures var c' := GiveRecvWindow(c, id, n).0;
            && c'.recvWindow == c.recvWindow && c'.streams == c.streams && c'.trace == c.trace + [Taken(id, n)]
            && c' == c.(out := c'.out, trace := c'.trace)
            && c'.out == (if n == 0 then c.out else c.out + [CreditFrame(0, n), CreditFrame(id, n)])
  {
    var c1 := Deduct(c, id, n);
    var s := c1.streams[id];
    assert Deduct(c1, id, -(n as int)).streams[id] == c.streams[id];
    assert Deduct(c1, id, -(n as int)).streams == c.streams;
    if n > 0 { assert c.out + [CreditFrame(0, n)] + [CreditFrame(id, n)]
        == c.out + [CreditFrame(0, n), CreditFrame(id, n)]; }
  }

  lemma GiveKeepsCredit(c: Conn, id: nat, n: nat)
    requires CreditInv(c) && id != 0 && id in c.streams && n < 0x1_0000_0000 && GiveRecvWindow(c, id, n).1.None?
    ensures CreditInv(GiveRecvWindow(c, id, n).0)
  {
    GiveKeepsWindows(c, id, n);
    var c' := GiveRecvWindow(c, id, n).0;
    hide GiveRecvWindow;
    forall j: nat
      ensures TakenAll(c'.trace) == TakenAll(c.trace) + n
                && TakenOf(c'.trace, j) == TakenOf(c.trace, j) + (if j == id then n else 0)
      ensures Granted(c'.out, j) == Granted(c.out, j) + (if j == 0 || j == id then n else 0)
    {
      TakenSnoc(c.trace, Taken(id, n), j);
      if n > 0 { TwoCredits(c.out, id, n, j); }
    }
    assert TakenAll(c'.trace) == TakenAll(c.trace) + n by { assert TakenOf(c'.trace, id) == TakenOf(c.trace, id) + n; }
    hide TakenAll, TakenOf, Granted, Valid;
  }

  lemma TwoCredits(out: seq<Frame>, id: nat, n: nat, j: nat)
    requires id != 0 && n < 0x1_0000_0000
    ensures Granted(out + [CreditFrame(0, n), CreditFrame(id, n)], j)
              == Granted(out, j) + (if j == 0 || j == id then n else 0)
  {
    CreditWorth(0, n);
    CreditWorth(id, n);
    GrantedSnoc(out, CreditFrame(0, n), j);
    GrantedSnoc(out + [CreditFrame(0, n)], CreditFrame(id, n), j);
    assert out + [CreditFrame(0, n), CreditFrame(id, n)] == out + [CreditFrame(0, n)] + [CreditFrame(id, n)];
  }

  lemma GiveKeepsInv(c: Conn, id: nat, n: nat)
    requires Inv(c) && id != 0 && id in c.streams && n < 0x1_0000_0000 && GiveRecvWindow(c, id, n).1.None?
    ensures Inv(GiveRecvWindow(c, id, n).0)
  {
    GiveKeepsWindows(c, id, n);
    GiveKeepsCredit(c, id, n);
    hide CreditInv, GiveRecvWindow;
    OpenedSnoc(c.trace, Taken(id, n));
    QuietSnoc(c.trace, Taken(id, n));
    forall j: nat ensures Over(c.trace + [Taken(id, n)], j) == Over(c.trace, j) { OverSnoc(c.trace, Taken(id, n), j); }
    hide Over, OpenedIds, Quiet, Increasing;
  }

  lemma OnHeadersKeeps(env: Env, c: Conn, f: Frame)
    requires Inv(c)
    ensures Inv(OnHeaders(env, c, f).0)
  {
    var p := Unpad(f);
    hide Inv, FinishHeaders, FromBE, Unpad, Valid;
    if p.Some? {
      var payload := if Flag(f.flags, PRIORITY_FLAG) && |p.value| >= 5 then p.value[5..] else p.value;
      UnseenKeeps(c, c.(hdr := Assembly(true, f.id, payload, Flag(f.flags, END_STREAM))));
      FinishHeadersKeeps(env, c, f.id, payload, Flag(f.flags, END_STREAM));
    }
  }

  lemma OnContinuationKeeps(env: Env, c: Conn, f: Frame)
    requires Inv(c)
    ensures Inv(OnContinuation(env, c, f).0)
  {
    hide Inv, FinishHeaders, Valid;
    var c1 := c.(hdr := c.hdr.(block := c.hdr.block + f.payload));
    UnseenKeeps(c, c1);
    var c2 := c1.(hdr := c1.hdr.(active := false));
    UnseenKeeps(c, c2);
    FinishHeadersKeeps(env, c2, f.id, c1.hdr.block, c.hdr.endStream);
  }

  /** The part that holds even after an error. */
  ghost predicate Safe(c: Conn) {
    IdsInv(c.isClient, c.trace, c.maxPeer) && Quiet(c.trace)
  }

  /** Marks that are neither content nor credit. */
  lemma NoteKeeps(c: Conn, x: Mark)
    requires Inv(c) && (x.GotReset? || x.Accepted?)
    ensures Inv(c.(trace := c.trace + [x]))
  {
    OpenedSnoc(c.trace, x);
    QuietSnoc(c.trace, x);
    forall j: nat
      ensures Over(c.trace + [x], j) == Over(c.trace, j)
      ensures TakenOf(c.trace + [x], j) == TakenOf(c.trace, j) && TakenAll(c.trace + [x]) == TakenAll(c.trace)
    {
      OverSnoc(c.trace, x, j);
      TakenSnoc(c.trace, x, j);
    }
    assert TakenAll(c.trace + [x]) == TakenAll(c.trace) by { TakenSnoc(c.trace, x, 0); }
    hide Over, OpenedIds, Quiet, TakenAll, TakenOf, Granted, Increasing, Valid;
  }

  lemma DeliverDataKeeps(env: Env, c: Conn, id: nat, body: seq<byte>, endStream: bool)
    requires Inv(c) && id in c.streams && !Halted(c.streams[id]) && id <= c.maxPeer
    ensures Safe(DeliverData(env, c, id, body, endStream).0)
    ensures DeliverData(env, c, id, body, endStream).1.None? ==> Inv(DeliverData(env, c, id, body, endStream).0)
  {
    hide Inv, Safe, Base, Acts, EndRecv, Attached, LengthWrong, Valid, HandlerCalls, Telling;
    var s := c.streams[id].(bodyLen := c.streams[id].bodyLen + |body|);
    var told := if |body| > 0 then [GotData(id, body, endStream)] else [];
    var c0 := c.(trace := c.trace + [Accepted(id, body, endStream)]);
    NoteKeeps(c, Accepted(id, body, endStream));
    var c1 := Telling(c0, id, s, told, endStream);
    var calls := HandlerCalls(env, told, c1.trace);
    CallbackKeeps(c0, id, s, told, endStream, calls);
    BaseSafe(Acts(c1, calls));
    InvSafe(EndRecv(Acts(c1, calls), id, s, Attached(calls, id), endStream));
  }

  lemma OnDataKeeps(env: Env, c: Conn, f: Frame)
    requires Inv(c) && f.id != 0 && |f.payload| < 0x1_0000_0000
    ensures Safe(OnData(env, c, f).0)
    ensures OnData(env, c, f).1.None? ==> Inv(OnData(env, c, f).0)
  {
    hide Inv, Safe, Valid, Unpad, CheckRecv, GiveRecvWindow, DeliverData, Flag;
    var p := Unpad(f);
    CheckRecvKeeps(c, f.id, DataKind);
    var (c1, e) := CheckRecv(c, f.id, DataKind);
    InvSafe(c);
    InvSafe(c1);
    if p.Some? && e.None? && f.id in c1.streams {
      GiveSafe(c1, f.id, |f.payload|);
      var (c2, e2) := GiveRecvWindow(c1, f.id, |f.payload|);
      if e2.None? {
        GiveKeepsInv(c1, f.id, |f.payload|);
        GiveKeepsWindows(c1, f.id, |f.payload|);
        DeliverDataKeeps(env, c2, f.id, p.value, Flag(f.flags, END_STREAM));
      }
    }
  }

  lemma InvSafe(c: Conn)
    ensures Inv(c) ==> Safe(c)
  {
  }

  lemma BaseSafe(c: Conn)
    ensures Base(c) ==> Safe(c)
  {
  }

  lemma GiveSafe(c: Conn, id: nat, n: nat)
    requires Safe(c)
    ensures Safe(GiveRecvWindow(c, id, n).0)
  {
    OpenedSnoc(c.trace, Taken(id, n));
    QuietSnoc(c.trace, Taken(id, n));
    hide OpenedIds, Quiet, Over, Valid, Increasing;
  }

  lemma OnRSTStreamKeeps(env: Env, c: Conn, f: Frame)
    requires Inv(c)
    ensures Inv(OnRSTStream(env, c, f).0)
  {
    CheckRecvKeeps(c, f.id, ResetKind);
    var (c1, e) := CheckRecv(c, f.id, ResetKind);
    hide Inv, Acts, CheckRecv, Valid;
    if e.None? {
      var told := [GotReset(f.id, FromBE(f.payload))];
      NoteKeeps(c1, told[0]);
      var c2 := c1.(trace := c1.trace + told);
      ActsKeepInv(c2, HandlerCalls(env, told, c2.trace));
      var c3 := Acts(c2, HandlerCalls(env, told, c2.trace));
      ActsKeepInv(c3, [Close(f.id)]);
      assert Acts(c3, [Close(f.id)]) == Drop(c3, f.id) by { OneAct(c3, Close(f.id)); }
    }
  }

  lemma OneAct(c: Conn, l: Call)
    ensures Acts(c, [l]) == Act(c, l)
  {
    assert [l][1..] == [];
    assert Acts(Act(c, l), []) == Act(c, l);
    hide Act;
  }

  lemma SendingKeepsInv(c: Conn, e: Event)
    requires Inv(c) && Possible(e) && !e.Register? && !e.Forget?
    ensures Inv(Sending(c, e).0)
  {
    SendingKeeps(c, e);
    hide Sending, IdsInv, EndInv, Quiet, Granted, TakenAll, TakenOf, Valid;
  }

  lemma ReplyKeeps(c: Conn, f: Frame)
    requires Inv(c) && f.ftype != WINDOW_UPDATE
    ensures Inv(c.(out := c.out + [f]))
  {
    forall j: nat ensures Granted(c.out + [f], j) == Granted(c.out, j) { GrantedSnoc(c.out, f, j); }
    hide IdsInv, EndInv, Quiet, Granted, TakenAll, TakenOf, Valid;
  }

  lemma OnUpdateKeeps(c: Conn, f: Frame)
    requires Inv(c) && |f.payload| == 4
    ensures Inv(OnStreamWindowUpdate(c, f).0) && Inv(OnConnWindowUpdate(c, f).0)
  {
    Powers();
    CheckRecvKeeps(c, f.id, UpdateKind);
    var (c1, e) := CheckRecv(c, f.id, UpdateKind);
    hide Inv, CheckRecv, Sending, FromBE, Valid;
    SendingKeepsInv(c, ConnUpdate(FromBE(f.payload)));
    if e.None? { SendingKeepsInv(c1, StreamUpdate(f.id, FromBE(f.payload))); }
  }

  lemma OnSettingsKeeps(c: Conn, f: Frame)
    requires Inv(c)
    ensures Inv(OnSettings(c, f).0) && Inv(OnPing(c, f).0)
  {
    ReplyKeeps(c, Frame(PING, 1, 0, f.payload));
    if !Flag(f.flags, ACK) {
      SendingKeepsInv(c, PeerSettings(ReadSettings(f.payload)));
      ReplyKeeps(Sending(c, PeerSettings(ReadSettings(f.payload))).0, Frame(SETTINGS, 1, 0, []));
    }
    hide Inv, Sending, ReadSettings, Valid;
  }

  /** Every received frame keeps the invariant unless it ends the run with an error, and
      even then nothing forbidden has reached the handler. */
  lemma OnFrameKeeps(env: Env, c: Conn, f: Frame)
    requires Inv(c) && |f.payload| < 0x1_0000_0000
    ensures Safe(OnFrame(env, c, f).0)
    ensures OnFrame(env, c, f).1.None? ==> Inv(OnFrame(env, c, f).0)
  {
    hide Inv, Safe, OnHeaders, OnContinuation, OnData, OnRSTStream, OnStreamWindowUpdate, OnConnWindowUpdate,
        OnSettings, OnPing, OnPriority, Valid;
    var c1 := c.(lastId := if f.id > c.lastId then f.id else c.lastId);
    UnseenKeeps(c, c1);
    UnseenKeeps(c, c.(closed := true));
    OnHeadersKeeps(env, c1, f);
    OnContinuationKeeps(env, c1, f);
    if f.ftype == DATA && GoodShape(f) { OnDataKeeps(env, c1, f); }
    OnRSTStreamKeeps(env, c1, f);
    if f.ftype == WINDOW_UPDATE && GoodShape(f) {
      OnUpdateKeeps(c, f);
      OnUpdateKeeps(c1, f);
    }
    OnSettingsKeeps(c, f);
    var c' := OnFrame(env, c, f).0;
    InvSafe(c');
    assert OnPriority(c, f).0 == c by { PriorityKeeps(c, f); }
  }

  lemma PriorityKeeps(c: Conn, f: Frame)
    ensures OnPriority(c, f).0 == c
  {
  }

  // ---- the parser and the assembly agree ------------------------------------------------------------

  /** The parser waits for CONTINUATION exactly while a block is being put together, and on
      the same stream. */
  ghost predicate Agree(p: Parser, c: Conn) {
    p.awaiting == c.hdr.active && (p.awaiting ==> p.lastId == c.hdr.id)
  }

  lemma {:induction false} ActsKeepHdr(c: Conn, ls: seq<Call>)
    ensures var c' := Acts(c, ls); c'.hdr == c.hdr && c'.isClient == c.isClient
    decreases |ls|
  {
    if ls != [] {
      ActFields(c, ls[0]);
      hide Act;
      ActsKeepHdr(Act(c, ls[0]), ls[1..]);
    }
  }

  lemma EndRecvHdr(c: Conn, id: nat, s: Stream, attached: bool, endStream: bool)
    ensures var c' := EndRecv(c, id, s, attached, endStream); c'.hdr == c.hdr && c'.isClient == c.isClient
  {
    hide Valid, Step;
  }

  lemma FinishHeadersHdr(env: Env, c: Conn, id: nat, block: seq<byte>, endStream: bool)
    ensures var c' := FinishHeaders(env, c, id, block, endStream).0; c'.hdr == c.hdr && c'.isClient == c.isClient
  {
    var c1 := c.(blocks := c.blocks + [HeaderBlock(id, block, endStream)]);
    var (c2, e) := Admit(c1, id);
    var c0 := CheckRecv(c1, id, HeadersKind).0;
    if id !in c1.streams { MakeFields(c0, id, Opened(id)); }
    hide CheckRecv, Make, Acts, EndRecv, Valid, HandlerCalls, Attached, LengthWrong, WithLength;
    if env.verdict(c1.blocks).Good? && e.None? {
      DeliverHdr(env, c2, id, env.verdict(c1.blocks).contentLength, endStream);
    }
  }

  lemma DeliverHdr(env: Env, c: Conn, id: nat, contentLength: Option<nat>, endStream: bool)
    requires id in c.streams
    ensures var c' := DeliverHeaders(env, c, id, contentLength, endStream).0;
              c'.hdr == c.hdr && c'.isClient == c.isClient
  {
    hide Acts, EndRecv, Valid, HandlerCalls, Attached, LengthWrong, WithLength;
    var s := WithLength(c, id, contentLength);
    var told := [GotHeaders(id, endStream)];
    var c1 := Telling(c, id, s, told, endStream);
    var calls := HandlerCalls(env, told, c1.trace);
    ActsKeepHdr(c1, calls);
    EndRecvHdr(Acts(c1, calls), id, s, Attached(calls, id), endStream);
  }

  lemma OnDataHdr(env: Env, c: Conn, f: Frame)
    ensures var c' := OnData(env, c, f).0; c'.hdr == c.hdr && c'.isClient == c.isClient
  {
    var p := Unpad(f);
    var (c1, e) := CheckRecv(c, f.id, DataKind);
    hide CheckRecv, Acts, EndRecv, Valid, HandlerCalls, Attached, LengthWrong, Unpad, Flag;
    if p.Some? && e.None? && f.id in c1.streams {
      var (c2, e2) := GiveRecvWindow(c1, f.id, |f.payload|);
      assert c2.hdr == c.hdr && c2.isClient == c.isClient;
      hide GiveRecvWindow;
      if e2.None? && f.id in c2.streams {
        var endStream := Flag(f.flags, END_STREAM);
        var s := c2.streams[f.id].(bodyLen := c2.streams[f.id].bodyLen + |p.value|);
        var told := if |p.value| > 0 then [GotData(f.id, p.value, endStream)] else [];
        var c3 := Telling(c2.(trace := c2.trace + [Accepted(f.id, p.value, endStream)]), f.id, s, told, endStream);
        var calls := HandlerCalls(env, told, c3.trace);
        ActsKeepHdr(c3, calls);
        EndRecvHdr(Acts(c3, calls), f.id, s, Attached(calls, f.id), endStream);
      }
    }
  }

  lemma OtherHdr(env: Env, c: Conn, f: Frame)
    requires GoodShape(f) && f.ftype != HEADERS && f.ftype != CONTINUATION
    ensures var c' := OnFrame(env, c, f).0; c'.hdr == c.hdr && c'.isClient == c.isClient
  {
    var c1 := c.(lastId := if f.id > c.lastId then f.id else c.lastId);
    OnDataHdr(env, c1, f);
    if f.ftype == RST_STREAM { ResetHdr(env, c1, f); }
    hide OnHeaders, OnContinuation, OnData, OnRSTStream, Step, Valid, ReadSettings, FromBE;
  }

  lemma ResetHdr(env: Env, c: Conn, f: Frame)
    ensures var c' := OnRSTStream(env, c, f).0; c'.hdr == c.hdr && c'.isClient == c.isClient
  {
    var (c1, e) := CheckRecv(c, f.id, ResetKind);
    hide CheckRecv, Acts, Valid, HandlerCalls, Step, FromBE;
    if e.None? {
      var told := [GotReset(f.id, FromBE(f.payload))];
      var c2 := c1.(trace := c1.trace + told);
      ActsKeepHdr(c2, HandlerCalls(env, told, c2.trace));
    }
  }

  lemma OnFrameClient(env: Env, c: Conn, f: Frame)
    ensures OnFrame(env, c, f).0.isClient == c.isClient
  {
    var c1 := c.(lastId := if f.id > c.lastId then f.id else c.lastId);
    if GoodShape(f) && f.ftype == HEADERS {
      hide FinishHeaders, FromBE, Unpad, Valid, GoodShape;
      var p := Unpad(f);
      if p.Some? {
        var payload := if Flag(f.flags, PRIORITY_FLAG) && |p.value| >= 5 then p.value[5..] else p.value;
        FinishHeadersHdr(env, c1, f.id, payload, Flag(f.flags, END_STREAM));
      }
    } else if GoodShape(f) && f.ftype == CONTINUATION {
      hide FinishHeaders, FromBE, Valid, GoodShape;
      var c2 := c1.(hdr := c.hdr.(block := c.hdr.block + f.payload));
      FinishHeadersHdr(env, c2.(hdr := c2.hdr.(active := false)), f.id, c2.hdr.block, c.hdr.endStream);
    } else if GoodShape(f) {
      OtherHdr(env, c, f);
    }
  }

  lemma OnFrameAgrees(env: Env, p: Parser, c: Conn, f: Frame)
    requires Agree(p, c) && GoodShape(f) && CheckContinuation(p, f).None? && OnFrame(env, c, f).1.None?
    ensures Agree(After(p, f), OnFrame(env, c, f).0)
  {
    var c1 := c.(lastId := if f.id > c.lastId then f.id else c.lastId);
    if f.ftype == HEADERS {
      hide FinishHeaders, FromBE, Unpad, Valid;
      var p := Unpad(f);
      if p.Some? && Flag(f.flags, END_HEADERS) {
        var payload := if Flag(f.flags, PRIORITY_FLAG) && |p.value| >= 5 then p.value[5..] else p.value;
        FinishHeadersHdr(env, c1, f.id, payload, Flag(f.flags, END_STREAM));
      }
    } else if f.ftype == CONTINUATION {
      hide FinishHeaders, FromBE, Valid;
      var c2 := c1.(hdr := c.hdr.(block := c.hdr.block + f.payload));
      FinishHeadersHdr(env, c2.(hdr := c2.hdr.(active := false)), f.id, c2.hdr.block, c.hdr.endStream);
    } else {
      OtherHdr(env, c, f);
      PushPromiseFails(env, c, f);
      hide OnFrame;
    }
  }

  lemma PushPromiseFails(env: Env, c: Conn, f: Frame)
    ensures f.ftype == PUSH_PROMISE ==> OnFrame(env, c, f).1.Some?
  {
  }

  // ---- whole runs --------------------------------------------------------------------------------------

  /** One pass of the parser over any bytes. */
  lemma {:induction false} RunKeeps(env: Env, p: Parser, c: Conn, buf: seq<byte>)
    requires Lawful(CutFrame) && Inv(c) && Agree(p, c)
    ensures var r := Run(CutFrame, Callback(env), p, c, buf);
            Safe(r.h) && r.h.isClient == c.isClient && (r.error.None? ==> Inv(r.h) && Agree(r.p, r.h))
    decreases |buf|
  {
    InvSafe(c);
    Decided(CutFrame, p, buf, []);
    CutShape(p, buf);
    hide Lawful, CutFrame, Inv, Safe, Agree, OnFrame, After, GoodShape, CheckContinuation, Valid;
    var cut := CutFrame(p, buf);
    if cut.Item? {
      var (c', e) := OnFrame(env, c, cut.item);
      OnFrameKeeps(env, c, cut.item);
      OnFrameClient(env, c, cut.item);
      if e.None? {
        OnFrameAgrees(env, p, c, cut.item);
        RunKeeps(env, cut.next, c', buf[cut.size..]);
      }
    }
  }

  /** What the parser has checked of a frame it hands over. */
  lemma CutShape(p: Parser, buf: seq<byte>)
    ensures var cut := CutFrame(p, buf);
            cut.Item? ==> GoodShape(cut.item) && CheckContinuation(p, cut.item).None? && cut.next == After(p, cut.item)
                          && |cut.item.payload| < 0x1_0000_0000
  {
    Powers();
    hide CheckContinuation, GoodShape, After;
  }

  /** What can happen to a connection: bytes arrive, or the local side calls. */
  datatype Input = Arrive(chunk: seq<byte>) | Local(calls: seq<Call>)

  /** The life of a connection up to its first error; `rest` is what its caller keeps. */
  ghost function Live(env: Env, p: Parser, c: Conn, rest: seq<byte>, inputs: seq<Input>): Fed<Parser, Conn, Error>
    requires Lawful(CutFrame)
    decreases |inputs|
  {
    if inputs == [] then Fed(p, c, rest, None)
    else if inputs[0].Local? then Live(env, p, Acts(c, inputs[0].calls), rest, inputs[1..])
    else
      var buf := rest + inputs[0].chunk;
      var r := Run(CutFrame, Callback(env), p, c, buf);
      if r.error.Some? then Fed(r.p, r.h, buf[r.consumed..], r.error)
      else Live(env, r.p, r.h, buf[r.consumed..], inputs[1..])
  }

  lemma {:induction false} LiveKeeps(env: Env, p: Parser, c: Conn, rest: seq<byte>, inputs: seq<Input>)
    requires Lawful(CutFrame) && Inv(c) && Agree(p, c)
    ensures var r := Live(env, p, c, rest, inputs);
            Safe(r.h) && r.h.isClient == c.isClient && (r.error.None? ==> Inv(r.h) && Agree(r.p, r.h))
    decreases |inputs|
  {
    InvSafe(c);
    hide Lawful, Inv, Safe, Acts, Run, CutFrame;
    if inputs != [] {
      if inputs[0].Local? {
        ActsKeepInv(c, inputs[0].calls);
        ActsKeepHdr(c, inputs[0].calls);
        LiveKeeps(env, p, Acts(c, inputs[0].calls), rest, inputs[1..]);
      } else {
        var buf := rest + inputs[0].chunk;
        RunKeeps(env, p, c, buf);
        var r := Run(CutFrame, Callback(env), p, c, buf);
        if r.error.None? { LiveKeeps(env, r.p, r.h, buf[r.consumed..], inputs[1..]); }
      }
    }
  }

  /** The main result about receiving. For every run of a fresh connection, server or client:
      the streams the peer opened have strictly increasing numbers of its parity; nothing of an
      ended stream reached the handler; and, unless the run ended with an error, the windows
      account for all credit, and the parser and the header assembly agree. */
  lemma EveryRunIsSafe(env: Env, isClient: bool, inputs: seq<Input>)
    ensures Lawful(CutFrame)
    ensures var r := Live(env, NewParser, Start(isClient), [], inputs);
            && Increasing(OpenedIds(r.h.trace))
            && (forall k :: 0 <= k < |OpenedIds(r.h.trace)| ==>
                 OpenedIds(r.h.trace)[k] % 2 == (if isClient then 0 else 1))
            && Quiet(r.h.trace)
            && (r.error.None? ==> CreditInv(r.h) && Agree(r.p, r.h))
  {
    CutFrameLawful();
    StartInv(isClient);
    assert Agree(NewParser, Start(isClient));
    LiveKeeps(env, NewParser, Start(isClient), [], inputs);
    assert Start(isClient).isClient == isClient;
    hide Live, Lawful, CutFrame, Start, CreditInv, Quiet, OpenedIds, Agree, Increasing;
  }

  lemma {:induction false} QuietAt(t: seq<Mark>, j: nat)
    requires Quiet(t) && j < |t| && Content(t[j])
    ensures !Over(t[..j], t[j].id)
  {
    if j < |t| - 1 {
      QuietAt(t[..|t| - 1], j);
      assert t[..|t| - 1][..j] == t[..j];
    }
  }

  lemma {:induction false} EndedStaysOver(t: seq<Mark>, i: nat, j: nat, id: nat)
    requires i < j <= |t| && t[i] == Ended(id) && forall k :: i < k < j ==> t[k] != Registered(id)
    ensures Over(t[..j], id)
  {
    assert t[..j][..j - 1] == t[..j - 1] && t[..j][j - 1] == t[j - 1];
    if i < j - 1 { EndedStaysOver(t, i, j - 1, id); }
  }

  /** What Quiet says: between an accepted END_STREAM and later content of the same stream the
      local side must have registered that stream again. */
  lemma NothingAfterEndStream(t: seq<Mark>, i: nat, j: nat)
    requires Quiet(t) && i < j < |t| && t[i].Ended? && Content(t[j]) && t[j].id == t[i].id
    ensures exists k :: i < k < j && t[k] == Registered(t[i].id)
  {
    if forall k :: i < k < j ==> t[k] != Registered(t[i].id) {
      EndedStaysOver(t, i, j, t[i].id);
      QuietAt(t, j);
    }
  }

  // ---- a peer that stays within its credit -------------------------------------------------------------

  lemma {:induction false} GrantedGrows(out: seq<Frame>, seen: nat, id: nat)
    requires seen <= |out|
    ensures Granted(out[..seen], id) <= Granted(out, id)
    decreases |out|
  {
    if seen == |out| {
      assert out[..seen] == out;
    } else {
      GrantedGrows(out[..|out| - 1], seen, id);
      assert out[..|out| - 1][..seen] == out[..seen];
    }
  }

  /** A peer that has read only the first `seen` frames we wrote, and whose frame stays within
      what they and the initial windows allow, on top of what was accepted from it before, is
      not refused for flow control. */
  lemma PeerWithinCreditIsAccepted(c: Conn, id: nat, n: nat, seen: nat)
    requires CreditInv(c) && id != 0 && id in c.streams && seen <= |c.out|
    requires TakenAll(c.trace) + n <= DEFAULT_INITIAL_WINDOW + Granted(c.out[..seen], 0)
    requires TakenOf(c.trace, id) + n <= c.localInitial + Granted(c.out[..seen], id)
    ensures GiveRecvWindow(c, id, n).1.None?
  {
    GrantedGrows(c.out, seen, 0);
    GrantedGrows(c.out, seen, id);
    RejectedExactly(c, id, n);
  }
}
