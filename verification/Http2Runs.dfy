/** Whole runs of the HTTP/2 sending side: what they keep, and what they lose (http2/conn.go). */
module Http2Runs {
  import opened Bytes
  import opened Framing
  import opened Http2Frame
  import opened Http2Send

  // ---- failing inputs, from a new connection ----------------------------------------------------

  lemma {:induction false} PlayConcat(s: Send, a: seq<Event>, b: seq<Event>)
    requires Valid(s) && (forall e :: e in a + b ==> Possible(e)) && Play(s, a).error.None?
    ensures Valid(Play(s, a).s)
    ensures var r, r' := Play(s, a), Play(Play(s, a).s, b);
            Play(s, a + b) == Stepped(r.frames + r'.frames, r'.s, r'.error)
    decreases |a|
  {
    assert s.maxFrame > 0;
    hide Step, Valid, Possible;
    forall e | e in b ensures e in a + b {}
    forall e | e in a ensures e in a + b {}
    if a == [] {
      assert a + b == b && [] + Play(s, b).frames == Play(s, b).frames;
    } else {
      StepKeepsValid(s, a[0]);
      var r := Step(s, a[0]);
      assert (a + b)[0] == a[0] && (a + b)[1..] == a[1..] + b;
      PlayConcat(r.s, a[1..], b);
      Assoc(r.frames, Play(r.s, a[1..]).frames, Play(Play(r.s, a[1..]).s, b).frames);
    }
  }

  lemma {:induction false} SlicesAll(s: Send, id: nat, data: seq<byte>, end: bool)
    requires s.maxFrame > 0 && |data| <= Avail(s, id)
    ensures Slices(s, id, data, end).s == Charge(s, id, |data|) && Slices(s, id, data, end).error.None?
    decreases |data|
  {
    if data != [] {
      var n, rest := SliceOnce(s, id, data, end);
      SlicesAll(rest, id, data[n..], end);
    }
  }

  /** A body as long as the connection's first window. */
  function WindowFull(): Event {
    WriteData(5, seq(DEFAULT_INITIAL_WINDOW, _ => 0), false)
  }

  /** How a connection begins whose peer gives every stream the window `w`: three streams are
      opened, and the first body uses up the connection's window. */
  function Prelude(w: nat): seq<Event> {
    [PeerSettings([Setting(4, w)]), Register(1), Register(3), Register(5), WindowFull()]
  }

  /** What it leads to, so that what follows has to wait. */
  function Spent(w: nat): Send {
    NewSend.(initial := w, conn := 0, streams := map[1 := w, 3 := w, 5 := w - DEFAULT_INITIAL_WINDOW])
  }

  lemma AllSpent(w: nat)
    requires DEFAULT_INITIAL_WINDOW <= w <= MAX_WINDOW
    ensures Valid(NewSend) && (forall e :: e in Prelude(w) ==> Possible(e)) && Valid(Spent(w))
    ensures Play(NewSend, Prelude(w)).s == Spent(w) && Play(NewSend, Prelude(w)).error.None?
  {
    var s1 := NewSend.(initial := w);
    var s2 := s1.(streams := map[1 := w]);
    var s3 := s2.(streams := map[1 := w, 3 := w]);
    var s4 := s3.(streams := map[1 := w, 3 := w, 5 := w]);
    OneSetting(NewSend, w);
    UsesUp(s4, w);
    assert Step(NewSend, PeerSettings([Setting(4, w)])) == Stepped([], s1, None);
    hide WindowFull, Spent, Play, Slices;
    OneEvent(s4, WindowFull());
    Continue(s3, Register(5), s4, [WindowFull()]);
    Continue(s2, Register(3), s3, [Register(5), WindowFull()]);
    Continue(s1, Register(1), s2, [Register(3), Register(5), WindowFull()]);
    Continue(NewSend, PeerSettings([Setting(4, w)]), s1, [Register(1), Register(3), Register(5), WindowFull()]);
  }

  lemma UsesUp(s: Send, w: nat)
    requires DEFAULT_INITIAL_WINDOW <= w <= MAX_WINDOW
    requires s == NewSend.(initial := w, streams := map[1 := w, 3 := w, 5 := w])
    ensures Valid(Spent(w)) && Possible(WindowFull())
    ensures Step(s, WindowFull()).s == Spent(w) && Step(s, WindowFull()).error.None?
  {
    SlicesAll(s, 5, WindowFull().data, false);
    assert Charge(s, 5, DEFAULT_INITIAL_WINDOW) == Spent(w);
    hide Slices;
  }

  lemma OneSetting(s: Send, initial: nat)
    requires initial <= MAX_WINDOW
    ensures ApplySettings(s, [Setting(4, initial)]) == (s.(initial := initial), None)
  {
    var x := Setting(4, initial);
    assert [x][1..] == [];
    assert ApplySettings(s.(initial := initial), []) == (s.(initial := initial), None);
  }

  /** A silent event in front. */
  lemma Continue(s: Send, e: Event, s': Send, es: seq<Event>)
    requires Valid(s) && Valid(s') && s.maxFrame > 0 && Step(s, e) == Stepped([], s', None)
    requires Possible(e) && forall x :: x in es ==> Possible(x)
    ensures forall x :: x in [e] + es ==> Possible(x)
    ensures Play(s, [e] + es) == Play(s', es)
  {
    hide Step, Valid, Possible;
    assert ([e] + es)[0] == e && ([e] + es)[1..] == es;
    assert [] + Play(s', es).frames == Play(s', es).frames;
  }

  lemma OneEvent(s: Send, e: Event)
    requires Valid(s) && Possible(e)
    ensures Play(s, [e]).s == Step(s, e).s && Play(s, [e]).error == Step(s, e).error
              && Play(s, [e]).frames == Step(s, e).frames
  {
    assert s.maxFrame > 0;
    hide Step, Valid, Possible;
    StepKeepsValid(s, e);
    assert [e][1..] == [] && Step(s, e).frames + [] == Step(s, e).frames;
  }

  /** A body that waits because the connection's window is 0. */
  lemma BodyWaits(s: Send, id: nat, data: seq<byte>, end: bool)
    requires Valid(s) && s.conn == 0 && 0 < |data| <= MAX_WINDOW
    ensures Play(s, [WriteData(id, data, end)]) == Stepped([], s.(pending := s.pending + [Chunk(id, data, end)]), None)
  {
    var e := WriteData(id, data, end);
    assert Avail(s, id) <= 0;
    assert Step(s, e) == Stepped([], s.(pending := s.pending + [Chunk(id, data, end)]), None);
    OneEvent(s, e);
  }

  /** Two open streams whose bodies wait, each with its END_STREAM. */
  function TwoWait(): seq<Event> {
    Prelude(DEFAULT_INITIAL_WINDOW) + [WriteData(1, [7], true), WriteData(3, [8], true)]
  }

  lemma TwoAreQueued()
    ensures Valid(NewSend) && forall e :: e in TwoWait() ==> Possible(e)
    ensures Play(NewSend, TwoWait()).s
              == Spent(DEFAULT_INITIAL_WINDOW).(pending := [Chunk(1, [7], true), Chunk(3, [8], true)])
  {
    hide Play, Prelude, Spent;
    var s0, q1, q3 := Spent(DEFAULT_INITIAL_WINDOW), Chunk(1, [7], true), Chunk(3, [8], true);
    AllSpent(DEFAULT_INITIAL_WINDOW);
    SpentFields(DEFAULT_INITIAL_WINDOW);
    BodyWaits(s0, 1, [7], true);
    BodyWaits(s0.(pending := [q1]), 3, [8], true);
    assert s0.pending + [q1] == [q1] && [q1] + [q3] == [q1, q3];
    TwoMore(NewSend, Prelude(DEFAULT_INITIAL_WINDOW), WriteData(1, [7], true), WriteData(3, [8], true));
  }

  lemma SpentFields(w: nat)
    ensures Spent(w).conn == 0 && Spent(w).pending == [] && Spent(w).maxFrame == DEFAULT_MAX_FRAME_SIZE
  {
  }

  /** The input that shows it: with the window used up, two bodies end on two streams, and one
      update lets both go. The first END_STREAM is lost. */
  lemma EndStreamCanBeLost()
    ensures Valid(NewSend) && forall e :: e in TwoWait() ==> Possible(e)
    ensures var s := Play(NewSend, TwoWait()).s;
            && s.maxFrame > 0 && 1 in s.streams && 3 in s.streams
            && s.pending == [Chunk(1, [7], true), Chunk(3, [8], true)]
            && Step(s, ConnUpdate(2)).frames == [Chunk(1, [7], false), Chunk(3, [8], true)]
            && Step(s, ConnUpdate(2)).s.pending == []
  {
    hide Play, Flush, TwoWait;
    TwoAreQueued();
    var s := Play(NewSend, TwoWait()).s;
    TwoEnds(s.(conn := 2), s.pending);
  }

  lemma TwoMore(s: Send, a: seq<Event>, e: Event, e': Event)
    requires Valid(s) && (forall x :: x in a ==> Possible(x)) && Possible(e) && Possible(e')
    requires Play(s, a).error.None? && Valid(Play(s, a).s)
    requires Play(Play(s, a).s, [e]).error.None? && Valid(Play(Play(s, a).s, [e]).s)
    ensures forall x :: x in a + [e, e'] ==> Possible(x)
    ensures Play(s, a + [e, e']).s == Play(Play(Play(s, a).s, [e]).s, [e']).s
  {
    hide Play, Valid, Possible;
    PlayConcat(s, a, [e, e']);
    assert [e, e'] == [e] + [e'];
    PlayConcat(Play(s, a).s, [e], [e']);
  }

  lemma TwoEnds(s: Send, q: seq<Chunk>)
    requires q == [Chunk(1, [7], true), Chunk(3, [8], true)]
    requires s == Spent(DEFAULT_INITIAL_WINDOW).(conn := 2, pending := q)
    ensures Flush(s).frames == [Chunk(1, [7], false), Chunk(3, [8], true)] && Flush(s).s.pending == []
  {
    var s1 := Charge(s, 1, 1).(pending := s.pending[1..]);
    var s2 := Charge(s1, 3, 1).(pending := s1.pending[1..]);
    assert s1.pending == [q[1]] && s2.pending == [];
    assert Flush(s2).frames == [];
    assert Flush(s1).frames == [Chunk(3, [8], true)] + Flush(s2).frames;
    assert Flush(s).frames == [Chunk(1, [7], false)] + Flush(s1).frames;
  }

  /** The input that shows a frame longer than the peer allows: a long body on an open stream
      waits for the connection's window, and one update gives it all at once. */
  lemma FlushFrameCanBeTooLong(body: seq<byte>)
    requires DEFAULT_MAX_FRAME_SIZE < |body| <= MAX_WINDOW
    ensures var es := Prelude(MAX_WINDOW) + [WriteData(1, body, true)];
            && Valid(NewSend) && (forall e :: e in es ==> Possible(e))
            && var s := Play(NewSend, es).s;
               && s.maxFrame == DEFAULT_MAX_FRAME_SIZE && 1 in s.streams
               && Step(s, ConnUpdate(|body|)).frames == [Chunk(1, body, true)]
  {
    hide Valid, Prelude, Play;
    var s0, w := Spent(MAX_WINDOW), WriteData(1, body, true);
    AllSpent(MAX_WINDOW);
    BodyWaits(s0, 1, body, true);
    PlayConcat(NewSend, Prelude(MAX_WINDOW), [w]);
    assert s0.pending + [Chunk(1, body, true)] == [Chunk(1, body, true)];
    OneFlushed(s0.(pending := [Chunk(1, body, true)]), body);
  }

  lemma OneFlushed(s: Send, body: seq<byte>)
    requires s == Spent(MAX_WINDOW).(pending := [Chunk(1, body, true)]) && 0 < |body| <= MAX_WINDOW
    ensures Step(s, ConnUpdate(|body|)).frames == [Chunk(1, body, true)]
  {
    OverflowTestIsExact(0, |body|);
    var s1 := s.(conn := |body|);
    var s2 := Charge(s1, 1, |body|).(pending := s1.pending[1..]);
    assert s1.pending[1..] == [];
    assert Flush(s2).frames == [];
    assert Flush(s1).frames == [Chunk(1, body, true)] + Flush(s2).frames;
  }

  // ---- many bodies ------------------------------------------------------------------------------------

  /** The bytes of the bodies written to a stream, in order. */
  function Written(id: nat, es: seq<Event>): seq<byte> {
    if es == [] then [] else (if es[0].WriteData? && es[0].id == id then es[0].data else []) + Written(id, es[1..])
  }

  /** Every body is written to a stream that has nothing queued, or has to wait itself: what
      `OrderKeptExactly` asks of one write. */
  predicate InTurn(s: Send, es: seq<Event>)
    requires Valid(s) && forall e :: e in es ==> Possible(e)
    decreases |es|
  {
    if es == [] then true
    else
      var e := es[0];
      StepKeepsValid(s, e);
      && (e.WriteData? ==> Of(e.id, s.pending) == [] || Waits(s, e.id, |e.data|, e.end))
      && InTurn(Step(s, e).s, es[1..])
  }

  /** Then, on every stream, the bytes sent followed by those queued are all bodies in order. */
  lemma {:induction false} ManyBodiesInOrder(s: Send, es: seq<Event>, id: nat)
    requires Valid(s) && (forall e :: e in es ==> Possible(e)) && InTurn(s, es) && Play(s, es).error.None?
    ensures Of(id, Play(s, es).frames) + Of(id, Play(s, es).s.pending) == Of(id, s.pending) + Written(id, es)
    decreases |es|
  {
    assert s.maxFrame > 0;
    hide Step, Valid, Possible, Waits;
    if es == [] {
      assert Of(id, s.pending) + [] == Of(id, s.pending) && [] + Of(id, s.pending) == Of(id, s.pending);
    } else {
      StepKeepsValid(s, es[0]);
      var r := Step(s, es[0]);
      ManyBodiesInOrder(r.s, es[1..], id);
      StepInOrder(s, es[0], id);
      var more := Play(r.s, es[1..]);
      var own := if es[0].WriteData? && es[0].id == id then es[0].data else [];
      OfConcat(id, r.frames, more.frames);
      Assoc(Of(id, r.frames), Of(id, more.frames), Of(id, more.s.pending));
      Assoc(Of(id, r.frames), Of(id, r.s.pending), Written(id, es[1..]));
      Assoc(Of(id, s.pending), own, Written(id, es[1..]));
    }
  }

  lemma StepInOrder(s: Send, e: Event, id: nat)
    requires Valid(s) && Possible(e) && Step(s, e).error.None?
    requires e.WriteData? ==> Of(e.id, s.pending) == [] || Waits(s, e.id, |e.data|, e.end)
    ensures var own := if e.WriteData? && e.id == id then e.data else [];
            Of(id, Step(s, e).frames) + Of(id, Step(s, e).s.pending) == Of(id, s.pending) + own
  {
    hide Valid, Flush, Slices, Waits, Int32;
    assert [] + Of(id, s.pending) == Of(id, s.pending) && Of(id, s.pending) + [] == Of(id, s.pending);
    match e {
      case WriteData(j, data, end) => WriteInOrder(s, j, data, end, id);
      case ConnUpdate(inc) => FlushConserves(s.(conn := Int32(s.conn + Int32(inc))), id);
      case StreamUpdate(j, inc) => FlushConserves(s.(streams := s.streams[j := Int32(s.streams[j] + Int32(inc))]), id);
      case PeerSettings(ss) => SettingsKeepQueue(s, ss);
      case Register(j) =>
      case Forget(j) =>
    }
  }

  lemma WriteInOrder(s: Send, j: nat, data: seq<byte>, end: bool, id: nat)
    requires Valid(s) && (Of(j, s.pending) == [] || Waits(s, j, |data|, end))
    ensures var r := Write(s, j, data, end);
            Of(id, r.frames) + Of(id, r.s.pending) == Of(id, s.pending) + (if j == id then data else [])
  {
    if j == id {
      if Of(j, s.pending) == [] { NothingBefore(s, j, data, end); } else { OrderKept(s, j, data, end); }
    } else {
      OthersKept(s, j, data, end, id);
    }
  }

  /** A write leaves the other streams alone. */
  lemma OthersKept(s: Send, j: nat, data: seq<byte>, end: bool, id: nat)
    requires Valid(s) && j != id
    ensures var r := Write(s, j, data, end);
            Of(id, r.frames) == [] && Of(id, r.s.pending) == Of(id, s.pending)
  {
    hide Slices;
    var r := Write(s, j, data, end);
    if Fast(s, data) {
      OfOther(id, r.frames);
    } else {
      SlicesAreRight(s, j, data, end);
      var left := r.s.pending[|s.pending|..];
      assert r.s.pending == s.pending + left;
      OfConcat(id, s.pending, left);
      OfOther(id, r.frames);
      OfOther(id, left);
      assert Of(id, s.pending) + [] == Of(id, s.pending);
    }
  }

  lemma {:induction false} OfOther(id: nat, cs: seq<Chunk>)
    requires forall k :: 0 <= k < |cs| ==> cs[k].id != id
    ensures Of(id, cs) == []
  {
    if cs != [] { OfOther(id, cs[1..]); }
  }

  // ---- a changed initial window ---------------------------------------------------------------------

  /** The initial window that a list of settings leaves, when it is not refused. */
  function Announced(initial: nat, ss: seq<Setting>): nat
    decreases |ss|
  {
    if ss == [] then initial else Announced(if ss[0].id == 4 then ss[0].value else initial, ss[1..])
  }

  lemma {:induction false} SettingsResult(s: Send, ss: seq<Setting>)
    ensures ApplySettings(s, ss).0.streams == s.streams
    ensures ApplySettings(s, ss).1.None? ==> ApplySettings(s, ss).0.initial == Announced(s.initial, ss)
    decreases |ss|
  {
    if ss != [] && ApplySetting(s, ss[0]).Some? { SettingsResult(ApplySetting(s, ss[0]).value, ss[1..]); }
  }

  /** A new initial window concerns streams to come only. So the windows of open streams move
      along with it, as section 6.9.2 of RFC 9113 has it, exactly when none is open or the
      value is the old one. */
  lemma WindowsMoveExactly(s: Send, ss: seq<Setting>)
    requires ApplySettings(s, ss).1.None?
    ensures var s' := ApplySettings(s, ss).0;
            (forall id :: id in s.streams ==>
                id in s'.streams && s'.streams[id] - s.streams[id] == s'.initial - s.initial)
            <==> (s.streams == map[] || Announced(s.initial, ss) == s.initial)
  {
    SettingsResult(s, ss);
    if s.streams != map[] {
      var id :| id in s.streams;
    }
  }

  /** The input that shows it: a stream is opened, and then the peer changes the initial window.
      The stream's window stays what it was. */
  lemma WindowStays(initial: nat)
    requires initial <= MAX_WINDOW
    ensures var es := [Register(1), PeerSettings([Setting(4, initial)])];
            && Valid(NewSend) && (forall e :: e in es ==> Possible(e))
            && Play(NewSend, es) ==
               Stepped([], NewSend.(initial := initial, streams := map[1 := DEFAULT_INITIAL_WINDOW]), None)
  {
    var s1 := NewSend.(streams := map[1 := DEFAULT_INITIAL_WINDOW]);
    var e := PeerSettings([Setting(4, initial)]);
    OneSetting(s1, initial);
    assert [Register(1), e][1..] == [e];
    assert Step(NewSend, Register(1)) == Stepped([], s1, None);
    assert Step(s1, e) == Stepped([], s1.(initial := initial), None);
    OneEvent(s1, e);
  }

  // ---- what the windows account for ------------------------------------------------------------------

  /** What a run's updates give to the connection, and to a stream. */
  function Given(es: seq<Event>): nat {
    if es == [] then 0 else (if es[0].ConnUpdate? then es[0].inc else 0) + Given(es[1..])
  }

  function GivenTo(id: nat, es: seq<Event>): nat {
    if es == [] then 0 else (if es[0].StreamUpdate? && es[0].id == id then es[0].inc else 0) + GivenTo(id, es[1..])
  }

  /** The bytes that an event sends by the fast path, on the streams of `ids`. */
  function Free(s: Send, e: Event, ids: nat -> bool): nat {
    if e.WriteData? && ids(e.id) && Fast(s, e.data) then |e.data| else 0
  }

  /** And a run. */
  function FreeInAll(s: Send, es: seq<Event>, ids: nat -> bool): nat
    requires Valid(s) && forall e :: e in es ==> Possible(e)
    decreases |es|
  {
    if es == [] then 0
    else
      StepKeepsValid(s, es[0]);
      Free(s, es[0], ids) + FreeInAll(Step(s, es[0]).s, es[1..], ids)
  }

  /** No body with bytes, on the streams of `ids`, meets the guard of the fast path. */
  predicate NeverFast(s: Send, es: seq<Event>, ids: nat -> bool)
    requires Valid(s) && forall e :: e in es ==> Possible(e)
    decreases |es|
  {
    es == [] ||
      (StepKeepsValid(s, es[0]);
       (es[0].WriteData? && ids(es[0].id) && es[0].data != [] ==> !Fast(s, es[0].data))
           && NeverFast(Step(s, es[0]).s, es[1..], ids))
  }

  const EVERY: nat -> bool := _ => true

  function Only(id: nat): nat -> bool { j => j == id }

  /** Over any run, the connection's window accounts for all bytes sent exactly when no body
      with bytes takes the fast path. */
  lemma ConnChargedExactly(s: Send, es: seq<Event>)
    requires Valid(s) && (forall e :: e in es ==> Possible(e)) && Play(s, es).error.None?
    ensures Play(s, es).s.conn == s.conn + Given(es) - |Payload(Play(s, es).frames)| <==> NeverFast(s, es, EVERY)
  {
    ConnAccount(s, es);
    FreeMeans(s, es, EVERY);
  }

  /** And so does the window of a stream that stays in the table, for the bodies on it. */
  lemma StreamChargedExactly(s: Send, es: seq<Event>, id: nat)
    requires Valid(s) && (forall e :: e in es ==> Possible(e)) && Play(s, es).error.None?
    requires id in s.streams && Forget(id) !in es
    ensures id in Play(s, es).s.streams
    ensures Play(s, es).s.streams[id] == s.streams[id] + GivenTo(id, es) - |Of(id, Play(s, es).frames)|
            <==> NeverFast(s, es, Only(id))
  {
    StreamAccount(s, es, id);
    FreeMeans(s, es, Only(id));
  }

  lemma {:induction false} FreeMeans(s: Send, es: seq<Event>, ids: nat -> bool)
    requires Valid(s) && forall e :: e in es ==> Possible(e)
    ensures FreeInAll(s, es, ids) == 0 <==> NeverFast(s, es, ids)
    decreases |es|
  {
    assert s.maxFrame > 0;
    hide Step, Valid, Possible, Fast;
    if es != [] {
      StepKeepsValid(s, es[0]);
      FreeMeans(Step(s, es[0]).s, es[1..], ids);
    }
  }

  lemma {:induction false} ConnAccount(s: Send, es: seq<Event>)
    requires Valid(s) && (forall e :: e in es ==> Possible(e)) && Play(s, es).error.None?
    ensures Play(s, es).s.conn == s.conn + Given(es) - |Payload(Play(s, es).frames)| + FreeInAll(s, es, EVERY)
    decreases |es|
  {
    assert s.maxFrame > 0;
    hide Step, Valid, Possible, Free;
    if es != [] {
      StepKeepsValid(s, es[0]);
      var r := Step(s, es[0]);
      ConnStep(s, es[0]);
      ConnAccount(r.s, es[1..]);
      PayloadConcat(r.frames, Play(r.s, es[1..]).frames);
    }
  }

  lemma ConnStep(s: Send, e: Event)
    requires Valid(s) && Possible(e) && Step(s, e).error.None?
    ensures Step(s, e).s.conn ==
            s.conn + (if e.ConnUpdate? then e.inc else 0) - |Payload(Step(s, e).frames)| + Free(s, e, EVERY)
  {
    hide Flush, Slices, Int32;
    match e {
      case WriteData(id, data, end) =>
        if Fast(s, data) {
          assert Payload([Chunk(id, data, end)]) == data + Payload([]);
        } else {
          SlicesCharge(s, id, data, end);
        }
      case ConnUpdate(inc) =>
        OverflowTestIsExact(s.conn, inc);
        FlushCharges(s.(conn := Int32(s.conn + Int32(inc))), 0);
      case StreamUpdate(id, inc) => FlushCharges(s.(streams := s.streams[id := Int32(s.streams[id] + Int32(inc))]), 0);
      case PeerSettings(ss) => SettingsKeepWindows(s, ss);
      case Register(_) =>
      case Forget(_) =>
    }
  }

  lemma {:induction false} StreamAccount(s: Send, es: seq<Event>, id: nat)
    requires Valid(s) && (forall e :: e in es ==> Possible(e)) && Play(s, es).error.None?
    requires id in s.streams && Forget(id) !in es
    ensures id in Play(s, es).s.streams
    ensures Play(s, es).s.streams[id] ==
            s.streams[id] + GivenTo(id, es) - |Of(id, Play(s, es).frames)| + FreeInAll(s, es, Only(id))
    decreases |es|
  {
    assert s.maxFrame > 0;
    hide Step, Valid, Possible, Free;
    if es != [] {
      StepKeepsValid(s, es[0]);
      var r := Step(s, es[0]);
      StreamStep(s, es[0], id);
      StreamAccount(r.s, es[1..], id);
      OfConcat(id, r.frames, Play(r.s, es[1..]).frames);
    }
  }

  lemma StreamStep(s: Send, e: Event, id: nat)
    requires Valid(s) && Possible(e) && Step(s, e).error.None? && id in s.streams && e != Forget(id)
    ensures id in Step(s, e).s.streams
    ensures Step(s, e).s.streams[id] ==
            s.streams[id] + (if e.StreamUpdate? && e.id == id then e.inc else 0) - |Of(id, Step(s, e).frames)|
                + Free(s, e, Only(id))
  {
    hide Flush, Slices, Int32;
    match e {
      case WriteData(j, data, end) =>
        if Fast(s, data) {
          assert [Chunk(j, data, end)][1..] == [];
        } else {
          SlicesChargeOf(s, j, data, end, id);
        }
      case ConnUpdate(inc) => FlushCharges(s.(conn := Int32(s.conn + Int32(inc))), id);
      case StreamUpdate(j, inc) =>
        OverflowTestIsExact(s.streams[j], inc);
        FlushCharges(s.(streams := s.streams[j := Int32(s.streams[j] + Int32(inc))]), id);
      case PeerSettings(ss) => SettingsKeepWindows(s, ss);
      case Register(_) =>
      case Forget(_) =>
    }
  }

  lemma {:induction false} SettingsKeepWindows(s: Send, ss: seq<Setting>)
    ensures ApplySettings(s, ss).0.conn == s.conn && ApplySettings(s, ss).0.streams == s.streams
    decreases |ss|
  {
    if ss != [] && ApplySetting(s, ss[0]).Some? { SettingsKeepWindows(ApplySetting(s, ss[0]).value, ss[1..]); }
  }

  lemma {:induction false} SlicesChargeOf(s: Send, j: nat, data: seq<byte>, end: bool, id: nat)
    requires s.maxFrame > 0 && id in s.streams
    ensures id in Slices(s, j, data, end).s.streams
    ensures Slices(s, j, data, end).s.streams[id] == s.streams[id] - |Of(id, Slices(s, j, data, end).frames)|
    decreases |data|
  {
    if data != [] && Avail(s, j) > 0 {
      var n, rest := SliceOnce(s, j, data, end);
      SlicesChargeOf(rest, j, data[n..], end, id);
      var more := Slices(rest, j, data[n..], end).frames;
      assert ([Chunk(j, data[..n], n == |data| && end)] + more)[1..] == more;
    }
  }

  /** A flush charges both windows with all that it sends. */
  lemma {:induction false} FlushCharges(s: Send, id: nat)
    ensures Flush(s).s.conn == s.conn - |Payload(Flush(s).frames)|
    ensures id in s.streams ==>
              id in Flush(s).s.streams && Flush(s).s.streams[id] == s.streams[id] - |Of(id, Flush(s).frames)|
    decreases |s.pending|
  {
    if s.pending != [] && 0 < Avail(s, s.pending[0].id) {
      var p, avail := s.pending[0], Avail(s, s.pending[0].id);
      if |p.data| > avail {
        assert [Chunk(p.id, p.data[..avail], false)][1..] == [];
      } else {
        var s' := FirstSent(s);
        FlushCharges(s', id);
        assert ([Chunk(p.id, p.data, p.end && |s.pending| == 1)] + Flush(s').frames)[1..] == Flush(s').frames;
      }
    }
  }

  // ---- where END_STREAM is ----------------------------------------------------------------------------

  /** END_STREAM of a stream, on frames sent or waiting to be: when the stream has ended, it is on
      the last of them and on no other; before, it is on none. */
  predicate EndRight(id: nat, cs: seq<Chunk>, ended: bool) {
    && (ended ==> exists k :: 0 <= k < |cs| && cs[k].id == id)
    && forall k :: 0 <= k < |cs| && cs[k].id == id ==> (cs[k].end <==> ended && NoneBehind(id, cs, k))
  }

  predicate NoneBehind(id: nat, cs: seq<Chunk>, k: int) {
    forall j :: 0 <= k < j < |cs| ==> cs[j].id != id
  }

  /** A body that ends the stream has been written. */
  predicate EndWritten(id: nat, es: seq<Event>) {
    exists k :: 0 <= k < |es| && EndsStream(id, es[k])
  }

  predicate EndsStream(id: nat, e: Event) {
    e.WriteData? && e.id == id && e.end
  }

  /** Nothing is written to a stream behind the body that ends it. */
  predicate EndsOnce(es: seq<Event>) {
    forall i, j :: 0 <= i < j < |es| && es[j].WriteData? ==> !EndsStream(es[j].id, es[i])
  }

  /** The state in which an event flushes. */
  function Widened(s: Send, e: Event): Option<Send> {
    if e.ConnUpdate? then Some(s.(conn := Int32(s.conn + Int32(e.inc))))
    else if e.StreamUpdate? && e.id in s.streams then
      Some(s.(streams := s.streams[e.id := Int32(s.streams[e.id] + Int32(e.inc))]))
    else None
  }

  /** A flush loses the END_STREAM of this stream: the windows cover its last item, and
      something is queued behind. `EndStreamExactly` is about one flush and all streams. */
  predicate Loses(s: Send, id: nat) {
    exists n :: 0 < n < |s.pending| && LosesAt(s, id, n)
  }

  predicate LosesAt(s: Send, id: nat, n: nat)
    requires 0 < n < |s.pending|
  {
    Covered(s, n) && s.pending[n - 1].id == id && s.pending[n - 1].end
  }

  /** No flush of a run does. */
  predicate NeverLoses(s: Send, es: seq<Event>, id: nat)
    requires Valid(s) && forall e :: e in es ==> Possible(e)
    decreases |es|
  {
    es == [] ||
      (StepKeepsValid(s, es[0]);
       (Widened(s, es[0]).Some? ==> !Loses(Widened(s, es[0]).value, id)) && NeverLoses(Step(s, es[0]).s, es[1..], id))
  }

  /** A run from a new connection in which every write meets the condition of `OrderKeptExactly`
      and none comes behind the end of its stream. On a stream, END_STREAM is on exactly the
      frame that ends the last body, sent or still queued, exactly when no flush finds
      the stream's last item covered and something queued behind it. */
  lemma EndsAreRightExactly(es: seq<Event>, id: nat)
    requires Valid(NewSend) && (forall e :: e in es ==> Possible(e)) && InTurn(NewSend, es) && EndsOnce(es)
    requires Play(NewSend, es).error.None?
    ensures EndRight(id, Play(NewSend, es).frames + Play(NewSend, es).s.pending, EndWritten(id, es))
            <==> NeverLoses(NewSend, es, id)
  {
    hide Valid, InTurn, NeverLoses, EndWritten, EndRight;
    var r := Play(NewSend, es);
    assert [] + Flags(id, NewSend.pending) == [];
    RunFlags([], NewSend, es, id, false);
    FlagsMean(id, r.frames + r.s.pending, EndWritten(id, es));
    FlagsConcat(id, r.frames, r.s.pending);
    var fs := Flags(id, r.frames) + Flags(id, r.s.pending);
    assert [] + fs == fs;
  }

  /** The END_STREAM flags of a stream's frames. */
  function Flags(id: nat, cs: seq<Chunk>): seq<bool> {
    if cs == [] then [] else (if cs[0].id == id then [cs[0].end] else []) + Flags(id, cs[1..])
  }

  predicate NoFlag(fs: seq<bool>) {
    forall k :: 0 <= k < |fs| ==> !fs[k]
  }

  predicate LastOnly(fs: seq<bool>, ended: bool) {
    if ended then fs != [] && fs[|fs| - 1] && NoFlag(fs[..|fs| - 1]) else NoFlag(fs)
  }

  lemma {:induction false} FlagsConcat(id: nat, a: seq<Chunk>, b: seq<Chunk>)
    ensures Flags(id, a + b) == Flags(id, a) + Flags(id, b)
  {
    if a == [] {
      assert a + b == b;
    } else {
      FlagsConcat(id, a[1..], b);
      assert (a + b)[0] == a[0] && (a + b)[1..] == a[1..] + b;
    }
  }

  lemma NoFlagConcat(a: seq<bool>, b: seq<bool>)
    ensures NoFlag(a + b) <==> NoFlag(a) && NoFlag(b)
  {
    if NoFlag(a + b) {
      forall k | 0 <= k < |a| ensures !a[k] { assert a[k] == (a + b)[k]; }
      forall k | 0 <= k < |b| ensures !b[k] { assert b[k] == (a + b)[|a| + k]; }
    }
  }

  /** The last flag of a concatenation is that of its last part, if there is one. */
  lemma LastOfConcat(a: seq<bool>, b: seq<bool>, ended: bool)
    ensures b != [] ==> (LastOnly(a + b, ended) <==> NoFlag(a) && LastOnly(b, ended))
    ensures b == [] ==> a + b == a
  {
    if b != [] {
      NoFlagConcat(a, b);
      NoFlagConcat(a, b[..|b| - 1]);
      assert (a + b)[..|a + b| - 1] == a + b[..|b| - 1];
    }
  }

  lemma OneFlag(x: bool, ended: bool)
    ensures LastOnly([x], ended) <==> x == ended
  {
    assert [x][..0] == [];
    if NoFlag([x]) { assert ![x][0]; }
  }

  lemma {:induction false} FlagsMean(id: nat, cs: seq<Chunk>, ended: bool)
    ensures EndRight(id, cs, ended) <==> LastOnly(Flags(id, cs), ended)
    decreases |cs|
  {
    if cs != [] {
      var init, last := cs[..|cs| - 1], cs[|cs| - 1];
      assert cs == init + [last];
      FlagsConcat(id, init, [last]);
      assert [last][1..] == [] && Flags(id, [last]) == if last.id == id then [last.end] else [];
      OneFlag(last.end, ended);
      LastOfConcat(Flags(id, init), Flags(id, [last]), ended);
      FlagsMean(id, init, if last.id == id then false else ended);
      EndRightSnoc(id, init, last, ended);
    }
  }

  lemma EndRightSnoc(id: nat, init: seq<Chunk>, last: Chunk, ended: bool)
    ensures EndRight(id, init + [last], ended) <==>
            if last.id == id then EndRight(id, init, false) && last.end == ended else EndRight(id, init, ended)
  {
    var cs := init + [last];
    assert NoneBehind(id, cs, |init|);
    forall k | 0 <= k < |init| ensures NoneBehind(id, cs, k) <==> last.id != id && NoneBehind(id, init, k) {
      assert cs[k] == init[k] && cs[|init|] == last;
      if NoneBehind(id, cs, k) {
        forall j | k < j < |init| ensures init[j].id != id { assert cs[j] == init[j]; }
      }
    }
    forall k | 0 <= k < |init| ensures cs[k] == init[k] {}
    assert cs[|init|] == last;
    if EndRight(id, cs, ended) {
      forall k | 0 <= k < |init| && init[k].id == id
        ensures init[k].end <==> (last.id != id && ended && NoneBehind(id, init, k))
      {
        assert cs[k].id == id;
      }
      if ended && last.id != id {
        var k :| 0 <= k < |cs| && cs[k].id == id;
        assert k < |init| && init[k].id == id;
      }
    }
    if last.id != id && EndRight(id, init, ended) && ended {
      var k :| 0 <= k < |init| && init[k].id == id;
      assert cs[k].id == id;
    }
    if last.id == id { assert cs[|init|].id == id; }
  }

  // ---- one flush, one event, a run ------------------------------------------------------------

  lemma {:induction false} FlagAt(id: nat, cs: seq<Chunk>, k: nat)
    requires k < |cs| && cs[k].id == id
    ensures Flags(id, cs) != [] && (cs[k].end ==> !NoFlag(Flags(id, cs)))
    decreases k
  {
    var one, more := if cs[0].id == id then [cs[0].end] else [], Flags(id, cs[1..]);
    NoFlagConcat(one, more);
    if k > 0 { FlagAt(id, cs[1..], k - 1); } else { assert one[0] == cs[0].end; }
  }

  lemma NothingToLose(s: Send, id: nat)
    requires NoFlag(Flags(id, s.pending))
    ensures !Loses(s, id)
  {
    hide Covered, NoFlag, Flags;
    forall n | 0 < n < |s.pending| ensures !LosesAt(s, id, n) {
      if s.pending[n - 1].id == id { FlagAt(id, s.pending, n - 1); }
    }
  }

  lemma LosesMoves(s: Send, id: nat)
    requires Valid(s) && s.pending != []
    ensures var p := s.pending[0];
            if |p.data| > Avail(s, p.id) then !Loses(s, id)
            else Loses(s, id) <==> (p.id == id && p.end && |s.pending| > 1) || Loses(FirstSent(s), id)
  {
    var p, s' := s.pending[0], FirstSent(s);
    forall n | 0 < n < |s.pending|
        ensures Covered(s, n) <==> |p.data| <= Avail(s, p.id) && Covered(s', n - 1) { CoverMoves(s, n); }
    FrontFits(s);
    if |p.data| <= Avail(s, p.id) && |s.pending| > 1 { NothingInFront(s'); }
    hide Covered, Valid;
    if |p.data| <= Avail(s, p.id) {
      forall n | 0 < n < |s'.pending| ensures LosesAt(s', id, n) <==> LosesAt(s, id, n + 1) {
        assert s'.pending[n - 1] == s.pending[n];
      }
      if |s.pending| > 1 { assert LosesAt(s, id, 1) <==> p.id == id && p.end; }
      if Loses(s, id) {
        var n :| 0 < n < |s.pending| && LosesAt(s, id, n);
        if n > 1 { assert LosesAt(s', id, n - 1); }
      }
      if Loses(s', id) {
        var n :| 0 < n < |s'.pending| && LosesAt(s', id, n);
        assert LosesAt(s, id, n + 1);
      }
    }
  }

  /** The flags of a stream behind a flush: sent ones, then waiting ones. */
  function FlushedFlags(s: Send, id: nat): seq<bool> {
    Flags(id, Flush(s).frames) + Flags(id, Flush(s).s.pending)
  }

  /** How they come about from those of the queue, item by item. */
  lemma FlushedFlagsMove(s: Send, id: nat)
    requires Valid(s) && s.pending != []
    ensures var p, more := s.pending[0], Flags(id, s.pending[1..]); var avail := Avail(s, p.id);
            && Flags(id, s.pending) == (if p.id == id then [p.end] else []) + more
            && FlushedFlags(s, id) ==
               if avail <= 0 then Flags(id, s.pending)
               else if |p.data| > avail then (if p.id == id then [false] else []) + Flags(id, s.pending)
               else (if p.id == id then [p.end && |s.pending| == 1] else []) + FlushedFlags(FirstSent(s), id)
  {
    var p, avail := s.pending[0], Avail(s, s.pending[0].id);
    hide Valid;
    if avail > 0 && |p.data| > avail {
      var rest := p.(data := p.data[avail..]);
      assert ([rest] + s.pending[1..])[1..] == s.pending[1..];
      assert Flags(id, [rest] + s.pending[1..]) == Flags(id, s.pending);
      assert [Chunk(p.id, p.data[..avail], false)][1..] == [];
      assert Flags(id, [Chunk(p.id, p.data[..avail], false)]) == if p.id == id then [false] else [];
    } else if avail > 0 {
      var fs := Flush(FirstSent(s)).frames;
      assert ([Chunk(p.id, p.data, p.end && |s.pending| == 1)] + fs)[1..] == fs;
    }
  }

  /** An unfinished stream stays so, and a stream without frames gets none. */
  lemma {:induction false} FlushNoFlag(s: Send, id: nat)
    requires Valid(s) && NoFlag(Flags(id, s.pending))
    ensures NoFlag(FlushedFlags(s, id)) && (Flags(id, s.pending) == [] ==> FlushedFlags(s, id) == [])
    decreases |s.pending|
  {
    if s.pending != [] {
      FlushedFlagsMove(s, id);
      FrontFits(s);
      var p, more := s.pending[0], Flags(id, s.pending[1..]);
      NoFlagConcat(if p.id == id then [p.end] else [], more);
      if p.id == id { OneFlag(p.end, false); }
      hide Valid, Flags, FlushedFlags;
      if 0 < |p.data| <= Avail(s, p.id) {
        FlushNoFlag(FirstSent(s), id);
      }
    }
  }

  /** A flush loses the one flag of a stream, or keeps it on the last of its frames. */
  lemma {:induction false} FlushFlags(s: Send, id: nat)
    requires Valid(s) && LastOnly(Flags(id, s.pending), true)
    ensures LastOnly(FlushedFlags(s, id), true) <==> !Loses(s, id)
    ensures Loses(s, id) ==> NoFlag(FlushedFlags(s, id))
    decreases |s.pending|
  {
    FlushedFlagsMove(s, id);
    LosesMoves(s, id);
    FrontFits(s);
    var p, more := s.pending[0], Flags(id, s.pending[1..]);
    assert FirstSent(s).pending == s.pending[1..] && [] + more == more;
    hide Valid, Flags, FlushedFlags, NoFlag, Loses, FirstSent, Avail;
    if |p.data| <= Avail(s, p.id) {
      if p.id != id {
        assert [] + FlushedFlags(FirstSent(s), id) == FlushedFlags(FirstSent(s), id);
        FlushFlags(FirstSent(s), id);
      } else if more == [] {
        OneFlag(p.end, true);
        assert [p.end] + more == [p.end];
        LastItem(s, id);
        assert [|s.pending| == 1] + [] == [|s.pending| == 1];
      } else {
        LastOfConcat([p.end], more, true);
        OneFlag(p.end, false);
        FlushFlags(FirstSent(s), id);
        FalseInFront(FlushedFlags(FirstSent(s), id));
      }
    } else if p.id == id {
      FalseInFront(Flags(id, s.pending));
    }
  }

  lemma LastItem(s: Send, id: nat)
    requires Valid(s) && s.pending != [] && s.pending[0].id == id && s.pending[0].end && Flags(id, s.pending[1..]) == []
    requires |s.pending[0].data| <= Avail(s, id) && Valid(FirstSent(s))
    ensures !Loses(FirstSent(s), id) && FlushedFlags(FirstSent(s), id) == []
    ensures LastOnly([|s.pending| == 1], true) <==> |s.pending| == 1
    ensures |s.pending| != 1 ==> NoFlag([|s.pending| == 1])
  {
    NoneFlagged();
    NothingToLose(FirstSent(s), id);
    FlushNoFlag(FirstSent(s), id);
    OneFlag(|s.pending| == 1, true);
    OneFlag(|s.pending| == 1, false);
  }

  lemma FalseInFront(fs: seq<bool>)
    ensures LastOnly(fs, true) ==> LastOnly([false] + fs, true) && !NoFlag(fs)
    ensures NoFlag(fs) ==> NoFlag([false] + fs) && !LastOnly([false] + fs, true)
    ensures !LastOnly(fs, true) ==> !LastOnly([false] + fs, true)
  {
    LastOfConcat([false], fs, true);
    NoFlagConcat([false], fs);
    OneFlag(false, false);
    OneFlag(false, true);
  }

  /** What an event does to the flags of a stream, behind those of frames sent before. */
  lemma StepFlags(g: seq<bool>, s: Send, e: Event, id: nat, ended: bool)
    requires Valid(s) && Possible(e) && Step(s, e).error.None?
    requires e.WriteData? ==> Of(e.id, s.pending) == [] || Waits(s, e.id, |e.data|, e.end)
    requires LastOnly(g + Flags(id, s.pending), ended) && (ended ==> !(e.WriteData? && e.id == id))
    ensures var fs := g + (Flags(id, Step(s, e).frames) + Flags(id, Step(s, e).s.pending));
            var lost := Widened(s, e).Some? && Loses(Widened(s, e).value, id);
            && (LastOnly(fs, ended || EndsStream(id, e)) <==> !lost)
            && (lost ==> ended && NoFlag(fs))
  {
    hide Flush, Slices, Waits, Loses, Flags, LastOnly, Int32;
    match e {
      case WriteData(j, data, end) => WriteFlags(g, s, j, data, end, id, ended);
      case ConnUpdate(inc) => WidenedValid(s, e); FlushStep(g, Widened(s, e).value, id, ended);
      case StreamUpdate(j, inc) => WidenedValid(s, e); FlushStep(g, Widened(s, e).value, id, ended);
      case PeerSettings(ss) => SettingsKeepQueue(s, ss); NoFrames(id, s.pending);
      case Register(j) => NoFrames(id, s.pending);
      case Forget(j) => NoFrames(id, s.pending);
    }
  }

  lemma NoFrames(id: nat, pending: seq<Chunk>)
    ensures Flags(id, []) + Flags(id, pending) == Flags(id, pending)
  {
  }

  lemma WidenedValid(s: Send, e: Event)
    requires Valid(s) && Possible(e) && Step(s, e).error.None? && (e.ConnUpdate? || e.StreamUpdate?)
    ensures Widened(s, e).Some? && Valid(Widened(s, e).value) && Widened(s, e).value.pending == s.pending
    ensures Step(s, e) == Flush(Widened(s, e).value)
  {
    hide Flush, Int32;
    if e.ConnUpdate? { OverflowTestIsExact(s.conn, e.inc); } else { OverflowTestIsExact(s.streams[e.id], e.inc); }
  }

  lemma FlushStep(g: seq<bool>, s: Send, id: nat, ended: bool)
    requires Valid(s) && LastOnly(g + Flags(id, s.pending), ended)
    ensures LastOnly(g + FlushedFlags(s, id), ended) <==> !Loses(s, id)
    ensures Loses(s, id) ==> ended && NoFlag(g + FlushedFlags(s, id))
  {
    var fs, fs' := Flags(id, s.pending), FlushedFlags(s, id);
    LastOfConcat(g, fs, ended);
    LastOfConcat(g, fs', ended);
    NoFlagConcat(g, fs);
    NoFlagConcat(g, fs');
    hide Valid, Flags, FlushedFlags, Loses, NoFlag;
    if fs == [] || !ended {
      assert NoFlag(fs) by { NoneFlagged(); }
      NothingToLose(s, id);
      FlushNoFlag(s, id);
    } else {
      FlushFlags(s, id);
      NotBoth(g + fs');
      NotBoth(fs');
    }
  }

  lemma NoneFlagged()
    ensures NoFlag([])
  {
  }

  lemma WriteFlags(g: seq<bool>, s: Send, j: nat, data: seq<byte>, end: bool, id: nat, ended: bool)
    requires Valid(s) && (Of(j, s.pending) == [] || Waits(s, j, |data|, end))
    requires LastOnly(g + Flags(id, s.pending), ended) && (ended ==> j != id)
    ensures var r := Write(s, j, data, end);
            LastOnly(g + (Flags(id, r.frames) + Flags(id, r.s.pending)), ended || (j == id && end))
  {
    if j != id {
      OtherFlags(s, j, data, end, id);
    } else {
      NoFlagConcat(g, Flags(id, s.pending));
      OwnFlags(s, j, data, end);
      var r := Write(s, j, data, end);
      var fs, wait, left := Flags(j, r.frames), Flags(j, s.pending), Flags(j, r.s.pending);
      hide Valid, Flags, Write, Waits, Of, NoFlag;
      NoFlagConcat(g, wait);
      LastOfConcat(g, fs + left, end);
    }
  }

  lemma OtherFlags(s: Send, j: nat, data: seq<byte>, end: bool, id: nat)
    requires Valid(s) && j != id
    ensures var r := Write(s, j, data, end);
            Flags(id, r.frames) + Flags(id, r.s.pending) == Flags(id, s.pending)
  {
    hide Slices;
    var r := Write(s, j, data, end);
    if Fast(s, data) {
      FlagsOfOther(id, r.frames);
    } else {
      SlicesAreRight(s, j, data, end);
      var left := r.s.pending[|s.pending|..];
      assert r.s.pending == s.pending + left;
      FlagsConcat(id, s.pending, left);
      FlagsOfOther(id, r.frames);
      FlagsOfOther(id, left);
    }
  }

  lemma {:induction false} FlagsOfOther(id: nat, cs: seq<Chunk>)
    requires forall k :: 0 <= k < |cs| ==> cs[k].id != id
    ensures Flags(id, cs) == []
  {
    if cs != [] { FlagsOfOther(id, cs[1..]); }
  }

  /** A write that is in turn puts its flag behind all flags that wait, when it asks for one. */
  lemma OwnFlags(s: Send, id: nat, data: seq<byte>, end: bool)
    requires Valid(s) && (Of(id, s.pending) == [] || Waits(s, id, |data|, end)) && NoFlag(Flags(id, s.pending))
    ensures var r := Write(s, id, data, end); var fs := Flags(id, r.frames) + Flags(id, r.s.pending);
            fs != [] && LastOnly(fs, end)
  {
    if Of(id, s.pending) == [] { NoneWait(s, id); }
    var waiting := Flags(id, s.pending);
    if Fast(s, data) {
      assert [Chunk(id, data, end)][1..] == [] && Flags(id, [Chunk(id, data, end)]) == [end];
      assert waiting != [] ==> !end;
      hide Valid, Flags, Waits, Of;
      OneFlag(end, end);
      OneFlag(end, false);
      NoFlagConcat([end], waiting);
      assert [end] + [] == [end];
    } else {
      if waiting != [] { AllQueued(s, id, data, end); }
      OwnSliced(s, id, data, end);
    }
  }

  lemma OwnSliced(s: Send, id: nat, data: seq<byte>, end: bool)
    requires Valid(s) && !Fast(s, data) && NoFlag(Flags(id, s.pending))
    requires Flags(id, s.pending) != [] ==> Slices(s, id, data, end).s.pending == s.pending + [Chunk(id, data, end)]
    ensures var r := Slices(s, id, data, end); var fs := Flags(id, r.frames) + Flags(id, r.s.pending);
            fs != [] && LastOnly(fs, end)
  {
    SlicesAreRight(s, id, data, end);
    hide Slices, Valid, Payload;
    var r, waiting := Slices(s, id, data, end), Flags(id, s.pending);
    var left := r.s.pending[|s.pending|..];
    assert r.s.pending == s.pending + left;
    FlagsConcat(id, s.pending, left);
    if left == [] {
      FlagsOfBody(id, r.frames, end);
      assert waiting == [] && Flags(id, left) == [];
      assert Flags(id, r.frames) + [] == Flags(id, r.frames) && [] + Flags(id, left) == [];
    } else {
      assert left == [left[0]] && [left[0]][1..] == [];
      assert Flags(id, left) == [end];
      FlagsOfBody(id, r.frames, false);
      hide Flags, NoFlag;
      OneFlag(end, end);
      LastOfConcat(waiting, [end], end);
      LastOfConcat(Flags(id, r.frames), waiting + [end], end);
    }
  }

  lemma NoneWait(s: Send, id: nat)
    requires Valid(s) && Of(id, s.pending) == []
    ensures Flags(id, s.pending) == []
  {
    forall k | 0 <= k < |s.pending| ensures s.pending[k].id != id {
      if s.pending[k].id == id { SomeOf(id, s.pending, k); }
    }
    FlagsOfOther(id, s.pending);
  }

  lemma {:induction false} SomeOf(id: nat, cs: seq<Chunk>, k: nat)
    requires k < |cs| && cs[k].id == id && cs[k].data != []
    ensures Of(id, cs) != []
    decreases k
  {
    if k > 0 { SomeOf(id, cs[1..], k - 1); }
  }

  lemma AllQueued(s: Send, id: nat, data: seq<byte>, end: bool)
    requires Valid(s) && Waits(s, id, |data|, end) && !Fast(s, data)
    ensures Write(s, id, data, end).s.pending == s.pending + [Chunk(id, data, end)]
  {
  }

  /** Frames that carry a whole body, or the beginning of one. */
  lemma {:induction false} FlagsOfBody(id: nat, cs: seq<Chunk>, end: bool)
    requires forall k :: 0 <= k < |cs| ==> cs[k].id == id && cs[k].end == (end && k == |cs| - 1)
    ensures |Flags(id, cs)| == |cs| && (if cs == [] then NoFlag(Flags(id, cs)) else LastOnly(Flags(id, cs), end))
    decreases |cs|
  {
    if cs != [] {
      FlagsOfBody(id, cs[1..], end);
      OneFlag(cs[0].end, end);
      OneFlag(cs[0].end, false);
      assert [cs[0].end] + [] == [cs[0].end];
      LastOfConcat([cs[0].end], Flags(id, cs[1..]), end);
    }
  }

  /** A lost END_STREAM stays lost. */
  lemma {:induction false} StaysLost(g: seq<bool>, s: Send, es: seq<Event>, id: nat)
    requires Valid(s) && (forall e :: e in es ==> Possible(e)) && InTurn(s, es) && Play(s, es).error.None?
    requires NoFlag(g + Flags(id, s.pending)) && (forall e :: e in es ==> !EndsStream(id, e))
    ensures var r := Play(s, es); NoFlag(g + (Flags(id, r.frames) + Flags(id, r.s.pending)))
    decreases |es|
  {
    assert s.maxFrame > 0;
    hide Step, Valid, Possible, Waits, Flags, NoFlag, Loses;
    if es == [] {
      NoFrames(id, s.pending);
    } else {
      StepKeepsValid(s, es[0]);
      var r := Step(s, es[0]);
      StepFlags(g, s, es[0], id, false);
      assert !EndsStream(id, es[0]);
      Regroup(g, id, r, es[1..]);
      StaysLost(g + Flags(id, r.frames), r.s, es[1..], id);
    }
  }

  /** The flags of the frames of an event, in front of those of the rest of the run. */
  lemma Regroup(g: seq<bool>, id: nat, r: Stepped, es: seq<Event>)
    requires Valid(r.s) && forall e :: e in es ==> Possible(e)
    ensures var more := Play(r.s, es);
            g + (Flags(id, r.frames + more.frames) + Flags(id, more.s.pending)) ==
            (g + Flags(id, r.frames)) + (Flags(id, more.frames) + Flags(id, more.s.pending))
    ensures g + (Flags(id, r.frames) + Flags(id, r.s.pending)) == g + Flags(id, r.frames) + Flags(id, r.s.pending)
  {
    hide Valid, Possible, Play;
    FlagsConcat(id, r.frames, Play(r.s, es).frames);
  }

  lemma {:induction false} RunFlags(g: seq<bool>, s: Send, es: seq<Event>, id: nat, ended: bool)
    requires Valid(s) && (forall e :: e in es ==> Possible(e)) && InTurn(s, es) && Play(s, es).error.None?
    requires LastOnly(g + Flags(id, s.pending), ended) && EndsOnce(es)
    requires ended ==> forall e :: e in es ==> !(e.WriteData? && e.id == id)
    ensures var r := Play(s, es);
            LastOnly(g + (Flags(id, r.frames) + Flags(id, r.s.pending)), ended || EndWritten(id, es)) <==>
                NeverLoses(s, es, id)
    decreases |es|
  {
    assert s.maxFrame > 0;
    hide Step, Valid, Possible, Waits, Flags, NoFlag, Loses, Widened, EndWritten, EndsOnce;
    EndsMove(es, id);
    if es == [] {
      NoFrames(id, s.pending);
    } else {
      StepKeepsValid(s, es[0]);
      var r, ended' := Step(s, es[0]), ended || EndsStream(id, es[0]);
      assert es[0] in es;
      StepFlags(g, s, es[0], id, ended);
      Regroup(g, id, r, es[1..]);
      if Widened(s, es[0]).Some? && Loses(Widened(s, es[0]).value, id) {
        StaysLost(g + Flags(id, r.frames), r.s, es[1..], id);
        NotBoth(g + (Flags(id, Play(s, es).frames) + Flags(id, Play(s, es).s.pending)));
      } else {
        RunFlags(g + Flags(id, r.frames), r.s, es[1..], id, ended');
      }
    }
  }

  lemma NotBoth(fs: seq<bool>)
    ensures NoFlag(fs) ==> !LastOnly(fs, true)
  {
  }

  lemma EndsMove(es: seq<Event>, id: nat)
    requires EndsOnce(es)
    ensures es == [] ==> !EndWritten(id, es)
    ensures es != [] ==> (EndWritten(id, es) <==> EndsStream(id, es[0]) || EndWritten(id, es[1..])) && EndsOnce(es[1..])
    ensures es != [] && EndsStream(id, es[0]) ==> forall e :: e in es[1..] ==> !(e.WriteData? && e.id == id)
  {
    if es != [] {
      if EndWritten(id, es) && !EndsStream(id, es[0]) {
        var k :| 0 <= k < |es| && EndsStream(id, es[k]);
        assert EndsStream(id, es[1..][k - 1]);
      }
      if EndWritten(id, es[1..]) {
        var k :| 0 <= k < |es[1..]| && EndsStream(id, es[1..][k]);
        assert EndsStream(id, es[k + 1]);
      }
      forall i, j | 0 <= i < j < |es[1..]| && es[1..][j].WriteData? ensures !EndsStream(es[1..][j].id, es[1..][i]) {
        assert es[i + 1] == es[1..][i] && es[j + 1] == es[1..][j];
      }
      forall e | e in es[1..] && EndsStream(id, es[0]) ensures !(e.WriteData? && e.id == id) {
        var k :| 0 <= k < |es[1..]| && es[1..][k] == e;
        assert es[k + 1] == e;
      }
    }
  }
}
