/** HTTP/2 sending: two levels of flow control, the queue of unsent data, and the
    splitting of bodies and header blocks into frames (http2/conn.go). */
module Http2Send {
  import opened Bytes
  import opened Framing
  import opened Http2Frame

  const MAX_WINDOW := 0x7fff_ffff          // 2^31 - 1
  const DEFAULT_INITIAL_WINDOW := 65535

  /** Conversion to a 32-bit signed number. */
  function Int32(x: int): (r: int)
    ensures -0x8000_0000 <= r <= MAX_WINDOW
  {
    (x + 0x8000_0000) % 0x1_0000_0000 - 0x8000_0000
  }

  /** Data for a stream: a DATA frame when it is sent, a queued rest when it is not. */
  datatype Chunk = Chunk(id: nat, data: seq<byte>, end: bool)

  /** What sending depends on: the peer's frame limit and initial window, the connection's
      window, the windows of the streams in the table, and the queue. */
  datatype Send = Send(maxFrame: nat, initial: nat, conn: int, streams: map<nat, int>, pending: seq<Chunk>)

  const NewSend := Send(DEFAULT_MAX_FRAME_SIZE, DEFAULT_INITIAL_WINDOW, DEFAULT_INITIAL_WINDOW, map[], [])

  /** The frames a step wrote, the state it left and its error. */
  datatype Stepped = Stepped(frames: seq<Chunk>, s: Send, error: Option<Error>)

  predicate InRange(w: int) {
    0 <= w <= MAX_WINDOW
  }

  predicate Queued(c: Chunk) {
    0 < |c.data| <= MAX_WINDOW
  }

  predicate Valid(s: Send) {
    && DEFAULT_MAX_FRAME_SIZE <= s.maxFrame <= MAX_FRAME_SIZE && InRange(s.initial) && InRange(s.conn)
    && (forall id :: id in s.streams ==> InRange(s.streams[id]))
    && (forall k :: 0 <= k < |s.pending| ==> Queued(s.pending[k]))
  }

  function DataFrame(c: Chunk): seq<byte> {
    AppendData([], c.id, c.data, c.end)
  }

  function Min(a: int, b: int): int {
    if b < a then b else a
  }

  // ---- windows ------------------------------------------------------------------

  /** The smaller of the two windows; only the connection's for a stream not in the table. */
  function Avail(s: Send, id: nat): int {
    if id in s.streams then Min(s.conn, s.streams[id]) else s.conn
  }

  function Charge(s: Send, id: nat, n: int): Send {
    s.(conn := s.conn - n, streams := if id in s.streams then s.streams[id := s.streams[id] - n] else s.streams)
  }

  /** The test `window > (1<<31-1) - int32(inc)`, in 32-bit arithmetic. */
  predicate Overflows(window: int, inc: nat) {
    window > Int32(MAX_WINDOW - Int32(inc))
  }

  /** Though both the conversion and the difference may wrap, the test is exact for every
      32-bit window and every increment, and the wrapping sum is the true one when it passes. */
  lemma OverflowTestIsExact(window: int, inc: nat)
    requires -0x8000_0000 <= window <= MAX_WINDOW && inc < 0x1_0000_0000
    ensures Overflows(window, inc) <==> window + inc > MAX_WINDOW
    ensures !Overflows(window, inc) ==> Int32(window + Int32(inc)) == window + inc
  {
    if inc < 0x8000_0000 {
      assert Int32(inc) == inc;
    } else {
      assert Int32(inc) == inc - 0x1_0000_0000;
    }
  }

  // ---- writing data ---------------------------------------------------------------

  function Slices(s: Send, id: nat, data: seq<byte>, end: bool): (r: Stepped)
    requires s.maxFrame > 0
    decreases |data|
  {
    if data == [] then Stepped([], s, None)
    else
      var avail := Avail(s, id);
      if avail <= 0 then Stepped([], s.(pending := s.pending + [Chunk(id, data, end)]), None)
      else
        var n := Min(Min(s.maxFrame, |data|), avail);
        var r := Slices(Charge(s, id, n), id, data[n..], end);
        r.(frames := [Chunk(id, data[..n], n == |data| && end)] + r.frames)
  }

  /** The guard of the fast path: it looks at neither the stream's window nor the queue. */
  predicate Fast(s: Send, data: seq<byte>) {
    |data| <= s.maxFrame && |data| <= s.conn
  }

  function Write(s: Send, id: nat, data: seq<byte>, end: bool): Stepped
    requires s.maxFrame > 0
  {
    if Fast(s, data) then Stepped([Chunk(id, data, end)], s, None) else Slices(s, id, data, end)
  }

  function Flush(s: Send): Stepped
    decreases |s.pending|
  {
    if s.pending == [] then Stepped([], s, None)
    else
      var p, avail := s.pending[0], Avail(s, s.pending[0].id);
      if avail <= 0 then Stepped([], s, None)
      else if |p.data| > avail then
        var rest := p.(data := p.data[avail..]);
        Stepped([Chunk(p.id, p.data[..avail], false)], Charge(s, p.id, avail).(pending := [rest] + s.pending[1..]),
            None)
      else
        var r := Flush(Charge(s, p.id, |p.data|).(pending := s.pending[1..]));
        r.(frames := [Chunk(p.id, p.data, p.end && |s.pending| == 1)] + r.frames)
  }

  // ---- events -----------------------------------------------------------------------

  datatype Event =
    | WriteData(id: nat, data: seq<byte>, end: bool)
    | ConnUpdate(inc: nat)
    | StreamUpdate(id: nat, inc: nat)
    | PeerSettings(ss: seq<Setting>)
    | Register(id: nat)
    | Forget(id: nat)

  /** What the wire and the caller can give: 32-bit increments, bodies shorter than 2^31. */
  predicate Possible(e: Event) {
    match e
    case WriteData(_, data, _) => |data| <= MAX_WINDOW
    case ConnUpdate(inc) => inc < 0x1_0000_0000
    case StreamUpdate(_, inc) => inc < 0x1_0000_0000
    case _ => true
  }

  /** One setting; `None` for a value that is refused. */
  function ApplySetting(s: Send, x: Setting): Option<Send> {
    if x.id == 2 then (if x.value == 0 || x.value == 1 then Some(s) else None)
    else if x.id == 4 then (if x.value > MAX_WINDOW then None else Some(s.(initial := x.value)))
    else if x.id == 5 then (if x.value < DEFAULT_MAX_FRAME_SIZE || x.value > MAX_FRAME_SIZE then None
        else Some(s.(maxFrame := x.value)))
    else Some(s)
  }

  function ApplySettings(s: Send, ss: seq<Setting>): (Send, Option<Error>)
    decreases |ss|
  {
    if ss == [] then (s, None)
    else
      var s' := ApplySetting(s, ss[0]);
      if s'.None? then (s, Some(Malformed)) else ApplySettings(s'.value, ss[1..])
  }

  function Step(s: Send, e: Event): Stepped
    requires s.maxFrame > 0
  {
    match e
    case WriteData(id, data, end) => Write(s, id, data, end)
    case ConnUpdate(inc) =>
      if inc == 0 then Stepped([], s, Some(Malformed))
      else if Overflows(s.conn, inc) then Stepped([], s, Some(ConnError(FLOW_CONTROL_ERROR)))
      else Flush(s.(conn := Int32(s.conn + Int32(inc))))
    case StreamUpdate(id, inc) =>
      if id !in s.streams then Stepped([], s, Some(ConnError(PROTOCOL_ERROR)))
      else if inc == 0 then Stepped([], s, Some(ConnError(PROTOCOL_ERROR)))
      else if Overflows(s.streams[id], inc) then Stepped([], s, Some(StreamError(id, FLOW_CONTROL_ERROR)))
      else Flush(s.(streams := s.streams[id := Int32(s.streams[id] + Int32(inc))]))
    case PeerSettings(ss) =>
      var (s', e) := ApplySettings(s, ss);
      Stepped([], s', e)
    case Register(id) => Stepped([], if id in s.streams then s else s.(streams := s.streams[id := s.initial]), None)
    case Forget(id) => Stepped([], s.(streams := s.streams - {id}), None)
  }

  // ---- every run keeps the windows in range --------------------------------------------

  lemma {:induction false} SlicesKeepValid(s: Send, id: nat, data: seq<byte>, end: bool)
    requires Valid(s) && |data| <= MAX_WINDOW
    ensures Valid(Slices(s, id, data, end).s)
    decreases |data|
  {
    if data != [] && Avail(s, id) > 0 {
      var n := Min(Min(s.maxFrame, |data|), Avail(s, id));
      SlicesKeepValid(Charge(s, id, n), id, data[n..], end);
    }
  }

  lemma {:induction false} FlushKeepsValid(s: Send)
    requires Valid(s)
    ensures Valid(Flush(s).s)
    decreases |s.pending|
  {
    if s.pending != [] && 0 < Avail(s, s.pending[0].id) && |s.pending[0].data| <= Avail(s, s.pending[0].id) {
      FlushKeepsValid(Charge(s, s.pending[0].id, |s.pending[0].data|).(pending := s.pending[1..]));
    }
  }

  lemma {:induction false} SettingsKeepValid(s: Send, ss: seq<Setting>)
    requires Valid(s)
    ensures Valid(ApplySettings(s, ss).0)
    decreases |ss|
  {
    if ss != [] && ApplySetting(s, ss[0]).Some? { SettingsKeepValid(ApplySetting(s, ss[0]).value, ss[1..]); }
  }

  /** In every reachable state each send window lies in 0..2^31-1. */
  lemma StepKeepsValid(s: Send, e: Event)
    requires Valid(s) && Possible(e)
    ensures Valid(Step(s, e).s)
  {
    hide Slices, Flush, ApplySettings, Int32;
    match e
    case WriteData(id, data, end) => SlicesKeepValid(s, id, data, end);
    case ConnUpdate(inc) =>
      OverflowTestIsExact(s.conn, inc);
      if inc != 0 && !Overflows(s.conn, inc) { FlushKeepsValid(s.(conn := s.conn + inc)); }
    case StreamUpdate(id, inc) =>
      if id in s.streams {
        OverflowTestIsExact(s.streams[id], inc);
        if inc != 0 && !Overflows(s.streams[id], inc) {
          FlushKeepsValid(s.(streams := s.streams[id := s.streams[id] + inc]));
        }
      }
    case PeerSettings(ss) => SettingsKeepValid(s, ss);
    case Register(id) =>
    case Forget(id) =>
  }

  /** A run stops at its first error. */
  function Play(s: Send, es: seq<Event>): Stepped
    requires Valid(s) && forall e :: e in es ==> Possible(e)
    decreases |es|
  {
    if es == [] then Stepped([], s, None)
    else
      var r := Step(s, es[0]);
      StepKeepsValid(s, es[0]);
      if r.error.Some? then r
      else var r' := Play(r.s, es[1..]); r'.(frames := r.frames + r'.frames)
  }

  lemma {:induction false} EveryRunIsValid(s: Send, es: seq<Event>)
    requires Valid(s) && forall e :: e in es ==> Possible(e)
    ensures Valid(Play(s, es).s)
    decreases |es|
  {
    if es != [] {
      StepKeepsValid(s, es[0]);
      if Step(s, es[0]).error.None? { EveryRunIsValid(Step(s, es[0]).s, es[1..]); }
    }
  }

  // ---- what a flush does to any queue -----------------------------------------------------

  function Payload(cs: seq<Chunk>): seq<byte> {
    if cs == [] then [] else cs[0].data + Payload(cs[1..])
  }

  /** The bytes of one stream in a list of chunks. */
  function Of(id: nat, cs: seq<Chunk>): seq<byte> {
    if cs == [] then [] else (if cs[0].id == id then cs[0].data else []) + Of(id, cs[1..])
  }

  /** Nothing is lost, doubled or put out of order on any stream: what a flush writes,
      followed by what it leaves, is what was queued. */
  lemma {:induction false} FlushConserves(s: Send, id: nat)
    ensures Of(id, Flush(s).frames) + Of(id, Flush(s).s.pending) == Of(id, s.pending)
    decreases |s.pending|
  {
    if s.pending != [] {
      var p, avail := s.pending[0], Avail(s, s.pending[0].id);
      if avail > 0 && |p.data| > avail {
        var rest, cut := p.(data := p.data[avail..]), Chunk(p.id, p.data[..avail], false);
        assert ([rest] + s.pending[1..])[1..] == s.pending[1..] && [cut][1..] == [];
        assert p.data == p.data[..avail] + p.data[avail..];
      } else if avail > 0 {
        var s' := Charge(s, p.id, |p.data|).(pending := s.pending[1..]);
        FlushConserves(s', id);
        var fs := Flush(s').frames;
        assert ([Chunk(p.id, p.data, p.end && |s.pending| == 1)] + fs)[1..] == fs;
      }
    }
  }

  /** A flush stops only when the queue is empty or a window of its head is used up. */
  lemma {:induction false} FlushStops(s: Send)
    requires Valid(s)
    ensures var s' := Flush(s).s; s'.pending == [] || Avail(s', s'.pending[0].id) == 0
    decreases |s.pending|
  {
    if s.pending != [] {
      var p, avail := s.pending[0], Avail(s, s.pending[0].id);
      if 0 < avail && |p.data| <= avail {
        FlushStops(Charge(s, p.id, |p.data|).(pending := s.pending[1..]));
      }
    }
  }

  /** The k-th frame of a flush is the k-th queued item, whole, as long as items are used up;
      it carries END_STREAM when the item asks for it and nothing is queued behind. */
  lemma {:induction false} FlushedItems(s: Send, k: nat)
    requires k < |s.pending| - |Flush(s).s.pending|
    ensures k < |Flush(s).frames|
    ensures Flush(s).frames[k] == s.pending[k].(end := s.pending[k].end && k == |s.pending| - 1)
    decreases |s.pending|
  {
    var p := s.pending[0];
    if k > 0 {
      var s' := Charge(s, p.id, |p.data|).(pending := s.pending[1..]);
      FlushedItems(s', k - 1);
    }
  }

  /** The windows are wide enough for the first `n` queued items. */
  predicate Covered(s: Send, n: nat) {
    && n <= |s.pending|
    && |Payload(s.pending[..n])| <= s.conn
    && forall id :: id in s.streams ==> |Of(id, s.pending[..n])| <= s.streams[id]
  }

  /** What the windows leave for item `k` when all items in front of it have been sent. */
  function Left(s: Send, k: nat): int
    requires k < |s.pending|
  {
    var id := s.pending[k].id;
    var conn := s.conn - |Payload(s.pending[..k])|;
    if id in s.streams then Min(conn, s.streams[id] - |Of(id, s.pending[..k])|) else conn
  }

  /** The queue and the windows after the first item has been sent. */
  function FirstSent(s: Send): Send
    requires s.pending != []
  {
    Charge(s, s.pending[0].id, |s.pending[0].data|).(pending := s.pending[1..])
  }

  /** One item less in front: sums, windows and coverage move along. */
  lemma FrontMoves(s: Send, n: nat)
    requires 0 < n <= |s.pending|
    ensures |Payload(s.pending[..n])| == |s.pending[0].data| + |Payload(FirstSent(s).pending[..n - 1])|
    ensures forall id :: |Of(id, s.pending[..n])|
              == (if s.pending[0].id == id then |s.pending[0].data| else 0) + |Of(id, FirstSent(s).pending[..n - 1])|
  {
    assert s.pending[..n][1..] == s.pending[1..][..n - 1];
  }

  lemma CoverMoves(s: Send, n: nat)
    requires 0 < n <= |s.pending| && Valid(s)
    ensures Covered(s, n) <==> (|s.pending[0].data| <= Avail(s, s.pending[0].id) && Covered(FirstSent(s), n - 1))
  {
    FrontMoves(s, n);
    var p, s' := s.pending[0], FirstSent(s);
    hide Payload, Of;
    if Covered(s, n) {
      assert p.id in s.streams ==> |Of(p.id, s.pending[..n])| <= s.streams[p.id];
      forall id | id in s'.streams ensures |Of(id, s'.pending[..n - 1])| <= s'.streams[id] {
        assert |Of(id, s.pending[..n])| <= s.streams[id];
      }
    }
    if |p.data| <= Avail(s, p.id) && Covered(s', n - 1) {
      forall id | id in s.streams ensures |Of(id, s.pending[..n])| <= s.streams[id] {
        assert id in s'.streams && |Of(id, s'.pending[..n - 1])| <= s'.streams[id];
      }
    }
  }

  /** A flush uses up exactly the items that the windows cover. */
  lemma {:induction false} UsedUpExactly(s: Send, n: nat)
    requires Valid(s) && n <= |s.pending|
    ensures n <= |s.pending| - |Flush(s).s.pending| <==> Covered(s, n)
    decreases n
  {
    FlushShrinks(s);
    if n == 0 {
      assert s.pending[..0] == [];
    } else {
      CoverMoves(s, n);
      var p := s.pending[0];
      if |p.data| <= Avail(s, p.id) {
        assert Valid(FirstSent(s));
        UsedUpExactly(FirstSent(s), n - 1);
      }
    }
  }

  /** So END_STREAM is right on every used-up item exactly when, of the items that the windows
      cover, none but the last of the queue asks for it. */
  lemma EndStreamExactly(s: Send)
    requires Valid(s)
    ensures var done := |s.pending| - |Flush(s).s.pending|;
            && 0 <= done <= |Flush(s).frames|
            && ((forall k :: 0 <= k < done ==> Flush(s).frames[k].end == s.pending[k].end)
                <==> (forall n :: 0 < n < |s.pending| && Covered(s, n) ==> !s.pending[n - 1].end))
  {
    hide Covered, Valid;
    FlushShrinks(s);
    var done := |s.pending| - |Flush(s).s.pending|;
    forall k | 0 <= k < done
      ensures k < |Flush(s).frames| && Flush(s).frames[k].end == (s.pending[k].end && k == |s.pending| - 1)
    {
      FlushedItems(s, k);
    }
    forall n | 0 <= n <= |s.pending| ensures n <= done <==> Covered(s, n) { UsedUpExactly(s, n); }
    if done > 0 { FlushedItems(s, done - 1); }
    var right := forall k :: 0 <= k < done ==> Flush(s).frames[k].end == s.pending[k].end;
    if right {
      forall n | 0 < n < |s.pending| && Covered(s, n) ensures !s.pending[n - 1].end {
        assert Flush(s).frames[n - 1].end == s.pending[n - 1].end;
      }
    } else {
      var k :| 0 <= k < done && Flush(s).frames[k].end != s.pending[k].end;
      assert Covered(s, k + 1) && s.pending[k + 1 - 1].end;
    }
  }

  lemma {:induction false} FlushShrinks(s: Send)
    ensures |Flush(s).s.pending| <= |s.pending|
    decreases |s.pending|
  {
    if s.pending != [] && 0 < Avail(s, s.pending[0].id) && |s.pending[0].data| <= Avail(s, s.pending[0].id) {
      FlushShrinks(Charge(s, s.pending[0].id, |s.pending[0].data|).(pending := s.pending[1..]));
    }
  }

  /** A flush sends a frame for each item that it reaches with some window left, and the frame
      is as long as the smaller of item and window. */
  lemma {:induction false} FlushReaches(s: Send, k: nat)
    requires Valid(s) && k < |s.pending|
    ensures k < |Flush(s).frames| <==> Covered(s, k) && Left(s, k) > 0
    ensures k < |Flush(s).frames| ==>
              Flush(s).frames[k].id == s.pending[k].id
                  && |Flush(s).frames[k].data| == Min(|s.pending[k].data|, Left(s, k))
    decreases k
  {
    hide Covered, Left, Valid;
    if k == 0 {
      NothingInFront(s);
    } else {
      CoverMoves(s, k);
      FrontFits(s);
      if |s.pending[0].data| <= Avail(s, s.pending[0].id) {
        FlushReaches(FirstSent(s), k - 1);
        LeftMoves(s, k);
      }
    }
  }

  lemma NothingInFront(s: Send)
    requires Valid(s) && s.pending != []
    ensures Covered(s, 0) && Left(s, 0) == Avail(s, s.pending[0].id)
  {
    assert s.pending[..0] == [];
  }

  lemma FrontFits(s: Send)
    requires Valid(s) && s.pending != []
    ensures s.pending[0].data != []
    ensures |s.pending[0].data| <= Avail(s, s.pending[0].id) ==> Valid(FirstSent(s))
  {
  }

  lemma LeftMoves(s: Send, k: nat)
    requires 0 < k < |s.pending|
    ensures Left(s, k) == Left(FirstSent(s), k - 1)
  {
    FrontMoves(s, k);
    hide Payload, Of;
  }

  lemma {:induction false} FramesWithinItems(s: Send)
    ensures |Flush(s).frames| <= |s.pending|
    decreases |s.pending|
  {
    if s.pending != [] && 0 < Avail(s, s.pending[0].id) && |s.pending[0].data| <= Avail(s, s.pending[0].id) {
      FramesWithinItems(FirstSent(s));
    }
  }

  /** A flush does not cut by the peer's frame limit. All its frames are within the limit exactly
      when, for every item that the windows reach, the smaller of its length and of what the
      windows leave for it is. */
  lemma FlushFitsExactly(s: Send)
    requires Valid(s)
    ensures (forall k :: 0 <= k < |Flush(s).frames| ==> |Flush(s).frames[k].data| <= s.maxFrame) <==>
            (forall k :: 0 <= k < |s.pending| && Covered(s, k) && Left(s, k) > 0 ==>
                Min(|s.pending[k].data|, Left(s, k)) <= s.maxFrame)
  {
    hide Covered, Valid, Left;
    FramesWithinItems(s);
    forall k | 0 <= k < |s.pending|
      ensures k < |Flush(s).frames| <==> Covered(s, k) && Left(s, k) > 0
      ensures k < |Flush(s).frames| ==> |Flush(s).frames[k].data| == Min(|s.pending[k].data|, Left(s, k))
    {
      FlushReaches(s, k);
    }
  }

  // ---- what a write does ----------------------------------------------------------------------

  /** What a write adds to the queue: nothing, or the rest of the body. */
  predicate RestOnly(left: seq<Chunk>, id: nat, end: bool) {
    left == [] || (|left| == 1 && left[0].id == id && left[0].end == end && left[0].data != [])
  }

  /** Frames of a write fit the peer's limit and belong to the stream, and END_STREAM is on
      the frame that ends the body and on no other. */
  lemma SlicesAreRight(s: Send, id: nat, data: seq<byte>, end: bool)
    requires s.maxFrame > 0 && data != []
    ensures s.pending <= Slices(s, id, data, end).s.pending
    ensures var r := Slices(s, id, data, end); var left := r.s.pending[|s.pending|..];
            && r.error.None? && r.s.maxFrame == s.maxFrame
            && (forall k :: 0 <= k < |r.frames| ==> r.frames[k].id == id && 0 < |r.frames[k].data| <= s.maxFrame)
            && Payload(r.frames) + Payload(left) == data
            && RestOnly(left, id, end)
            && (left == [] ==> r.frames != [])
            && (forall k :: 0 <= k < |r.frames| ==> r.frames[k].end == (end && left == [] && k == |r.frames| - 1))
  {
    SlicesPayload(s, id, data, end);
    SlicesEach(s, id, data, end);
    SlicesEnd(s, id, data, end);
  }

  /** One turn of the slicing loop: what is cut off, and what is left to slice. */
  lemma SliceOnce(s: Send, id: nat, data: seq<byte>, end: bool) returns (n: nat, rest: Send)
    requires s.maxFrame > 0 && data != [] && Avail(s, id) > 0
    ensures 0 < n <= |data| && n <= s.maxFrame && n <= Avail(s, id) && rest == Charge(s, id, n)
    ensures rest.pending == s.pending && rest.maxFrame == s.maxFrame
    ensures var r := Slices(rest, id, data[n..], end);
            Slices(s, id, data, end) == Stepped([Chunk(id, data[..n], n == |data| && end)] + r.frames, r.s, r.error)
    ensures Slices(rest, id, [], end).frames == [] && Slices(rest, id, [], end).s == rest
  {
    n := Min(Min(s.maxFrame, |data|), Avail(s, id));
    rest := Charge(s, id, n);
  }

  lemma {:induction false} SlicesPayload(s: Send, id: nat, data: seq<byte>, end: bool)
    requires s.maxFrame > 0
    ensures s.pending <= Slices(s, id, data, end).s.pending
    ensures var r := Slices(s, id, data, end); var left := r.s.pending[|s.pending|..];
            r.error.None? && r.s.maxFrame == s.maxFrame && RestOnly(left, id, end)
                && Payload(r.frames) + Payload(left) == data
    decreases |data|
  {
    if data != [] && Avail(s, id) <= 0 {
      var item := Chunk(id, data, end);
      assert (s.pending + [item])[|s.pending|..] == [item] && [item][1..] == [];
    } else if data != [] {
      SlicesPayloadOn(s, id, data, end);
    }
  }

  lemma SlicesPayloadOn(s: Send, id: nat, data: seq<byte>, end: bool)
    requires s.maxFrame > 0 && data != [] && Avail(s, id) > 0
    ensures s.pending <= Slices(s, id, data, end).s.pending
    ensures var r := Slices(s, id, data, end); var left := r.s.pending[|s.pending|..];
            r.error.None? && r.s.maxFrame == s.maxFrame && RestOnly(left, id, end)
                && Payload(r.frames) + Payload(left) == data
    decreases |data|, 0
  {
    hide Slices, Avail, RestOnly;
    var n, rest := SliceOnce(s, id, data, end);
    SlicesPayload(rest, id, data[n..], end);
    var r := Slices(rest, id, data[n..], end);
    var left := r.s.pending[|s.pending|..];
    var first := Chunk(id, data[..n], n == |data| && end);
    assert Payload([first] + r.frames) == data[..n] + Payload(r.frames) by {
      assert ([first] + r.frames)[1..] == r.frames;
    }
    Assoc(data[..n], Payload(r.frames), Payload(left));
    assert data == data[..n] + data[n..];
  }

  lemma {:induction false} SlicesEach(s: Send, id: nat, data: seq<byte>, end: bool)
    requires s.maxFrame > 0
    ensures var r := Slices(s, id, data, end);
            forall k :: 0 <= k < |r.frames| ==> r.frames[k].id == id && 0 < |r.frames[k].data| <= s.maxFrame
    decreases |data|
  {
    if data != [] && Avail(s, id) > 0 {
      var n, rest := SliceOnce(s, id, data, end);
      SlicesEach(rest, id, data[n..], end);
    }
  }

  lemma {:induction false} SlicesEnd(s: Send, id: nat, data: seq<byte>, end: bool)
    requires s.maxFrame > 0
    ensures var r := Slices(s, id, data, end);
            && |s.pending| <= |r.s.pending| && (data != [] && |r.s.pending| == |s.pending| ==> r.frames != [])
            && forall k :: 0 <= k < |r.frames| ==>
                 r.frames[k].end == (end && |r.s.pending| == |s.pending| && k == |r.frames| - 1)
    decreases |data|
  {
    if data != [] && Avail(s, id) > 0 {
      var n, rest := SliceOnce(s, id, data, end);
      SlicesEnd(rest, id, data[n..], end);
      assert n == |data| <==> data[n..] == [];
    }
  }

  /** The fast path sends without charging, so the windows account for what was sent
      exactly when it is not taken or there is nothing to send. */
  lemma {:induction false} ChargedExactly(s: Send, id: nat, data: seq<byte>, end: bool)
    requires s.maxFrame > 0
    ensures var r := Write(s, id, data, end);
            r.s.conn == s.conn - |Payload(r.frames)| <==> (data == [] || !Fast(s, data))
  {
    if Fast(s, data) {
      assert Payload([Chunk(id, data, end)]) == data + Payload([]);
    } else {
      SlicesCharge(s, id, data, end);
    }
  }

  lemma {:induction false} SlicesCharge(s: Send, id: nat, data: seq<byte>, end: bool)
    requires s.maxFrame > 0
    ensures Slices(s, id, data, end).s.conn == s.conn - |Payload(Slices(s, id, data, end).frames)|
    decreases |data|
  {
    if data != [] && Avail(s, id) > 0 {
      var n := Min(Min(s.maxFrame, |data|), Avail(s, id));
      SlicesCharge(Charge(s, id, n), id, data[n..], end);
      var r := Slices(Charge(s, id, n), id, data[n..], end);
      assert ([Chunk(id, data[..n], n == |data| && end)] + r.frames)[1..] == r.frames;
    }
  }

  lemma {:induction false} OfConcat(id: nat, a: seq<Chunk>, b: seq<Chunk>)
    ensures Of(id, a + b) == Of(id, a) + Of(id, b)
  {
    if a == [] {
      assert a + b == b;
    } else {
      OfConcat(id, a[1..], b);
      assert (a + b)[0] == a[0] && (a + b)[1..] == a[1..] + b;
      Assoc(if a[0].id == id then a[0].data else [], Of(id, a[1..]), Of(id, b));
    }
  }

  /** The stream's bytes leave in the order they were written in, and END_STREAM behind them all. */
  predicate Kept(s: Send, id: nat, data: seq<byte>, end: bool)
    requires s.maxFrame > 0
  {
    var r := Write(s, id, data, end);
    && Of(id, r.frames) + Of(id, r.s.pending) == Of(id, s.pending) + data
    && ((exists k :: 0 <= k < |r.frames| && r.frames[k].end) ==> Of(id, r.s.pending) == [])
  }

  /** Whether a body of `n` bytes waits behind what its stream has queued. */
  predicate Waits(s: Send, id: nat, n: nat, end: bool) {
    if n == 0 then !end else Avail(s, id) <= 0 && !(n <= s.maxFrame && n <= s.conn)
  }

  /** A write looks at the windows, not at the queue. So it keeps the order for every body of
      a length exactly when its stream has nothing queued or the windows make the body wait. */
  lemma OrderKeptExactly(s: Send, id: nat, n: nat, end: bool)
    requires Valid(s)
    ensures (forall data: seq<byte> :: |data| == n ==> Kept(s, id, data, end)) <==>
              (Of(id, s.pending) == [] || Waits(s, id, n, end))
  {
    if Of(id, s.pending) == [] {
      forall data: seq<byte> | |data| == n ensures Kept(s, id, data, end) { NothingBefore(s, id, data, end); }
    } else if Waits(s, id, n, end) {
      forall data: seq<byte> | |data| == n ensures Kept(s, id, data, end) { OrderKept(s, id, data, end); }
    } else {
      var b: byte := if Of(id, s.pending)[0] == 0 then 1 else 0;
      var data := seq(n, _ => b);
      Overtakes(s, id, data, end);
      assert |data| == n && !Kept(s, id, data, end);
    }
  }

  lemma OrderKept(s: Send, id: nat, data: seq<byte>, end: bool)
    requires Valid(s) && Waits(s, id, |data|, end)
    ensures Kept(s, id, data, end)
  {
    if data == [] {
      assert [Chunk(id, [], end)][1..] == [];
    } else {
      OfConcat(id, s.pending, [Chunk(id, data, end)]);
      assert [Chunk(id, data, end)][1..] == [];
    }
  }

  lemma NothingBefore(s: Send, id: nat, data: seq<byte>, end: bool)
    requires Valid(s) && Of(id, s.pending) == []
    ensures Kept(s, id, data, end)
  {
    if Fast(s, data) {
      assert [Chunk(id, data, end)][1..] == [];
    } else {
      SlicesInOrder(s, id, data, end);
    }
  }

  lemma SlicesInOrder(s: Send, id: nat, data: seq<byte>, end: bool)
    requires s.maxFrame > 0 && Of(id, s.pending) == [] && data != []
    ensures var r := Slices(s, id, data, end);
            && Of(id, r.frames) + Of(id, r.s.pending) == data
            && ((exists k :: 0 <= k < |r.frames| && r.frames[k].end) ==> Of(id, r.s.pending) == [])
  {
    var r := Slices(s, id, data, end);
    SlicesAreRight(s, id, data, end);
    hide Slices;
    var left := r.s.pending[|s.pending|..];
    assert r.s.pending == s.pending + left;
    OwnInOrder(id, s.pending, r.frames, left);
  }

  lemma OwnInOrder(id: nat, before: seq<Chunk>, frames: seq<Chunk>, left: seq<Chunk>)
    requires Of(id, before) == []
    requires (forall k :: 0 <= k < |frames| ==> frames[k].id == id)
               && (forall k :: 0 <= k < |left| ==> left[k].id == id)
    ensures Of(id, frames) + Of(id, before + left) == Payload(frames) + Payload(left)
    ensures left == [] ==> Of(id, before + left) == []
  {
    OfConcat(id, before, left);
    OfOwn(id, frames);
    OfOwn(id, left);
    assert [] + Of(id, left) == Of(id, left);
    hide Of, Payload;
    assert left == [] ==> before + left == before;
  }

  lemma {:induction false} OfOwn(id: nat, cs: seq<Chunk>)
    requires forall k :: 0 <= k < |cs| ==> cs[k].id == id
    ensures Of(id, cs) == Payload(cs)
  {
    if cs != [] { OfOwn(id, cs[1..]); }
  }

  /** The new bytes, or a bare END_STREAM, go out before bytes that were written earlier. */
  lemma Overtakes(s: Send, id: nat, data: seq<byte>, end: bool)
    requires Valid(s) && Of(id, s.pending) != [] && !Waits(s, id, |data|, end)
    requires data != [] ==> Of(id, s.pending)[0] != data[0]
    ensures !Kept(s, id, data, end)
  {
    var r := Write(s, id, data, end);
    if Fast(s, data) {
      assert [Chunk(id, data, end)][1..] == [] && r.frames[0] == Chunk(id, data, end);
    }
    if data != [] {
      assert r.frames[0].id == id && r.frames[0].data != [] && r.frames[0].data[0] == data[0];
      assert (Of(id, r.frames) + Of(id, r.s.pending))[0] == data[0];
      assert (Of(id, s.pending) + data)[0] == Of(id, s.pending)[0];
    }
  }

  // ---- one body from the first frame to the last ------------------------------------------------

  /** Where a body that was written to an empty queue stands: sent whole, END_STREAM on the
      last frame only, or sent in part with the rest alone in the queue. */
  ghost predicate Tracks(frames: seq<Chunk>, pending: seq<Chunk>, id: nat, body: seq<byte>, end: bool) {
    && (forall k :: 0 <= k < |frames| ==> frames[k].id == id)
    && if pending == [] then
         && frames != [] && Payload(frames) == body
         && (forall k :: 0 <= k < |frames| ==> frames[k].end == (end && k == |frames| - 1))
       else
         && |pending| == 1 && pending[0].id == id && pending[0].end == end && pending[0].data != []
         && Payload(frames) + pending[0].data == body
         && (forall k :: 0 <= k < |frames| ==> !frames[k].end)
  }

  lemma {:induction false} PayloadConcat(a: seq<Chunk>, b: seq<Chunk>)
    ensures Payload(a + b) == Payload(a) + Payload(b)
  {
    if a == [] {
      assert a + b == b;
    } else {
      PayloadConcat(a[1..], b);
      assert (a + b)[0] == a[0] && (a + b)[1..] == a[1..] + b;
      Assoc(a[0].data, Payload(a[1..]), Payload(b));
    }
  }

  lemma FlushTracks(frames: seq<Chunk>, s: Send, id: nat, body: seq<byte>, end: bool)
    requires Tracks(frames, s.pending, id, body, end)
    ensures Tracks(frames + Flush(s).frames, Flush(s).s.pending, id, body, end)
  {
    var r := Flush(s);
    if s.pending == [] || Avail(s, id) <= 0 {
      assert frames + [] == frames;
    } else {
      var p := s.pending[0];
      PayloadConcat(frames, r.frames);
      if |p.data| > Avail(s, id) {
        var cut := Chunk(id, p.data[..Avail(s, id)], false);
        assert r.frames == [cut] && [cut][1..] == [] && Payload([cut]) == cut.data;
        assert p.data == cut.data + p.data[Avail(s, id)..];
        assert s.pending[1..] == [];
      } else {
        assert s.pending[1..] == [];
        var all := Chunk(id, p.data, p.end);
        assert r.frames == [all] && [all][1..] == [] && Payload([all]) == all.data;
      }
    }
  }

  lemma StepTracks(frames: seq<Chunk>, s: Send, e: Event, id: nat, body: seq<byte>, end: bool)
    requires Valid(s) && Possible(e) && !e.WriteData? && Tracks(frames, s.pending, id, body, end)
    ensures Tracks(frames + Step(s, e).frames, Step(s, e).s.pending, id, body, end)
  {
    assert frames + [] == frames;
    hide Tracks, Int32;
    match e
    case ConnUpdate(inc) =>
      if inc != 0 && !Overflows(s.conn, inc) {
        FlushTracks(frames, s.(conn := Int32(s.conn + Int32(inc))), id, body, end);
      }
    case StreamUpdate(j, inc) =>
      if j in s.streams && inc != 0 && !Overflows(s.streams[j], inc) {
        FlushTracks(frames, s.(streams := s.streams[j := Int32(s.streams[j] + Int32(inc))]), id, body, end);
      }
    case PeerSettings(ss) => SettingsKeepQueue(s, ss);
    case Register(j) =>
    case Forget(j) =>
  }

  lemma {:induction false} SettingsKeepQueue(s: Send, ss: seq<Setting>)
    ensures ApplySettings(s, ss).0.pending == s.pending
    decreases |ss|
  {
    if ss != [] && ApplySetting(s, ss[0]).Some? { SettingsKeepQueue(ApplySetting(s, ss[0]).value, ss[1..]); }
  }

  lemma {:induction false} PlayTracks(frames: seq<Chunk>, s: Send, es: seq<Event>, id: nat, body: seq<byte>, end: bool)
    requires Valid(s) && forall e :: e in es ==> Possible(e) && !e.WriteData?
    requires Tracks(frames, s.pending, id, body, end)
    ensures Tracks(frames + Play(s, es).frames, Play(s, es).s.pending, id, body, end)
    decreases |es|
  {
    hide Tracks, Step;
    if es == [] {
      assert frames + [] == frames;
    } else {
      StepTracks(frames, s, es[0], id, body, end);
      StepKeepsValid(s, es[0]);
      var r := Step(s, es[0]);
      if r.error.None? {
        PlayTracks(frames + r.frames, r.s, es[1..], id, body, end);
        assert frames + (r.frames + Play(r.s, es[1..]).frames) == (frames + r.frames) + Play(r.s, es[1..]).frames;
      }
    }
  }

  /** A body written to an empty queue arrives whole: under any later sequence of window
      updates, settings and stream table changes, the DATA payloads emitted so far followed
      by the queued bytes equal the body, and END_STREAM is on exactly the frame that ends it. */
  lemma BodyArrivesWhole(s: Send, id: nat, body: seq<byte>, end: bool, es: seq<Event>)
    requires Valid(s) && s.pending == [] && |body| <= MAX_WINDOW
    requires forall e :: e in es ==> Possible(e) && !e.WriteData?
    ensures Valid(Write(s, id, body, end).s)
    ensures var w := Write(s, id, body, end);
            Tracks(w.frames + Play(w.s, es).frames, Play(w.s, es).s.pending, id, body, end)
  {
    var w := Write(s, id, body, end);
    StepKeepsValid(s, WriteData(id, body, end));
    WriteTracks(s, id, body, end);
    PlayTracks(w.frames, w.s, es, id, body, end);
  }

  lemma WriteTracks(s: Send, id: nat, body: seq<byte>, end: bool)
    requires Valid(s) && s.pending == []
    ensures var w := Write(s, id, body, end); Tracks(w.frames, w.s.pending, id, body, end)
  {
    var w := Write(s, id, body, end);
    if Fast(s, body) {
      assert [Chunk(id, body, end)][1..] == [];
    } else {
      SlicesAreRight(s, id, body, end);
      assert w.s.pending[0..] == w.s.pending;
      if w.s.pending != [] { assert w.s.pending[1..] == []; }
    }
  }

  // ---- header blocks ------------------------------------------------------------------------------

  /** The frames writeHeaderBlock makes: HEADERS, then CONTINUATION as often as needed. */
  function BlockFrames(max: nat, id: nat, block: seq<byte>, endStream: bool): seq<Frame>
    requires max > 0
  {
    if |block| <= max then [Frame(HEADERS, HeadersFlags(endStream, true), id, block)]
    else [Frame(HEADERS, HeadersFlags(endStream, false), id, block[..max])] + Continuations(max, id, block[max..])
  }

  function Continuations(max: nat, id: nat, block: seq<byte>): seq<Frame>
    requires max > 0
    decreases |block|
  {
    if block == [] then []
    else
      var n := Min(max, |block|);
      [Frame(CONTINUATION, Bits(n == |block|, 4), id, block[..n])] + Continuations(max, id, block[n..])
  }

  lemma DataAppended(buf: seq<byte>, c: Chunk)
    ensures AppendData(buf, c.id, c.data, c.end) == buf + DataFrame(c)
  {
    hide ToBE;
  }

  /** Where the slicing loop stands: `buf` holds the frames printed so far, and what is still to
      be done leads to the whole result. */
  ghost predicate SlicesTo(buf: seq<byte>, s: Send, id: nat, data: seq<byte>, end: bool, whole: Stepped)
    requires s.maxFrame > 0
  {
    var r := Slices(s, id, data, end);
    r.s == whole.s && buf + PrintAll(DataFrame, r.frames) == PrintAll(DataFrame, whole.frames)
  }

  lemma SlicesStart(s: Send, id: nat, data: seq<byte>, end: bool)
    requires s.maxFrame > 0
    ensures SlicesTo([], s, id, data, end, Slices(s, id, data, end))
    ensures Slices(s, id, data, end).error.None?
  {
    NoSliceError(s, id, data, end);
    hide Slices, PrintAll, DataFrame;
  }

  lemma {:induction false} NoSliceError(s: Send, id: nat, data: seq<byte>, end: bool)
    requires s.maxFrame > 0
    ensures Slices(s, id, data, end).error.None?
    decreases |data|
  {
    if data != [] && Avail(s, id) > 0 {
      var n := Min(Min(s.maxFrame, |data|), Avail(s, id));
      NoSliceError(Charge(s, id, n), id, data[n..], end);
    }
  }

  /** One turn of the loop: `buf` takes the next frame of what is still to be printed. */
  lemma SliceTurn(buf: seq<byte>, s: Send, id: nat, data: seq<byte>, end: bool, whole: Stepped)
    requires s.maxFrame > 0 && data != [] && Avail(s, id) > 0 && SlicesTo(buf, s, id, data, end, whole)
    ensures var n := Min(Min(s.maxFrame, |data|), Avail(s, id));
            SlicesTo(AppendData(buf, id, data[..n], n == |data| && end), Charge(s, id, n), id, data[n..], end, whole)
  {
    var n := Min(Min(s.maxFrame, |data|), Avail(s, id));
    var first := Chunk(id, data[..n], n == |data| && end);
    var more := Slices(Charge(s, id, n), id, data[n..], end);
    assert Slices(s, id, data, end).frames == [first] + more.frames;
    hide Slices, DataFrame, AppendData;
    PrintOne(DataFrame, first, more.frames);
    DataAppended(buf, first);
    Assoc(buf, DataFrame(first), PrintAll(DataFrame, more.frames));
  }

  /** One turn of the flushing loop. */
  lemma FlushTurn(buf: seq<byte>, s: Send)
    requires s.pending != [] && 0 < Avail(s, s.pending[0].id) && |s.pending[0].data| <= Avail(s, s.pending[0].id)
    ensures var p := s.pending[0];
            var r, more := Flush(s), Flush(Charge(s, p.id, |p.data|).(pending := s.pending[1..]));
            && r.s == more.s
            && buf + PrintAll(DataFrame, r.frames)
                 == AppendData(buf, p.id, p.data, p.end && |s.pending| == 1) + PrintAll(DataFrame, more.frames)
  {
    var p := s.pending[0];
    var c, more := Chunk(p.id, p.data, p.end && |s.pending| == 1),
        Flush(Charge(s, p.id, |p.data|).(pending := s.pending[1..])).frames;
    assert Flush(s).frames == [c] + more;
    hide Flush;
    PrintOne(DataFrame, c, more);
    DataAppended(buf, c);
    hide *;
    Assoc(buf, DataFrame(c), PrintAll(DataFrame, more));
  }

  lemma FlushLast(buf: seq<byte>, s: Send)
    requires s.pending != [] && 0 < Avail(s, s.pending[0].id) < |s.pending[0].data|
    ensures var p, n := s.pending[0], Avail(s, s.pending[0].id);
            && Flush(s).s == Charge(s, p.id, n).(pending := [p.(data := p.data[n..])] + s.pending[1..])
            && buf + PrintAll(DataFrame, Flush(s).frames) == AppendData(buf, p.id, p.data[..n], false)
  {
    var p, n := s.pending[0], Avail(s, s.pending[0].id);
    var c := Chunk(p.id, p.data[..n], false);
    assert Flush(s).frames == [c] + [];
    PrintOne(DataFrame, c, []);
    DataAppended(buf, c);
    hide ToBE, DataFrame, AppendData;
    assert DataFrame(c) + [] == DataFrame(c);
  }

  lemma ContinuationTurn(buf: seq<byte>, max: nat, id: nat, block: seq<byte>)
    requires max > 0 && block != []
    ensures var n := Min(max, |block|);
            buf + PrintAll(FrameBytes, Continuations(max, id, block))
              == AppendFrameHeader(buf, CONTINUATION, Bits(n == |block|, 4), id, n) + block[..n]
                  + PrintAll(FrameBytes, Continuations(max, id, block[n..]))
  {
    var n := Min(max, |block|);
    var f, more := Frame(CONTINUATION, Bits(n == |block|, 4), id, block[..n]), Continuations(max, id, block[n..]);
    PrintOne(FrameBytes, f, more);
    assert buf + FrameBytes(f) == AppendFrameHeader(buf, CONTINUATION, Bits(n == |block|, 4), id, n) + block[..n] by {
      hide ToBE;
    }
    hide FrameBytes, AppendFrameHeader, PrintAll;
    Assoc(buf, FrameBytes(f), PrintAll(FrameBytes, more));
  }

  // ---- the connection object ------------------------------------------------------------------------

  class SendSide {
    var maxFrame: nat
    var initial: nat
    var conn: int
    var streams: map<nat, int>
    var pending: seq<Chunk>
    var outBuf: seq<byte>

    ghost function State(): Send
      reads this
    {
      Send(maxFrame, initial, conn, streams, pending)
    }

    /** The method did what `r` says: its state, its frames behind the output, its error. */
    twostate predicate Did(r: Stepped)
      reads this
    {
      State() == r.s && outBuf == old(outBuf) + PrintAll(DataFrame, r.frames)
    }

    constructor ()
      ensures State() == NewSend && Valid(State()) && outBuf == []
    {
      maxFrame, initial, conn := DEFAULT_MAX_FRAME_SIZE, DEFAULT_INITIAL_WINDOW, DEFAULT_INITIAL_WINDOW;
      streams, pending, outBuf := map[], [], [];
    }

    method AppendPending(id: nat, data: seq<byte>, end: bool)
      modifies this`pending
      ensures pending == old(pending) + [Chunk(id, data, end)]
    {
      pending := pending + [Chunk(id, data, end)];
    }

    method Deduct(id: nat, n: int)
      modifies this`conn, this`streams
      ensures State() == Charge(old(State()), id, n)
    {
      conn := conn - n;
      if id in streams {
        streams := streams[id := streams[id] - n];
      }
    }

    function Available(id: nat): (a: int)
      reads this
      ensures a == Avail(State(), id)
    {
      if id in streams && streams[id] < conn then streams[id] else conn
    }

    method WriteData(id: nat, body: seq<byte>, end: bool)
      requires Valid(State()) && |body| <= MAX_WINDOW
      modifies this
      ensures Valid(State()) && Did(Write(old(State()), id, body, end))
    {
      ghost var s0 := State();
      StepKeepsValid(s0, Event.WriteData(id, body, end));
      WriteStart(outBuf, s0, id, body, end);
      hide Slices, PrintAll, DataFrame, AppendData, Valid, Write;
      if |body| <= maxFrame && |body| <= conn {
        outBuf := AppendData(outBuf, id, body, end);
        return;
      }
      WriteSlices(id, body, end);
    }

    /** The loop: a frame for what the windows and the peer's limit allow, and so on; the rest,
        when a window is used up, goes to the queue. */
    method WriteSlices(id: nat, body: seq<byte>, end: bool)
      requires maxFrame > 0
      modifies this
      ensures Did(Slices(old(State()), id, body, end))
    {
      var data, buf := body, [];
      ghost var s0 := State();
      ghost var whole := Slices(s0, id, body, end);
      hide Slices, PrintAll, DataFrame, AppendData;
      SlicesStart(s0, id, body, end);
      hide SlicesTo;
      while |data| > 0
        invariant maxFrame == s0.maxFrame > 0 && outBuf == old(outBuf)
        invariant SlicesTo(buf, State(), id, data, end, whole)
        decreases |data|
      {
        var n := maxFrame;
        if |data| < n {
          n := |data|;
        }
        var avail := Available(id);
        if avail <= 0 {
          SlicesQueue(buf, State(), id, data, end, whole);
          AppendPending(id, data, end);
          data := [];
          break;
        }
        if n > avail {
          n := avail;
        }
        SliceTurn(buf, State(), id, data, end, whole);
        var last := n == |data|;
        buf := AppendData(buf, id, data[..n], last && end);
        Deduct(id, n);
        data := data[n..];
      }
      assert data == [];
      NothingToPrint(buf, State(), id, end, whole);
      if |buf| > 0 {
        outBuf := outBuf + buf;
      }
    }

    method FlushPending()
      requires Valid(State())
      modifies this
      ensures Valid(State()) && Did(Flush(old(State())))
    {
      ghost var s0 := State();
      FlushKeepsValid(s0);
      if |pending| == 0 {
        return;
      }
      hide Flush, PrintAll, DataFrame, AppendData, Valid;
      while |pending| > 0
        invariant Flush(State()).s == Flush(s0).s
        invariant outBuf + PrintAll(DataFrame, Flush(State()).frames)
                    == old(outBuf) + PrintAll(DataFrame, Flush(s0).frames)
        decreases |pending|
      {
        var p := pending[0];
        var avail := Available(p.id);
        if avail <= 0 {
          FlushIdle(State());
          return;
        }
        if |p.data| > avail {
          var n := avail;
          FlushLast(outBuf, State());
          Deduct(p.id, n);
          outBuf := AppendData(outBuf, p.id, p.data[..n], false);
          pending := [p.(data := p.data[n..])] + pending[1..];
          return;
        }
        FlushTurn(outBuf, State());
        Deduct(p.id, |p.data|);
        var last := p.end && |pending| == 1;
        outBuf := AppendData(outBuf, p.id, p.data, last);
        pending := pending[1..];
      }
      FlushIdle(State());
    }

    /** onConnWindowUpdate: four payload bytes, as the frame's shape guarantees. */
    method OnConnWindowUpdate(payload: seq<byte>) returns (err: Option<Error>)
      requires Valid(State()) && |payload| == 4
      modifies this
      ensures FromBE(payload) < 0x1_0000_0000
      ensures Valid(State()) && Did(Step(old(State()), ConnUpdate(FromBE(payload))))
                && err == Step(old(State()), ConnUpdate(FromBE(payload))).error
    {
      Powers();
      var inc := FromBE(payload);
      OverflowTestIsExact(conn, inc);
      if inc == 0 {
        return Some(Malformed);
      }
      if conn > Int32(MAX_WINDOW - Int32(inc)) {
        return Some(ConnError(FLOW_CONTROL_ERROR));
      }
      conn := Int32(conn + Int32(inc));
      FlushSucceeds(State());
      FlushPending();
      return None;
    }

    method OnStreamWindowUpdate(id: nat, payload: seq<byte>) returns (err: Option<Error>)
      requires Valid(State()) && |payload| == 4
      modifies this
      ensures FromBE(payload) < 0x1_0000_0000
      ensures Valid(State()) && Did(Step(old(State()), StreamUpdate(id, FromBE(payload))))
                && err == Step(old(State()), StreamUpdate(id, FromBE(payload))).error
    {
      Powers();
      var inc := FromBE(payload);
      if id !in streams {
        return Some(ConnError(PROTOCOL_ERROR));
      }
      OverflowTestIsExact(streams[id], inc);
      if inc == 0 {
        return Some(ConnError(PROTOCOL_ERROR));
      }
      if streams[id] > Int32(MAX_WINDOW - Int32(inc)) {
        return Some(StreamError(id, FLOW_CONTROL_ERROR));
      }
      streams := streams[id := Int32(streams[id] + Int32(inc))];
      FlushSucceeds(State());
      FlushPending();
      return None;
    }

    /** The settings of one SETTINGS frame, in order, up to the first that is refused; then
        the acknowledgement. */
    method OnSettings(payload: seq<byte>) returns (err: Option<Error>)
      requires Valid(State())
      modifies this
      ensures Valid(State())
      ensures (State(), err) == ApplySettings(old(State()), ReadSettings(payload))
      ensures outBuf == if err.None? then AppendSettingsAck(old(outBuf)) else old(outBuf)
    {
      var i := 0;
      ghost var whole := ApplySettings(State(), ReadSettings(payload));
      assert payload[0..] == payload;
      while i + 6 <= |payload|
        invariant i <= |payload| && Valid(State()) && outBuf == old(outBuf)
        invariant ApplySettings(State(), ReadSettings(payload[i..])) == whole
      {
        hide FromBE;
        var rest := payload[i..];
        assert rest[..2] == payload[i..i + 2] && rest[2..6] == payload[i + 2..i + 6] && rest[6..] == payload[i + 6..];
        var id, val := FromBE(payload[i..i + 2]), FromBE(payload[i + 2..i + 6]);
        ghost var list := ReadSettings(rest);
        assert list[0] == Setting(id, val) && list[1..] == ReadSettings(payload[i + 6..]);
        if id == 2 {
          if val != 0 && val != 1 {
            return Some(Malformed);
          }
        } else if id == 4 {
          if val > MAX_WINDOW {
            return Some(Malformed);
          }
          initial := val;
        } else if id == 5 {
          if val < DEFAULT_MAX_FRAME_SIZE || val > MAX_FRAME_SIZE {
            return Some(Malformed);
          }
          maxFrame := val;
        }
        i := i + 6;
      }
      outBuf := AppendSettingsAck(outBuf);
      return None;
    }

    /** stream(id): a stream that is not in the table starts with the peer's initial window. */
    method RegisterStream(id: nat)
      requires Valid(State())
      modifies this`streams
      ensures Valid(State()) && State() == Step(old(State()), Register(id)).s
    {
      if id !in streams {
        streams := streams[id := initial];
      }
    }

    method ForgetStream(id: nat)
      requires Valid(State())
      modifies this`streams
      ensures Valid(State()) && State() == Step(old(State()), Forget(id)).s
    {
      streams := streams - {id};
    }

    method WriteHeaderBlock(id: nat, headerBlock: seq<byte>, endStream: bool)
      requires Valid(State()) && 0 < id
      modifies this`outBuf
      ensures outBuf == old(outBuf) + PrintAll(FrameBytes, BlockFrames(maxFrame, id, headerBlock, endStream))
    {
      var max, block := maxFrame, headerBlock;
      BlockStart(outBuf, max, id, block, endStream);
      hide PrintAll, FrameBytes, BlockFrames, Continuations, AppendHeaders, AppendFrameHeader;
      if |block| <= max {
        outBuf := outBuf + AppendHeaders([], id, block, endStream, true);
        return;
      }
      var buf := AppendHeaders([], id, block[..max], endStream, false);
      ghost var frames := BlockFrames(max, id, block, endStream);
      block := block[max..];
      while |block| > 0
        invariant outBuf == old(outBuf)
        invariant buf + PrintAll(FrameBytes, Continuations(max, id, block)) == PrintAll(FrameBytes, frames)
        decreases |block|
      {
        var n := max;
        if |block| < n {
          n := |block|;
        }
        var last := n == |block|;
        ContinuationTurn(buf, max, id, block);
        buf := AppendFrameHeader(buf, CONTINUATION, Bits(last, 4), id, n);
        buf := buf + block[..n];
        block := block[n..];
      }
      assert block == [];
      NoMoreContinuations(buf, max, id);
      outBuf := outBuf + buf;
    }
  }

  lemma BlockStart(out: seq<byte>, max: nat, id: nat, block: seq<byte>, endStream: bool)
    requires max > 0 && 0 < id
    ensures var all := PrintAll(FrameBytes, BlockFrames(max, id, block, endStream));
            if |block| <= max then all == AppendHeaders([], id, block, endStream, true)
            else
              all == AppendHeaders([], id, block[..max], endStream, false) +
                     PrintAll(FrameBytes, Continuations(max, id, block[max..]))
  {
    if |block| <= max {
      PrintOne(FrameBytes, Frame(HEADERS, HeadersFlags(endStream, true), id, block), []);
    } else {
      PrintOne(FrameBytes, Frame(HEADERS, HeadersFlags(endStream, false), id, block[..max]),
          Continuations(max, id, block[max..]));
    }
  }

  /** A chunk at the end of the queue comes behind what its stream has queued, and there only. */
  lemma QueuedBehind(pending: seq<Chunk>, c: Chunk)
    ensures forall j :: Of(j, pending + [c]) == Of(j, pending) + (if j == c.id then c.data else [])
  {
    forall j ensures Of(j, pending + [c]) == Of(j, pending) + (if j == c.id then c.data else []) {
      OfConcat(j, pending, [c]);
      assert [c][1..] == [];
    }
  }

  lemma NoMoreContinuations(buf: seq<byte>, max: nat, id: nat)
    requires max > 0
    ensures buf + PrintAll(FrameBytes, Continuations(max, id, [])) == buf
  {
  }

  lemma WriteStart(out: seq<byte>, s: Send, id: nat, data: seq<byte>, end: bool)
    requires s.maxFrame > 0
    ensures if Fast(s, data)
            then Write(s, id, data, end).s == s
                && AppendData(out, id, data, end) == out + PrintAll(DataFrame, Write(s, id, data, end).frames)
            else Write(s, id, data, end) == Slices(s, id, data, end)
  {
    DataAppended(out, Chunk(id, data, end));
    hide AppendData, DataFrame, Slices;
    PrintOne(DataFrame, Chunk(id, data, end), []);
  }

  lemma SlicesQueue(buf: seq<byte>, s: Send, id: nat, data: seq<byte>, end: bool, whole: Stepped)
    requires s.maxFrame > 0 && data != [] && Avail(s, id) <= 0 && SlicesTo(buf, s, id, data, end, whole)
    ensures SlicesTo(buf, s.(pending := s.pending + [Chunk(id, data, end)]), id, [], end, whole)
  {
    hide PrintAll, DataFrame;
  }

  lemma NothingToPrint(buf: seq<byte>, s: Send, id: nat, end: bool, whole: Stepped)
    requires s.maxFrame > 0 && SlicesTo(buf, s, id, [], end, whole)
    ensures s == whole.s && buf == PrintAll(DataFrame, whole.frames)
  {
    assert buf + [] == buf;
  }

  lemma FlushIdle(s: Send)
    requires s.pending == [] || Avail(s, s.pending[0].id) <= 0
    ensures Flush(s) == Stepped([], s, None) && PrintAll(DataFrame, []) == []
  {
  }

  lemma {:induction false} FlushSucceeds(s: Send)
    ensures Flush(s).error.None?
    decreases |s.pending|
  {
    if s.pending != [] && 0 < Avail(s, s.pending[0].id) && |s.pending[0].data| <= Avail(s, s.pending[0].id) {
      FlushSucceeds(Charge(s, s.pending[0].id, |s.pending[0].data|).(pending := s.pending[1..]));
    }
  }
}
