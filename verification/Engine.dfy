/** The engine's connection: buffers between the socket and a protocol
    (engine/conn.go, engine/eventloop.go). */
module Engine {
  import opened Bytes
  import opened Framing
  import opened Socket
  import opened WriteQueue

  const FIRST_READ_BUFFER := 8 * 1024
  const BATCH_READ_BUFFER := 16 * 1024
  const MAX_READ_BUFFER := 4 * 1024 * 1024

  datatype ReadError = EndOfFile | SocketFailed | ProtocolFailed

  // ---- reading --------------------------------------------------------------------------

  /** What a read meets when it has the bytes that are ready: nothing more for now, the end, or a
      failure. */
  function Stop(script: seq<KRead>): Kernel {
    if script == [] then WouldBlock
    else if script[0].Data? || script[0].Interrupted? then Stop(script[1..])
    else script[0]
  }

  /** The error that a read reports of it: the end only when nothing is unconsumed. */
  predicate Stops(script: seq<KRead>, err: Option<ReadError>, unread: seq<byte>) {
    err ==
      match Stop(script)
      case Failed => Some(SocketFailed)
      case Eof => if unread == [] then Some(EndOfFile) else None
      case _ => None
  }

  /** All that is ready in some events. */
  function AllReady(scripts: seq<seq<KRead>>): seq<byte> {
    if scripts == [] then [] else AllReady(scripts[..|scripts| - 1]) + Ready(scripts[|scripts| - 1])
  }

  lemma {:induction false} AllReadyPrefix(scripts: seq<seq<KRead>>, i: nat)
    requires i <= |scripts|
    ensures AllReady(scripts[..i]) <= AllReady(scripts)
    decreases |scripts|
  {
    hide Ready;
    if i == |scripts| {
      assert scripts[..i] == scripts;
    } else {
      AllReadyPrefix(scripts[..|scripts| - 1], i);
      assert scripts[..|scripts| - 1][..i] == scripts[..i];
    }
  }

  lemma StopsSame(a: seq<KRead>, b: seq<KRead>, err: Option<ReadError>, unread: seq<byte>)
    requires Stop(a) == Stop(b)
    ensures Stops(a, err, unread) == Stops(b, err, unread)
  {
  }

  /** One step of a script, and where it stops. */
  lemma StopStep(script: seq<KRead>)
    ensures script == [] ==> Stop(script) == WouldBlock
    ensures script != [] && (script[0].Data? || script[0].Interrupted?) ==> Stop(script) == Stop(script[1..])
    ensures script != [] && script[0].Data? ==>
              forall n: nat :: n <= |script[0].bytes| ==> Stop(Taken(script, n)) == Stop(script)
    ensures script != [] && !script[0].Data? && !script[0].Interrupted? ==> Stop(script) == script[0]
  {
    if script != [] && script[0].Data? {
      forall n: nat | n <= |script[0].bytes| ensures Stop(Taken(script, n)) == Stop(script) {
        if n < |script[0].bytes| { assert Taken(script, n)[1..] == script[1..]; }
      }
    }
  }

  class ReadSide {
    var rbuf: array?<byte>
    var rr: nat
    var rw: nat
    var releaseReadBuf: bool

    ghost predicate Valid()
      reads this
    {
      && (if rbuf == null then rr == rw == 0 else rr <= rw <= rbuf.Length && 0 < rbuf.Length)
      && (releaseReadBuf ==> rr == rw)
    }

    /** The bytes that have been received and not consumed. */
    function ReadBuffer(): seq<byte>
      requires Valid()
      reads this, rbuf
    {
      if rbuf == null then [] else rbuf[rr..rw]
    }

    /** A buffer that is full and may not grow. */
    predicate Full()
      reads this
    {
      rbuf != null && rw == rbuf.Length && rbuf.Length >= MAX_READ_BUFFER
    }

    /** And not all of it has been consumed: nothing moves its bytes. */
    predicate Stuck()
      reads this
    {
      Full() && !releaseReadBuf
    }

    constructor ()
      ensures Valid() && ReadBuffer() == [] && rbuf == null
    {
      rbuf, rr, rw, releaseReadBuf := null, 0, 0, false;
    }

    method GrowReadBuffer() returns (grown: bool)
      requires Valid() && rbuf != null && !releaseReadBuf
      modifies this`rbuf
      ensures rbuf == old(rbuf) || fresh(rbuf)
      ensures Valid() && rbuf != null && ReadBuffer() == old(ReadBuffer())
      ensures grown <==> old(rbuf.Length) < 4194304
      ensures grown ==> rbuf.Length >= (if old(rbuf.Length) < 16384 then 16384
                          else if 2 * old(rbuf.Length) > 4194304 then 4194304 else 2 * old(rbuf.Length))
      ensures if grown then rbuf.Length > old(rbuf.Length) else rbuf == old(rbuf)
    {
      var cur := rbuf.Length;
      if cur >= MAX_READ_BUFFER {
        return false;
      }
      var want := BATCH_READ_BUFFER;
      if cur >= BATCH_READ_BUFFER {
        want := cur * 2;
        if want > MAX_READ_BUFFER {
          want := MAX_READ_BUFFER;
        }
      }
      ghost var unread := rbuf[rr..rw];
      var nb := GetBytes(want);
      forall i | 0 <= i < rw {
        nb[i] := rbuf[i];
      }
      assert forall i :: rr <= i < rw ==> nb[i] == unread[i - rr];
      assert nb[rr..rw] == unread;
      rbuf := nb;
      return true;
    }

    /** The buffer that was used up before goes back to the pool; a new one comes from it. */
    method Prepare()
      requires Valid()
      modifies this
      ensures rbuf == old(rbuf) || fresh(rbuf)
      ensures Valid() && rbuf != null && !releaseReadBuf && ReadBuffer() == old(ReadBuffer())
      ensures if old(Stuck()) then unchanged(this) else !Full()
      ensures rw == old(if rbuf == null || releaseReadBuf then 0 else rw)
      ensures old(rbuf) != null && !old(releaseReadBuf) ==> rbuf == old(rbuf)
      ensures old(rbuf) == null || old(releaseReadBuf) ==> fresh(rbuf) && rbuf.Length >= 8192
    {
      if releaseReadBuf && rbuf != null {
        rbuf := null;
        rr, rw := 0, 0;
      }
      releaseReadBuf := false;
      if rbuf == null {
        rbuf := GetBytes(FIRST_READ_BUFFER);
      }
    }

    method Fill(bytes: seq<byte>)
      requires Valid() && rbuf != null && !releaseReadBuf && |bytes| <= rbuf.Length - rw
      modifies this`rw, rbuf
      ensures Valid() && ReadBuffer() == old(ReadBuffer()) + bytes && rw == old(rw) + |bytes|
    {
      ghost var unread := rbuf[rr..rw];
      var n := |bytes|;
      forall i | 0 <= i < n {
        rbuf[rw + i] := bytes[i];
      }
      assert rbuf[rr..rw] == unread && rbuf[rw..rw + n] == bytes;
      assert rbuf[rr..rw + n] == rbuf[rr..rw] + rbuf[rw..rw + n];
      rw := rw + n;
    }

    /** One turn of the read loop: a larger buffer, one read of the socket, or the end. */
    method ReadTurn(script: seq<KRead>)
        returns (more: bool, n: nat, err: Option<ReadError>, rest: seq<KRead>, ghost chunk: seq<byte>)
      requires Valid() && rbuf != null && !releaseReadBuf
      modifies this`rbuf, this`rw, rbuf
      ensures rbuf == old(rbuf) || fresh(rbuf)
      ensures Valid() && rbuf != null && rw == old(rw) + n && n == |chunk| && ReadBuffer() == old(ReadBuffer()) + chunk
      ensures Received(script) == chunk + Received(rest) && err != Some(ProtocolFailed)
      ensures old(Full()) ==> !more && err.None? && rest == script && unchanged(this)
      ensures old(rbuf.Length) >= MAX_READ_BUFFER ==> rbuf == old(rbuf)
      ensures more ==> err.None? && Ready(script) == chunk + Ready(rest)
      ensures more ==> Size(rest) < Size(script) || (rest == script && old(rw == rbuf.Length) && rw < rbuf.Length)
      ensures more ==> chunk != [] || !Full()
      ensures !more ==> chunk == [] && (old(Full()) || Ready(script) == [])
      ensures err == Some(EndOfFile) ==> ReadBuffer() == [] && rest != [] && rest[0].Eof?
      ensures if more then Stop(script) == Stop(rest) else !old(Full()) ==> Stops(script, err, ReadBuffer())
    {
      StopStep(script);
      hide Received, Ready, Size, Taken, Stop;
      more, n, err, rest, chunk := true, 0, None, script, [];
      assert ReadBuffer() + [] == ReadBuffer() && [] + Received(script) == Received(script)
          && [] + Ready(script) == Ready(script);
      if rbuf.Length == rw {
        var grown := GrowReadBuffer();
        more := grown;
        return;
      }
      NothingReady(script);
      if script == [] {
        more := false;
        return;
      }
      ScriptStep(script, rbuf.Length - rw);
      if !script[0].Data? {
        match script[0] {
          case Interrupted =>
            rest := script[1..];
            return;
          case WouldBlock =>
            more, rest := false, script[1..];
            return;
          case Failed =>
            more, err, rest := false, Some(SocketFailed), script[1..];
            return;
          case Eof =>
            more := false;
            if rw > rr {
              return;
            }
            err := Some(EndOfFile);
            return;
        }
      }
      var space := rbuf.Length - rw;
      n := if |script[0].bytes| < space then |script[0].bytes| else space;
      chunk := script[0].bytes[..n];
      Fill(script[0].bytes[..n]);
      rest := Taken(script, n);
      if rw == rbuf.Length && rbuf.Length < BATCH_READ_BUFFER {
        var grown := GrowReadBuffer();
      }
    }

    /** Read: everything the socket has, until it would block, ends or fails, or the buffer
        may not grow any more. The end of the stream is reported, and stays there to be read
        again, only when nothing is left to consume. A buffer takes what is there exactly when it
        is not stuck. */
    method Read(script: seq<KRead>)
        returns (total: nat, err: Option<ReadError>, rest: seq<KRead>, ghost bytes: seq<byte>)
      requires Valid()
      modifies this, rbuf
      ensures rbuf == old(rbuf) || fresh(rbuf)
      ensures Valid() && !releaseReadBuf && total == |bytes|
      ensures ReadBuffer() == old(ReadBuffer()) + bytes && Received(script) == bytes + Received(rest)
      ensures err != Some(ProtocolFailed)
      ensures err == Some(EndOfFile) ==> ReadBuffer() == [] && rest != [] && rest[0].Eof?
      ensures old(Stuck()) ==> total == 0 && err.None? && rest == script && unchanged(this)
      ensures bytes <= Ready(script) && (Stuck() || (bytes == Ready(script) && Stops(script, err, ReadBuffer())))
      ensures script != [] && script[0].Data? ==> (total > 0 <==> !old(Stuck()))
      ensures rw == old(if rbuf == null || releaseReadBuf then 0 else rw) + total
      ensures old(rbuf) != null && !old(releaseReadBuf) && old(rbuf.Length) >= MAX_READ_BUFFER ==> rbuf == old(rbuf)
    {
      hide Received, Ready, Size, Taken, Stop, Stops;
      Prepare();
      ghost var start := rw;
      total, err, rest, bytes := 0, None, script, [];
      assert ReadBuffer() + [] == ReadBuffer() && [] + Received(script) == Received(script)
          && [] + Ready(script) == Ready(script);
      var more := true;
      while more
        invariant rbuf == old(rbuf) || fresh(rbuf)
        invariant Valid() && rbuf != null && !releaseReadBuf && total == |bytes|
        invariant ReadBuffer() == old(ReadBuffer()) + bytes && Received(script) == bytes + Received(rest)
        invariant more ==> err.None? && Ready(script) == bytes + Ready(rest) && Stop(rest) == Stop(script)
        invariant !more ==> Full() || Stops(script, err, ReadBuffer())
        invariant !more ==> (Full() || bytes == Ready(script)) && bytes <= Ready(script)
        invariant !more ==>
                    && err != Some(ProtocolFailed)
                    && (err == Some(EndOfFile) ==> ReadBuffer() == [] && rest != [] && rest[0].Eof?)
        invariant old(Stuck()) ==> total == 0 && err.None? && rest == script && unchanged(this)
        invariant !old(Stuck()) ==> total > 0 || !Full()
        invariant rw == start + total
        invariant old(rbuf) != null && !old(releaseReadBuf) && old(rbuf.Length) >= MAX_READ_BUFFER ==> rbuf == old(rbuf)
        decreases more, Size(rest), if rw == rbuf.Length then 1 else 0
      {
        var n;
        ghost var chunk;
        ghost var todo := rest;
        more, n, err, rest, chunk := ReadTurn(rest);
        StopsSame(todo, script, err, ReadBuffer());
        Assoc(old(ReadBuffer()), bytes, chunk);
        Assoc(bytes, chunk, Received(rest));
        Assoc(bytes, chunk, Ready(rest));
        assert bytes + [] == bytes;
        total, bytes := total + n, bytes + chunk;
      }
      DataIsReady(script);
    }

    /** ConsumeRead: the buffer of a fully consumed message is not given back at once. */
    method ConsumeRead(n: int)
      requires Valid()
      modifies this`rr, this`releaseReadBuf
      ensures Valid() && (releaseReadBuf <==> old(releaseReadBuf) || (n > 0 && ReadBuffer() == []))
      ensures ReadBuffer() == if n <= 0 then old(ReadBuffer()) else if n >= |old(ReadBuffer())| then []
                else old(ReadBuffer())[n..]
    {
      if n <= 0 {
        return;
      }
      rr := if rr + n > rw then rw else rr + n;
      if rr == rw {
        releaseReadBuf := true;
      }
    }

    /** readAndDispatch: the protocol is handed exactly the bytes that were received and not
        consumed, and what it does not consume is there the next time. */
    method ReadAndDispatch<H>(script: seq<KRead>, onData: (H, seq<byte>) -> (H, int, bool), h0: H)
      returns (h: H, err: Option<ReadError>, rest: seq<KRead>, ghost bytes: seq<byte>)
      requires Valid()
      modifies this, rbuf
      ensures rbuf == old(rbuf) || fresh(rbuf)
      ensures Valid() && Received(script) == bytes + Received(rest)
      ensures var buf := old(ReadBuffer()) + bytes;
              var (h1, n, failed) := onData(h0, buf);
              if buf == [] then h == h0 && ReadBuffer() == []
              else
                && h == h1
                && (failed ==> err == Some(ProtocolFailed))
                && (!failed ==> ReadBuffer() == if n <= 0 then buf else if n >= |buf| then [] else buf[n..])
      ensures err == Some(ProtocolFailed) ==> onData(h0, old(ReadBuffer()) + bytes).2 && old(ReadBuffer()) + bytes != []
      ensures bytes <= Ready(script) && (Full() || bytes == Ready(script))
      ensures err != Some(ProtocolFailed) ==> Full() || Stops(script, err, old(ReadBuffer()) + bytes)
      ensures script != [] && script[0].Data? ==> (bytes != [] <==> !old(Stuck()))
      ensures old(Stuck()) ==> bytes == [] && rest == script
      ensures rw == old(if rbuf == null || releaseReadBuf then 0 else rw) + |bytes|
      ensures old(rbuf) != null && !old(releaseReadBuf) && old(rbuf.Length) >= MAX_READ_BUFFER ==> rbuf == old(rbuf)
    {
      hide Received, Ready, Stops;
      var total, readErr;
      total, readErr, rest, bytes := Read(script);
      h := h0;
      ghost var readInto, readTo, full := rbuf, rw, Full();
      ghost var all := ReadBuffer();
      while true
        invariant rbuf == old(rbuf) || fresh(rbuf)
        invariant Valid() && rbuf == readInto && rw == readTo && Full() == full
        invariant (h == h0 && ReadBuffer() == all)
                  || (ReadBuffer() == [] && all != [] && h == onData(h0, all).0 && !onData(h0, all).2
                       && onData(h0, all).1 >= |all|)
        decreases |ReadBuffer()|
      {
        var buf := ReadBuffer();
        if |buf| == 0 {
          break;
        }
        var (h', n, failed) := onData(h, buf);
        h := h';
        if failed {
          return h, Some(ProtocolFailed), rest, bytes;
        }
        if n <= 0 {
          break;
        }
        ConsumeRead(n);
        if n < |buf| {
          break;
        }
      }
      err := readErr;
    }

    /** A connection whose protocol is one of the self-delimiting parsers, over any number of
        readable events. As long as nothing fails, the parser has handled all bytes received
        so far as one pass over them would, and the buffer holds just what is left over; and all
        that was ready has been received, if it is less than the largest buffer. */
    method Serve<P(!new), I(!new), E(!new), H(!new)>(
        scripts: seq<seq<KRead>>, ghost cut: (P, seq<byte>) -> Cut<P, I, E>, ghost fn: (H, I) -> (H, Option<E>),
        onData: ((P, H), seq<byte>) -> ((P, H), int, bool), p0: P, h0: H)
      returns (p: P, h: H, err: Option<ReadError>, ghost got: seq<byte>)
      requires Valid() && ReadBuffer() == [] && Lawful(cut)
      requires forall s: (P, H), buf: seq<byte> :: onData(s, buf) == Parsing(cut, fn, s, buf)
      modifies this, rbuf
      ensures Valid()
      ensures err.None? || err == Some(EndOfFile) || err == Some(SocketFailed) ==>
                var r := Run(cut, fn, p0, h0, got);
                (p, h) == (r.p, r.h) && r.error.None? && ReadBuffer() == got[r.consumed..]
      ensures err == Some(ProtocolFailed) ==>
                var r := Run(cut, fn, p0, h0, got); (p, h) == (r.p, r.h) && r.error.Some?
      ensures err.None? && old(rw) + |AllReady(scripts)| < 4194304 ==> got == AllReady(scripts)
    {
      hide Lawful, Received;
      p, h, err, got := p0, h0, None, [];
      Decided(cut, p0, [], []);
      for i := 0 to |scripts|
        invariant rbuf == old(rbuf) || fresh(rbuf)
        invariant Valid() && err.None?
        invariant var r := Run(cut, fn, p0, h0, got);
                  (p, h) == (r.p, r.h) && r.error.None? && ReadBuffer() == got[r.consumed..]
        invariant rw <= old(rw) + |got|
        invariant old(rw) + |AllReady(scripts)| < 4194304 ==> got == AllReady(scripts[..i])
      {
        AllReadyPrefix(scripts, i + 1);
        assert scripts[..i + 1][..i] == scripts[..i];
        ghost var r0, left := Run(cut, fn, p0, h0, got), ReadBuffer();
        var state, rest;
        ghost var bytes;
        state, err, rest, bytes := ReadAndDispatch(scripts[i], onData, (p, h));
        p, h := state.0, state.1;
        OnePass(cut, fn, p0, h0, got, bytes);
        got := got + bytes;
        if err.Some? {
          return;
        }
      }
      assert scripts[..|scripts|] == scripts;
    }
  }

  /** A protocol that takes one byte of what it is given. */
  function TakesOne(h: (), buf: seq<byte>): ((), int, bool) {
    (h, 1, false)
  }

  /** A run that leads to a stuck connection: 4 MB and two bytes, and then as much as the buffer
      has room for, to a protocol that takes one byte an event. */
  method FillUp() returns (c: ReadSide)
    ensures fresh(c) && c.Valid() && c.Stuck() && |c.ReadBuffer()| > 1 && fresh(c.rbuf)
  {
    c := new ReadSide();
    var h, err, rest;
    ghost var bytes;
    var first: KRead := Data(seq(MAX_READ_BUFFER + 2, _ => 0));
    OnlyData(first);
    hide Ready, Received;
    h, err, rest, bytes := c.ReadAndDispatch([first], TakesOne, ());
    assert bytes <= first.bytes;
    if !c.Full() {
      assert bytes == first.bytes;
      assert [] + bytes == bytes;
      assert |c.ReadBuffer()| == MAX_READ_BUFFER + 1;
      var second: KRead := Data(seq(c.rbuf.Length - c.rw, _ => 0));
      OnlyData(second);
      h, err, rest, bytes := c.ReadAndDispatch([second], TakesOne, ());
    }
  }

  /** From then on nothing is read, whatever comes, though bytes at the front are used up. */
  method GetsStuck(later: seq<KRead>) returns (c: ReadSide, ghost ignored: seq<byte>)
    ensures c.Valid() && c.Stuck() && ignored == []
  {
    c := FillUp();
    ghost var left := c.ReadBuffer();
    assert left + [] == left;
    var h, err, rest;
    h, err, rest, ignored := c.ReadAndDispatch(later, TakesOne, ());
  }

  lemma OnlyData(k: KRead)
    requires k.Data?
    ensures Ready([k]) == k.bytes && Received([k]) == k.bytes
  {
    assert [k][1..] == [];
  }

  // ---- writing --------------------------------------------------------------------------

  /** A write reports Fine also when only the flush of an older backlog failed. */
  datatype Outcome = Fine | Closed | WriteFailed

  class WriteSide {
    var wbufList: seq<Slot>
    var closed: bool
    /** The writable event has been registered again since it last fired. */
    var armed: bool
    ghost var sent: seq<byte>
    ghost var accepted: seq<byte>
    /** Whether the socket has ever failed. The code keeps no such note. */
    var broken: bool
    /** The writes of the socket so far, and whether the last one took less than it was given. */
    ghost var calls: nat
    ghost var short: bool
    /** What the kernel answers to the next writes; behind these answers, anything. */
    var kernel: seq<Answer>

    /** Until the socket fails, what it took followed by the backlog is what was written, and
        a backlog never waits without an event to come. */
    ghost predicate Valid()
      reads this
    {
      !broken ==> NoHoles(wbufList) && sent + Queued(wbufList) == accepted && (wbufList != [] ==> armed)
    }

    constructor (kernel: seq<Answer>)
      ensures Valid() && !broken && accepted == [] && wbufList == [] && !closed && this.kernel == kernel
    {
      wbufList, closed, armed := [], false, false;
      sent, accepted, broken := [], [], false;
      calls, short := 0, false;
      this.kernel := kernel;
    }

    /** What is left to send waits for the socket, which has just taken less than it was given. */
    twostate predicate Waits()
      reads this
    {
      !broken && wbufList != [] ==> calls > old(calls) && short
    }

    method SocketWrite(data: seq<byte>) returns (n: nat, e: Errno)
      modifies this`sent, this`broken, this`kernel, this`calls, this`short
      ensures n <= |data| && sent == old(sent) + data[..n] && (e != Ok ==> n == 0)
      ensures broken == (old(broken) || e == Hard)
      ensures calls == old(calls) + 1 && short == !(e == Ok && n == |data|)
      ensures old(kernel) != [] ==>
                && kernel == old(kernel)[1..]
                && match old(kernel)[0] {
                     case Takes(k) => e == Ok && n == if k < |data| then k else |data|
                     case TryAgain => e == Again
                     case Fails => e == Hard
                   }
    {
      if kernel == [] {
        var any: Answer :| true;
        kernel := [any];
      }
      var answer := kernel[0];
      kernel := kernel[1..];
      match answer {
        case Takes(k) => n, e := if k < |data| then k else |data|, Ok;
        case TryAgain => n, e := 0, Again;
        case Fails => n, e, broken := 0, Hard, true;
      }
      calls, short := calls + 1, !(e == Ok && n == |data|);
      sent := sent + data[..n];
    }

    method AddWrite()
      modifies this`armed
      ensures armed
    {
      armed := true;
    }

    method AppendToWbufList(data: seq<byte>, oldLen: int)
      requires NoHoles(wbufList) && |data| + oldLen >= |data|
      modifies this`wbufList
      ensures NoHoles(wbufList) && Queued(wbufList) == Queued(old(wbufList)) + data
      ensures |old(wbufList)| <= |wbufList| <= |old(wbufList)| + 1 && (data == [] ==> wbufList == old(wbufList))
      ensures data != [] && old(wbufList) != [] ==>
                var last := old(wbufList)[|old(wbufList)| - 1].value;
                (|wbufList| == |old(wbufList)| <==> |last.data| + |data| <= last.cap)
      ensures |wbufList| > |old(wbufList)| ==> wbufList[|wbufList| - 1].value.cap >= |data| + oldLen
    {
      if |data| == 0 {
        assert Queued(wbufList) + [] == Queued(wbufList);
        return;
      }
      if |wbufList| == 0 {
        var cap := RoomFor(|data| + oldLen);
        wbufList := [Some(Buf(data, cap))];
        QueuedOne(Buf(data, cap));
        return;
      }
      var last := wbufList[|wbufList| - 1].value;
      if last.cap - |last.data| >= |data| {
        QueuedLast(wbufList, data, last.cap);
        wbufList := wbufList[|wbufList| - 1 := Some(last.(data := last.data + data))];
        return;
      }
      var cap := RoomFor(|data| + oldLen);
      QueuedConcat(wbufList, [Some(Buf(data, cap))]);
      QueuedOne(Buf(data, cap));
      wbufList := wbufList + [Some(Buf(data, cap))];
    }

    /** flushLocked. When the socket fails, the slots already written stay in the list without
        a buffer: the list has no holes exactly when nothing in it had been written out. */
    method FlushLocked() returns (result: Outcome)
      requires !broken && NoHoles(wbufList) && sent + Queued(wbufList) == accepted
      modifies this`wbufList, this`sent, this`broken, this`kernel, this`armed, this`calls, this`short
      ensures Valid() && (broken <==> result == WriteFailed) && (result == Fine || result == WriteFailed)
      ensures Waits()
      ensures broken ==> |wbufList| == |old(wbufList)| && (NoHoles(wbufList) <==> wbufList == old(wbufList))
      ensures !broken ==> |wbufList| <= |old(wbufList)|
      ensures old(wbufList) != [] && old(kernel) != [] && old(kernel)[0].Fails? ==> broken
    {
      hide Queued;
      var i := 0;
      assert wbufList[0..] == wbufList;
      while i < |wbufList|
        invariant i <= |wbufList| == |old(wbufList)| && !broken
        invariant Owed(wbufList, i, sent, accepted)
        invariant i == 0 ==> wbufList == old(wbufList)
        invariant i > 0 ==> wbufList[0].None?
        invariant calls >= old(calls)
        invariant if i == 0 then kernel == old(kernel) else !(old(kernel) != [] && old(kernel)[0].Fails?)
      {
        SlotWritten(wbufList, i, sent, accepted);
        var buf := wbufList[i].value;
        var n, e := SocketWrite(buf.data);
        assert buf.data[..0] == [] && sent + [] == sent;
        if e == Ok && n == |buf.data| {
          assert buf.data[..n] == buf.data;
          wbufList := wbufList[i := None];
          i := i + 1;
          continue;
        }
        if e != Hard {
          if n > 0 {
            wbufList := wbufList[i := Some(buf.(data := buf.data[n..]))];
          }
          assert buf.data[0..] == buf.data;
          wbufList := wbufList[i..];
          AddWrite();
          return Fine;
        }
        return WriteFailed;
      }
      NothingOwed(wbufList, sent, accepted);
      wbufList := [];
      return Fine;
    }

    /** Write and WriteRaw, without a write hook. */
    method Write(data: seq<byte>) returns (result: Outcome)
      requires Valid() && !broken
      modifies this`wbufList, this`sent, this`broken, this`kernel, this`armed, this`accepted, this`calls, this`short
      ensures Valid() && accepted == old(accepted) + (if closed then [] else data)
      ensures broken ==> (result == WriteFailed <==> old(wbufList) == [])
      ensures result == Closed <==> closed
      ensures result == WriteFailed ==> broken
      ensures closed ==> unchanged(this)
      ensures !closed && data != [] ==> Waits()
      ensures old(kernel) != [] && data != [] && !closed ==>
                && (old(kernel)[0].Fails? ==> broken)
                && (old(kernel)[0].TryAgain? && old(wbufList) == [] ==>
                     !broken && wbufList != [] && kernel == old(kernel)[1..])
    {
      hide Queued;
      if closed {
        assert accepted + [] == accepted;
        return Closed;
      }
      if |data| == 0 {
        assert accepted + [] == accepted;
        return Fine;
      }
      if |wbufList| > 0 {
        AppendToWbufList(data, |data|);
        Assoc(sent, Queued(old(wbufList)), data);
        accepted := accepted + data;
        var flushed := FlushLocked();
        return Fine;
      }
      NothingOwed([], sent, accepted);
      var n, e := SocketWrite(data);
      accepted := accepted + data;
      Halves(old(sent), data, n);
      if e == Ok && n == |data| {
        return Fine;
      }
      if e != Hard {
        if n < |data| {
          AppendToWbufList(data[n..], |data| - n);
        }
        AddWrite();
        return Fine;
      }
      return WriteFailed;
    }

    /** Writev: two pieces in one call. */
    method Writev(a: seq<byte>, b: seq<byte>) returns (result: Outcome)
      requires Valid() && !broken
      modifies this`wbufList, this`sent, this`broken, this`kernel, this`armed, this`accepted, this`calls, this`short
      ensures Valid() && accepted == old(accepted) + (if closed then [] else a + b)
      ensures broken ==> (result == WriteFailed <==> old(wbufList) == [])
      ensures result == Closed <==> closed
      ensures result == WriteFailed ==> broken
      ensures closed ==> unchanged(this)
      ensures !closed ==> Waits()
      ensures old(kernel) != [] && a + b != [] && !closed ==> (old(kernel)[0].Fails? ==> broken)
    {
      hide Queued;
      if closed {
        assert accepted + [] == accepted;
        return Closed;
      }
      var all := a + b;
      if |wbufList| > 0 {
        AppendToWbufList(all, |all|);
        Assoc(sent, Queued(old(wbufList)), all);
        accepted := accepted + all;
        var flushed := FlushLocked();
        return Fine;
      }
      NothingOwed([], sent, accepted);
      var n, e := SocketWrite(all);
      accepted := accepted + all;
      Halves(old(sent), all, n);
      var total := |a| + |b|;
      if e == Ok && n == total {
        return Fine;
      }
      if e != Hard {
        var rest: seq<byte>;
        if n < |a| {
          rest := a[n..] + b;
        } else {
          rest := b[n - |a|..];
        }
        assert rest == all[n..];
        AppendToWbufList(rest, total);
        AddWrite();
        return Fine;
      }
      return WriteFailed;
    }

    /** The writable event: it has fired, so it must be registered again for what is left. */
    method OnWritable() returns (result: Outcome)
      requires Valid() && !broken
      modifies this`wbufList, this`sent, this`broken, this`kernel, this`armed, this`calls, this`short
      ensures Valid() && (broken <==> result == WriteFailed) && (result == Closed <==> closed)
      ensures if closed then unchanged(this) else Waits()
    {
      if closed {
        return Closed;
      }
      armed := false;
      result := FlushLocked();
    }

    /** Any mix of writes and events, for any kernel: until the socket fails, what it took
        followed by the backlog is everything that was written, in order, and a backlog has
        its event. */
    method Drive(ops: seq<Op>)
      requires Valid() && !broken && !closed
      modifies this
      ensures Valid() && !broken ==>
                sent + Queued(wbufList) == old(sent + Queued(wbufList)) + Written(ops) && (wbufList != [] ==> armed)
    {
      hide Queued;
      ghost var before := accepted;
      assert ops[0..] == ops;
      for i := 0 to |ops|
        invariant Valid() && !broken && !closed
        invariant accepted + Written(ops[i..]) == before + Written(ops)
      {
        WrittenStep(ops, i);
        ghost var now := accepted;
        var result;
        match ops[i] {
          case Put(data) =>
            result := Write(data);
            Assoc(now, data, Written(ops[i + 1..]));
          case PutTwo(a, b) =>
            result := Writev(a, b);
            Assoc(now, a + b, Written(ops[i + 1..]));
          case Writable =>
            result := OnWritable();
        }
        if broken {
          return;
        }
      }
      WrittenStep(ops, |ops|);
      assert accepted + [] == accepted;
    }
  }

  /** A run in which a failure is not reported: the kernel takes nothing of a first piece, and
      fails at the flush that a second write, of either kind, makes of the backlog. */
  method FailureIsNotReported(first: seq<byte>, a: seq<byte>, b: seq<byte>, gathered: bool)
      returns (c: WriteSide, result: Outcome)
    requires first != [] && a + b != []
    ensures c.broken && result == Fine && c.accepted == first + (a + b)
  {
    c := new WriteSide([TryAgain, Fails]);
    hide Queued;
    result := c.Write(first);
    assert c.kernel == [Fails] && [] + first == first;
    if gathered {
      result := c.Writev(a, b);
    } else {
      result := c.Write(a + b);
    }
  }

  /** What a program does to a connection, and the event loop's writable event. */
  datatype Op = Put(data: seq<byte>) | PutTwo(a: seq<byte>, b: seq<byte>) | Writable

  function Written(ops: seq<Op>): seq<byte> {
    if ops == [] then []
    else
      var x := ops[0];
      (match x case Put(data) => data case PutTwo(a, b) => a + b case Writable => []) + Written(ops[1..])
  }

  lemma WrittenStep(ops: seq<Op>, i: nat)
    requires i <= |ops|
    ensures i == |ops| ==> Written(ops[i..]) == []
    ensures i < |ops| ==>
              Written(ops[i..]) == match ops[i] {
                case Put(data) => data + Written(ops[i + 1..])
                case PutTwo(a, b) => a + b + Written(ops[i + 1..])
                case Writable => Written(ops[i + 1..])
              }
  {
    if i < |ops| { assert ops[i..][1..] == ops[i + 1..]; }
  }

  /** A parser as the protocol of a connection: what it leaves, how much it consumed, whether
      it failed. */
  ghost function Parsing<P(!new), I(!new), E(!new), H(!new)>(
      cut: (P, seq<byte>) -> Cut<P, I, E>, fn: (H, I) -> (H, Option<E>), s: (P, H), buf: seq<byte>)
    : ((P, H), int, bool)
    requires Lawful(cut)
  {
    var r := Run(cut, fn, s.0, s.1, buf);
    ((r.p, r.h), r.consumed, r.error.Some?)
  }

  /** Going on behind the leftover of one pass is one longer pass. */
  lemma OnePass<P(!new), I(!new), E(!new), H(!new)>(
      cut: (P, seq<byte>) -> Cut<P, I, E>, fn: (H, I) -> (H, Option<E>), p: P, h: H, got: seq<byte>, bytes: seq<byte>)
    requires Lawful(cut) && Run(cut, fn, p, h, got).error.None?
    ensures var r := Run(cut, fn, p, h, got);
            var buf := got[r.consumed..] + bytes;
            var r', all := Run(cut, fn, r.p, r.h, buf), Run(cut, fn, p, h, got + bytes);
            && all == r'.(consumed := r.consumed + r'.consumed)
            && (got + bytes)[all.consumed..] == buf[r'.consumed..]
            && (buf == [] ==> r' == Outcome(r.p, r.h, 0, None) && (got + bytes)[all.consumed..] == [])
  {
    hide Lawful, Run;
    Resume(cut, fn, p, h, got, bytes);
    var r := Run(cut, fn, p, h, got);
    var buf := got[r.consumed..] + bytes;
    var r' := Run(cut, fn, r.p, r.h, buf);
    NothingToRun(cut, fn, r.p, r.h);
    assert (got + bytes)[r.consumed + r'.consumed..] == buf[r'.consumed..];
  }

  lemma NothingToRun<P(!new), I(!new), E(!new), H(!new)>(
      cut: (P, seq<byte>) -> Cut<P, I, E>, fn: (H, I) -> (H, Option<E>), p: P, h: H)
    requires Lawful(cut)
    ensures Run(cut, fn, p, h, []) == Outcome(p, h, 0, None)
  {
    Decided(cut, p, [], []);
    hide Lawful;
  }

  lemma DataIsReady(script: seq<KRead>)
    ensures script != [] && script[0].Data? ==> Ready(script) != []
  {
  }

  lemma NothingReady(script: seq<KRead>)
    ensures script == [] || script[0].WouldBlock? || script[0].Eof? || script[0].Failed? ==> Ready(script) == []
  {
  }

  /** One step of a script that is not at its end. */
  lemma ScriptStep(script: seq<KRead>, space: nat)
    requires script != [] && space > 0
    ensures if script[0].Data? then
              var n := if |script[0].bytes| < space then |script[0].bytes| else space;
              && Received(script) == script[0].bytes[..n] + Received(Taken(script, n))
              && Ready(script) == script[0].bytes[..n] + Ready(Taken(script, n))
              && Size(Taken(script, n)) < Size(script)
            else
              && Received(script) == Received(script[1..]) && Size(script[1..]) < Size(script)
              && (script[0].Interrupted? ==> Ready(script) == Ready(script[1..]))
  {
    if script[0].Data? {
      TakenBytes(script, if |script[0].bytes| < space then |script[0].bytes| else space);
    } else {
      assert [] + Received(script[1..]) == Received(script[1..]);
    }
  }
}
