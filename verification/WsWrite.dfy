/** The write side of a WebSocket server connection: a backlog of partly written frames, and
    corking (websocket/cork.go, websocket/conn_unix.go, websocket/conn_core.go, websocket/ws_header.go). */
module WsWrite {
  import opened Bytes
  import opened Framing
  import opened WriteQueue
  import opened WsFrame

  // ---- frames ----------------------------------------------------------------------------

  /** A final, unmasked frame, as a server sends it. */
  function ServerFrame(op: nat, payload: seq<byte>): seq<byte> {
    WsBytes(WsFrame(0x80 + op % 16, [], payload))
  }

  function HeaderLen(n: nat): (k: nat) {
    2 + |LenBytes(n)|
  }

  /** wsHeader: the header at the front of the caller's buffer, and its length. */
  method WsHeader(buf: array<byte>, op: nat, payloadLen: nat) returns (n: nat)
    requires buf.Length >= 10
    modifies buf
    ensures n == HeaderLen(payloadLen) <= 10
    ensures forall payload: seq<byte> :: |payload| == payloadLen ==> buf[..n] + payload == ServerFrame(op, payload)
    ensures forall k :: n <= k < buf.Length ==> buf[k] == old(buf[k])
  {
    buf[0] := 0x80 + op % 16;
    if payloadLen <= 125 {
      buf[1] := payloadLen;
      return 2;
    }
    if payloadLen <= 65535 {
      buf[1] := 126;
      var two := ToBE(payloadLen, 2);
      buf[2], buf[3] := two[0], two[1];
      assert buf[..4] == [buf[0], 126] + two;
      return 4;
    }
    buf[1] := 127;
    var eight := ToBE(payloadLen, 8);
    forall i | 0 <= i < 8 {
      buf[2 + i] := eight[i];
    }
    assert buf[..10] == [buf[0], 127] + eight;
    return 10;
  }

  /** The header of a message, made in a buffer on the stack. */
  method HeaderOf(op: nat, payload: seq<byte>) returns (hdr: seq<byte>)
    ensures hdr + payload == ServerFrame(op, payload)
  {
    hide ServerFrame;
    var buf := new byte[10];
    var n := WsHeader(buf, op, |payload|);
    return buf[..n];
  }

  /** The peer's decoder reads back what a server frame says. */
  lemma ServerFrameDecodes(op: nat, payload: seq<byte>, tail: seq<byte>)
    requires |payload| <= MAX_PAYLOAD
    ensures CutWs(0, ServerFrame(op, payload) + tail) ==
              Item(WsFrame(0x80 + op % 16, [], payload), |ServerFrame(op, payload)|, 0)
  {
    CutUndoesWs();
    hide CutWs, WsBytes;
    assert WsOk(0, WsFrame(0x80 + op % 16, [], payload));
  }

  // ---- the connection ----------------------------------------------------------------------

  datatype Outcome = Fine | Closed | BadText | NoEvent | SocketError

  const MAX_CORK_BYTES := 32 * 1024
  const CORK_GROW_BYTES := 16 * 1024
  const MAX_COPIED := 4096

  class WriteSide {
    const utf8: seq<byte> -> bool
    var wbufList: seq<Slot>
    var corking: bool
    var closed: bool
    /** What the socket has taken, what callers have handed over, and whether the socket has
        ever failed. */
    ghost var sent: seq<byte>
    ghost var accepted: seq<byte>
    ghost var broken: bool
    /** The writes of the socket so far, whether the last one took less than it was given, and
        whether the writable event is registered. */
    ghost var calls: nat
    ghost var short: bool
    ghost var armed: bool

    /** Until the socket fails, every accepted byte is sent or queued, in order. While
        corking there is at most one buffer. */
    ghost predicate Valid()
      reads this
    {
      && (corking ==> |wbufList| <= 1 && NoHoles(wbufList))
      && (!broken ==> !closed && NoHoles(wbufList) && sent + Queued(wbufList) == accepted)
    }

    constructor (utf8: seq<byte> -> bool)
      ensures Valid() && !broken && accepted == [] && wbufList == []
    {
      this.utf8 := utf8;
      wbufList, corking, closed := [], false, false;
      sent, accepted, broken := [], [], false;
      calls, short, armed := 0, false, false;
    }

    /** What is left to send waits for the socket, which has just taken less than it was given,
        and will be sent on when the event comes. */
    twostate predicate Waits(registered: bool)
      reads this
    {
      !broken && !corking && wbufList != [] ==> calls > old(calls) && short && (registered ==> armed)
    }

    /** Any kernel: it takes any number of bytes, or none for now, or fails. */
    method SocketWrite(data: seq<byte>) returns (n: nat, e: Errno)
      modifies this`sent, this`broken, this`calls, this`short
      ensures n <= |data| && sent == old(sent) + data[..n] && (e != Ok ==> n == 0)
      ensures broken == (old(broken) || e == Hard)
      ensures calls == old(calls) + 1 && short == !(e == Ok && n == |data|)
    {
      e :| true;
      if e == Ok {
        n :| n <= |data|;
      } else {
        n := 0;
        broken := broken || e == Hard;
      }
      calls, short := calls + 1, !(e == Ok && n == |data|);
      sent := sent + data[..n];
    }

    /** Registering for the writable event may fail. */
    method AddWrite() returns (ok: bool)
      modifies this`armed
      ensures armed == (ok || old(armed))
    {
      ok :| true;
      armed := ok || armed;
    }

    method CloseNoLock()
      modifies this`closed, this`broken
      ensures closed && broken
    {
      closed, broken := true, true;
    }

    method AppendToWbufList(bytes: seq<byte>, oldLen: nat)
      requires NoHoles(wbufList)
      modifies this`wbufList
      ensures NoHoles(wbufList) && Queued(wbufList) == Queued(old(wbufList)) + bytes
      ensures bytes == [] ==> wbufList == old(wbufList)
      ensures |old(wbufList)| <= |wbufList| <= |old(wbufList)| + 1
      ensures bytes != [] && old(wbufList) != [] ==>
                var last := old(wbufList)[|old(wbufList)| - 1].value;
                (|wbufList| == |old(wbufList)| <==> |last.data| + |bytes| <= last.cap)
      ensures |wbufList| > |old(wbufList)| ==>
                var last := wbufList[|wbufList| - 1].value;
                last.cap >= |last.data| + oldLen
    {
      if |bytes| == 0 {
        assert Queued(wbufList) + [] == Queued(wbufList);
        return;
      }
      if |wbufList| == 0 {
        var cap := RoomFor(|bytes| + oldLen);
        wbufList := [Some(Buf(bytes, cap))];
        QueuedOne(Buf(bytes, cap));
        return;
      }
      var data := bytes;
      var last := wbufList[|wbufList| - 1].value;
      var remaining := if last.cap < |last.data| then 0 else last.cap - |last.data|;
      if remaining >= |data| {
        QueuedLast(wbufList, data, last.cap);
        wbufList := wbufList[|wbufList| - 1 := Some(last.(data := last.data + data))];
        return;
      }
      if remaining > 0 {
        QueuedLast(wbufList, data[..remaining], last.cap);
        wbufList := wbufList[|wbufList| - 1 := Some(last.(data := last.data + data[..remaining]))];
        data := data[remaining..];
        assert bytes == bytes[..remaining] + data;
      }
      Assoc(Queued(old(wbufList)), bytes[..|bytes| - |data|], data);
      assert bytes[..|bytes| - |data|] + data == bytes;
      assert Queued(wbufList) == Queued(old(wbufList)) + bytes[..|bytes| - |data|];
      var cap := RoomFor(|data| + oldLen);
      QueuedConcat(wbufList, [Some(Buf(data, cap))]);
      QueuedOne(Buf(data, cap));
      wbufList := wbufList + [Some(Buf(data, cap))];
    }

    /** compactWbufList: the first `done` slots have been written out. */
    method CompactWbufList(done: nat)
      requires done <= |wbufList|
      modifies this`wbufList
      ensures wbufList == old(wbufList)[done..]
      ensures !broken && Owed(old(wbufList), done, sent, accepted) ==>
                NoHoles(wbufList) && sent + Queued(wbufList) == accepted
    {
      if done == 0 {
        return;
      }
      wbufList := wbufList[done..];
    }

    /** handlePartialWrite for bytes that are not in the list yet. */
    method QueueRest(data: seq<byte>, n: nat) returns (ok: bool)
      requires n <= |data| && NoHoles(wbufList)
      modifies this`wbufList, this`armed
      ensures NoHoles(wbufList) && Queued(wbufList) == Queued(old(wbufList)) + data[n..]
      ensures armed == (ok || old(armed))
    {
      AppendToWbufList(data[n..], |data|);
      ok := AddWrite();
    }

    /** The loop of write: from the head of the list, as far as the socket goes. */
    method WriteList() returns (result: Outcome)
      requires Valid() && !broken && wbufList != []
      modifies this`wbufList, this`sent, this`broken, this`closed, this`calls, this`short, this`armed
      ensures Valid() && |wbufList| <= |old(wbufList)|
      ensures !broken && wbufList != [] ==> calls > old(calls) && short && armed
      ensures broken <==> result == SocketError
      ensures result == SocketError || result == Fine
    {
      hide Queued, NoHoles;
      var done := 0;
      assert wbufList[0..] == wbufList;
      while done < |wbufList|
        invariant done <= |wbufList| == |old(wbufList)| && !broken && !closed
        invariant Owed(wbufList, done, sent, accepted)
        invariant done == 0 ==> wbufList == old(wbufList)
        invariant calls >= old(calls)
      {
        SlotWritten(wbufList, done, sent, accepted);
        var buf := wbufList[done].value;
        var n, e := SocketWrite(buf.data);
        if e == Hard {
          CloseNoLock();
          FirstSlot(corking, old(wbufList), wbufList, done);
          return SocketError;
        }
        if n == |buf.data| {
          assert buf.data[..n] == buf.data;
          wbufList := wbufList[done := None];
          done := done + 1;
          continue;
        }
        wbufList := wbufList[done := Some(buf.(data := buf.data[n..]))];
        var ok := AddWrite();
        if !ok {
          CloseNoLock();
          FirstSlot(corking, old(wbufList), wbufList, done);
          return SocketError;
        }
        CompactWbufList(done);
        CompactOwed(old(wbufList), wbufList);
        return Fine;
      }
      CompactWbufList(done);
      CompactOwed(old(wbufList), wbufList);
      return Fine;
    }

    /** write: behind the backlog when there is one. */
    method Write(data: seq<byte>) returns (result: Outcome)
      requires Valid() && !broken && (corking ==> data == [])
      modifies this`wbufList, this`sent, this`broken, this`closed, this`accepted, this`calls, this`short, this`armed
      ensures Valid() && accepted == old(accepted) + data && (broken <==> result == SocketError)
      ensures !broken && wbufList != [] ==> calls > old(calls) && short && armed
      ensures result == SocketError || result == Fine
    {
      hide Queued;
      assert accepted + [] == accepted;
      if |data| == 0 && |wbufList| == 0 {
        return Fine;
      }
      if |wbufList| == 0 {
        Assoc(sent, [], data);
        var n, e := SocketWrite(data);
        accepted := accepted + data;
        Halves(old(sent), data, n);
        if e == Hard {
          CloseNoLock();
          return SocketError;
        }
        if n == |data| {
          return Fine;
        }
        var ok := QueueRest(data, n);
        if !ok {
          CloseNoLock();
          return SocketError;
        }
        return Fine;
      }
      if |data| > 0 {
        AppendToWbufList(data, |data|);
        Assoc(sent, Queued(old(wbufList)), data);
        accepted := accepted + data;
      }
      result := WriteList();
    }

    /** Sends a frame to an idle socket, and queues what it does not take. */
    method SendOrQueue(frame: seq<byte>) returns (result: Outcome)
      requires Valid() && !broken && !corking && wbufList == []
      modifies this`wbufList, this`sent, this`broken, this`accepted, this`calls, this`short, this`armed
      ensures Valid() && accepted == old(accepted) + frame && (broken <==> result == SocketError)
      ensures Waits(result == Fine) && (result == Fine || result == NoEvent || result == SocketError)
    {
      hide Queued;
      Halves(sent, frame, 0);
      var n, e := SocketWrite(frame);
      accepted := accepted + frame;
      Halves(old(sent), frame, n);
      if e == Ok && n == |frame| {
        return Fine;
      }
      if e == Hard {
        return SocketError;
      }
      AppendToWbufList(frame[n..], |frame| - n);
      var ok := AddWrite();
      return if ok then Fine else NoEvent;
    }

    /** WriteMessage of a server without compression, run in place. The library's own
        WriteFrame, for long messages and behind a backlog, prints the same frame. */
    method WriteMessage(op: nat, payload: seq<byte>) returns (result: Outcome)
      requires Valid() && !broken
      modifies this
      ensures Valid() && (broken <==> result == SocketError)
      ensures accepted == old(accepted) + (if op == TEXT && !utf8(payload) then [] else ServerFrame(op, payload))
      ensures result == BadText <==> op == TEXT && !utf8(payload)
      ensures result == BadText ==> unchanged(this)
      ensures result == Fine || result == NoEvent || result == SocketError || result == BadText
      ensures result != BadText ==> Waits(result == Fine)
    {
      hide Queued, ServerFrame;
      if closed {
        return Closed;
      }
      if op == TEXT && !utf8(payload) {
        assert accepted + [] == accepted;
        return BadText;
      }
      if corking {
        result := CorkWrite(op, payload);
        return;
      }
      if |payload| <= MAX_COPIED && |wbufList| == 0 {
        var hdr := HeaderOf(op, payload);
        result := SendOrQueue(hdr + payload);
        return;
      }
      if |payload| <= 65535 && |wbufList| == 0 {
        var hdr := HeaderOf(op, payload);
        result := SendOrQueue(hdr + payload);
        return;
      }
      result := Write(ServerFrame(op, payload));
    }

    // ---- corking --------------------------------------------------------------------------

    method CorkStartLocked(hint: nat)
      requires Valid() && !broken && wbufList == []
      modifies this`wbufList, this`corking
      ensures Valid() && corking && |wbufList| == 1
      ensures wbufList[0].value.data == []
      ensures wbufList[0].value.cap >= (if hint > 32768 then 40960 else hint + hint / 4)
    {
      var capHint := if hint > MAX_CORK_BYTES then MAX_CORK_BYTES else hint;
      capHint := capHint + capHint / 4;
      var cap := RoomFor(capHint);
      wbufList := [Some(Buf([], cap))];
      QueuedOne(Buf([], cap));
      corking := true;
    }

    /** maybeCork: `rem` bytes of the current read are not parsed yet. */
    method MaybeCork(rem: nat)
      requires Valid() && !broken
      modifies this`wbufList, this`corking
      ensures Valid()
      ensures if old(corking) || old(wbufList) != [] || rem == 0
                then wbufList == old(wbufList) && corking == old(corking)
              else corking && |wbufList| == 1
    {
      if corking || |wbufList| != 0 || rem == 0 {
        return;
      }
      CorkStartLocked(rem);
    }

    /** growCork: the capacity of a new buffer, or `None` when the old one stays. `nb` is what the
        pool has for 16 KB; its size class may be smaller than asked. */
    method GrowCork(old_: Buf, need: nat, nb: nat) returns (cap: Option<nat>)
      ensures cap == if old_.cap >= 16384 || need > 16384 || nb < need then None else Some(nb)
    {
      if old_.cap >= CORK_GROW_BYTES || need > CORK_GROW_BYTES {
        return None;
      }
      if nb < need {
        return None;
      }
      return Some(nb);
    }

    /** A frame that fits behind what a buffer holds. */
    predicate Holds(b: Buf, frame: seq<byte>) {
      |b.data| + |frame| <= b.cap
    }

    method CorkWrite(op: nat, payload: seq<byte>) returns (result: Outcome)
      requires Valid() && !broken && corking
      modifies this`wbufList, this`corking, this`sent, this`broken, this`accepted, this`calls, this`short, this`armed
      ensures Valid() && accepted == old(accepted) + ServerFrame(op, payload) && (broken <==> result == SocketError)
      ensures Waits(result == Fine) && (result == Fine || result == NoEvent || result == SocketError)
      ensures old(wbufList) != [] && Holds(old(wbufList[0].value), ServerFrame(op, payload)) ==>
                corking && calls == old(calls)
      ensures calls == old(calls) ==> corking && |wbufList| == 1
    {
      hide Queued, ServerFrame;
      if |wbufList| == 0 {
        CorkStartLocked(|payload|);
      }
      var b := wbufList[0].value;
      var hdr := HeaderOf(op, payload);
      var frame := hdr + payload;
      assert wbufList == [Some(b)];
      QueuedOne(b);
      Assoc(sent, b.data, frame);
      if |b.data| + |frame| <= b.cap {
        wbufList := [Some(b.(data := b.data + frame))];
        QueuedOne(b.(data := b.data + frame));
        accepted := accepted + frame;
        return Fine;
      }
      var nb: nat :| true;
      var cap := GrowCork(b, |b.data| + |frame|, nb);
      if cap.Some? {
        wbufList := [Some(Buf(b.data + frame, cap.value))];
        QueuedOne(Buf(b.data + frame, cap.value));
        accepted := accepted + frame;
        return Fine;
      }
      result := CorkOverflow(b, hdr, payload);
    }

    /** The corked bytes and a frame that does not fit behind them go out in one call. What
        the socket does not take is queued in their place, and corking ends. */
    method CorkOverflow(b: Buf, hdr: seq<byte>, payload: seq<byte>) returns (result: Outcome)
      requires Valid() && !broken && corking && wbufList == [Some(b)]
      modifies this`wbufList, this`corking, this`sent, this`broken, this`accepted, this`calls, this`short, this`armed
      ensures Valid() && accepted == old(accepted) + (hdr + payload) && (broken <==> result == SocketError)
      ensures calls > old(calls)
      ensures Waits(result == Fine) && (result == Fine || result == NoEvent || result == SocketError)
    {
      hide Queued;
      QueuedOne(b);
      QueuedOne(b.(data := []));
      var seg := b.data;
      var all := seg + hdr + payload;
      var n, e := SocketWrite(all);
      Assoc(old(sent), seg, hdr + payload);
      Assoc(seg, hdr, payload);
      Halves(old(sent), all, n);
      accepted := accepted + (hdr + payload);
      if e == Ok && n == |all| {
        wbufList := [Some(b.(data := []))];
        return Fine;
      }
      if e == Hard {
        wbufList := [Some(b.(data := []))];
        return SocketError;
      }
      corking := false;
      wbufList := [Some(b.(data := []))];
      ThreeParts(seg, hdr, payload, n);
      if n < |seg| {
        AppendToWbufList(seg[n..], |all| - n);
        AppendToWbufList(hdr, |hdr| + |payload|);
        AppendToWbufList(payload, |payload|);
      } else if n < |seg| + |hdr| {
        AppendToWbufList(hdr[n - |seg|..], |hdr| + |payload| - n + |seg|);
        AppendToWbufList(payload, |payload|);
      } else {
        AppendToWbufList(payload[n - |seg| - |hdr|..], |all| - n);
      }
      var ok := AddWrite();
      return if ok then Fine else NoEvent;
    }

    /** corkEnd: what was corked goes out. */
    method CorkEnd() returns (result: Outcome)
      requires Valid() && !broken
      modifies this`wbufList, this`corking, this`sent, this`broken, this`closed, this`accepted, this`calls, this`short,
        this`armed
      ensures Valid() && !corking && accepted == old(accepted) && (broken <==> result == SocketError)
      ensures old(corking) && !broken && wbufList != [] ==> calls > old(calls) && short && armed
      ensures !old(corking) ==> unchanged(this)
    {
      hide Queued;
      assert accepted + [] == accepted;
      if !corking {
        return Fine;
      }
      corking := false;
      if |wbufList| == 0 {
        return Fine;
      }
      if |wbufList| == 1 && |wbufList[0].value.data| == 0 {
        assert wbufList == [wbufList[0]];
        QueuedOne(wbufList[0].value);
        NothingQueued();
        wbufList := [];
        return Fine;
      }
      result := Write([]);
    }

    /** The writable event. */
    method Flush() returns (result: Outcome)
      requires Valid() && !broken
      modifies this`wbufList, this`sent, this`broken, this`closed, this`accepted, this`calls, this`short, this`armed
      ensures Valid() && accepted == old(accepted) && (broken <==> result == SocketError)
      ensures !broken && wbufList != [] ==> calls > old(calls) && short && armed
    {
      assert accepted + [] == accepted;
      armed := false;
      result := Write([]);
    }

    /** Corking is invisible. For any messages, corked anywhere, and any kernel: until the
        socket fails, what it took followed by the backlog is what stood before followed by
        the frames of the messages, in order. And unless registering for it has failed, a
        backlog has its event to come. */
    method Drive(ops: seq<Op>) returns (ok: bool, registered: bool)
      requires Valid() && !broken && (!corking && wbufList != [] ==> armed)
      modifies this
      ensures Valid() && (ok <==> !broken)
      ensures ok && registered && !corking && wbufList != [] ==> armed
      ensures ok ==> sent + Queued(wbufList) == old(sent + Queued(wbufList)) + Frames(utf8, ops)
    {
      hide Queued, ServerFrame;
      ghost var before := accepted;
      assert ops[0..] == ops;
      registered := true;
      for i := 0 to |ops|
        invariant Valid() && !broken && (registered && !corking && wbufList != [] ==> armed)
        invariant accepted + Frames(utf8, ops[i..]) == before + Frames(utf8, ops)
      {
        FramesStep(utf8, ops, i);
        ghost var now := accepted;
        var result;
        match ops[i] {
          case Message(op, payload) =>
            result := WriteMessage(op, payload);
            Assoc(now, if op == TEXT && !utf8(payload) then []
                else ServerFrame(op, payload), Frames(utf8, ops[i + 1..]));
          case Cork(rem) =>
            MaybeCork(rem);
            result := Fine;
          case Uncork => result := CorkEnd();
          case Writable => result := Flush();
        }
        if result == SocketError {
          return false, registered;
        }
        registered := registered && result != NoEvent;
      }
      FramesStep(utf8, ops, |ops|);
      assert accepted + [] == accepted;
      return true, registered;
    }
  }

  /** What happens on a connection: messages, the marks of a batch of frames, events. */
  datatype Op = Message(op: nat, payload: seq<byte>) | Cork(rem: nat) | Uncork | Writable

  function Frames(utf8: seq<byte> -> bool, ops: seq<Op>): seq<byte> {
    if ops == [] then []
    else
      var x := ops[0];
      (if !x.Message? || (x.op == TEXT && !utf8(x.payload)) then [] else ServerFrame(x.op, x.payload))
          + Frames(utf8, ops[1..])
  }

  lemma FramesStep(utf8: seq<byte> -> bool, ops: seq<Op>, i: nat)
    requires i <= |ops|
    ensures Frames(utf8, ops[i..]) ==
              if i == |ops| then []
              else
                var x := ops[i];
                (if !x.Message? || (x.op == TEXT && !utf8(x.payload)) then [] else ServerFrame(x.op, x.payload))
                    + Frames(utf8, ops[i + 1..])
    ensures i < |ops| && !ops[i].Message? ==> Frames(utf8, ops[i..]) == Frames(utf8, ops[i + 1..])
  {
    if i < |ops| { assert ops[i..][1..] == ops[i + 1..]; }
  }

  lemma NothingQueued()
    ensures Queued([]) == []
  {
  }

  /** The three pieces of an overflow, cut after `n` bytes. */
  lemma ThreeParts(seg: seq<byte>, hdr: seq<byte>, payload: seq<byte>, n: nat)
    requires n <= |seg| + |hdr| + |payload|
    ensures var rest := (seg + hdr + payload)[n..];
            if n < |seg| then rest == [] + seg[n..] + hdr + payload
            else if n < |seg| + |hdr| then rest == [] + hdr[n - |seg|..] + payload
            else rest == [] + payload[n - |seg| - |hdr|..]
  {
  }

  /** While corking the one buffer there is has not been given back. */
  lemma FirstSlot(corking: bool, was: seq<Slot>, l: seq<Slot>, done: nat)
    requires done < |l| == |was| && (corking ==> |was| <= 1 && NoHoles(was)) && l[done].Some?
    ensures corking ==> |l| <= 1 && NoHoles(l)
  {
  }

  lemma CompactOwed(was: seq<Slot>, l: seq<Slot>)
    ensures |was| <= 1 && NoHoles(was) && |l| <= |was| ==> |l| <= 1
    ensures l[0..] == l && Queued([]) == [] && NoHoles([])
  {
  }
}
