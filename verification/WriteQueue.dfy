/** Lists of buffers with bytes that the socket has not taken yet, as both the WebSocket
    connection and the engine connection keep them. */
module WriteQueue {
  import opened Bytes

  /** A buffer from the pool: its bytes, and how many it has room for. */
  datatype Buf = Buf(data: seq<byte>, cap: nat)

  /** A slot of the list; `None` is one whose buffer went back to the pool. */
  type Slot = Option<Buf>

  function Queued(l: seq<Slot>): seq<byte> {
    if l == [] then [] else (if l[0].Some? then l[0].value.data else []) + Queued(l[1..])
  }

  predicate NoHoles(l: seq<Slot>) {
    forall k :: 0 <= k < |l| ==> l[k].Some?
  }

  lemma {:induction false} QueuedConcat(a: seq<Slot>, b: seq<Slot>)
    ensures Queued(a + b) == Queued(a) + Queued(b)
  {
    if a == [] {
      assert a + b == b;
    } else {
      QueuedConcat(a[1..], b);
      assert (a + b)[0] == a[0] && (a + b)[1..] == a[1..] + b;
      Assoc(if a[0].Some? then a[0].value.data else [], Queued(a[1..]), Queued(b));
    }
  }

  lemma QueuedOne(b: Buf)
    ensures Queued([Some(b)]) == b.data
  {
    assert [Some(b)][1..] == [];
  }

  /** Adding to the last buffer adds to the end. */
  lemma QueuedLast(l: seq<Slot>, more: seq<byte>, cap: nat)
    requires l != [] && l[|l| - 1].Some?
    ensures var b := l[|l| - 1].value;
            Queued(l[|l| - 1 := Some(Buf(b.data + more, cap))]) == Queued(l) + more
  {
    var init, b := l[..|l| - 1], l[|l| - 1].value;
    assert l == init + [Some(b)];
    assert l[|l| - 1 := Some(Buf(b.data + more, cap))] == init + [Some(Buf(b.data + more, cap))];
    QueuedConcat(init, [Some(b)]);
    QueuedConcat(init, [Some(Buf(b.data + more, cap))]);
    QueuedOne(b);
    QueuedOne(Buf(b.data + more, cap));
    Assoc(Queued(init), b.data, more);
  }

  method RoomFor(n: nat) returns (cap: nat)
    ensures cap >= n
  {
    var extra: nat :| true;
    cap := n + extra;
  }

  /** The outcome of a system call: bytes taken, or to be tried again, or the end. */
  datatype Errno = Ok | Again | Hard

  /** What a kernel is going to answer to a write: some bytes taken, or one of the others. */
  datatype Answer = Takes(n: nat) | TryAgain | Fails

  /** With the first `done` slots written, what was sent and the other slots make up what was
      accepted. */
  ghost predicate Owed(l: seq<Slot>, done: nat, sent: seq<byte>, accepted: seq<byte>) {
    done <= |l| && NoHoles(l[done..]) && sent + Queued(l[done..]) == accepted
  }

  /** What a write of the next slot leads to, when it is taken whole and when it is not. */
  lemma SlotWritten(l: seq<Slot>, done: nat, sent: seq<byte>, accepted: seq<byte>)
    requires Owed(l, done, sent, accepted) && done < |l|
    ensures l[done].Some?
    ensures Owed(l[done := None], done + 1, sent + l[done].value.data, accepted)
    ensures forall n: nat :: n <= |l[done].value.data| ==>
              Owed(l[done := Some(l[done].value.(data := l[done].value.data[n..]))], done,
                  sent + l[done].value.data[..n], accepted)
  {
    assert l[done..][0] == l[done] && l[done..][1..] == l[done + 1..];
    var data := l[done].value.data;
    assert l[done := None][done + 1..] == l[done + 1..];
    var tail := l[done + 1..];
    forall k | 0 <= k < |tail| ensures tail[k].Some? { assert tail[k] == l[done..][k + 1]; }
    Assoc(sent, data, Queued(l[done + 1..]));
    forall n: nat | n <= |data|
        ensures Owed(l[done := Some(l[done].value.(data := data[n..]))], done, sent + data[..n], accepted) {
      PartWritten(l, done, sent, accepted, n);
    }
  }

  lemma PartWritten(l: seq<Slot>, done: nat, sent: seq<byte>, accepted: seq<byte>, n: nat)
    requires Owed(l, done, sent, accepted) && done < |l| && l[done].Some? && n <= |l[done].value.data|
    ensures Owed(l[done := Some(l[done].value.(data := l[done].value.data[n..]))], done,
              sent + l[done].value.data[..n], accepted)
  {
    var data := l[done].value.data;
    var l' := l[done := Some(l[done].value.(data := data[n..]))];
    assert l[done..][0] == l[done] && l[done..][1..] == l[done + 1..];
    assert l'[done..][0] == l'[done] && l'[done..][1..] == l[done + 1..];
    assert data == data[..n] + data[n..];
    Assoc(data[..n], data[n..], Queued(l[done + 1..]));
    Assoc(sent, data[..n], data[n..] + Queued(l[done + 1..]));
    var tail := l'[done..];
    forall k | 0 <= k < |tail| ensures tail[k].Some? { assert k > 0 ==> tail[k] == l[done..][k]; }
  }

  lemma Halves(sent: seq<byte>, data: seq<byte>, n: nat)
    requires n <= |data|
    ensures sent + data[..n] + data[n..] == sent + data && Queued([]) == [] && [] + data[n..] == data[n..]
              && sent + [] == sent
    ensures n == |data| ==> data[..n] == data
  {
    assert data[..n] + data[n..] == data;
    Assoc(sent, data[..n], data[n..]);
  }

  lemma NothingOwed(l: seq<Slot>, sent: seq<byte>, accepted: seq<byte>)
    requires Owed(l, |l|, sent, accepted) || (l == [] && sent + Queued(l) == accepted)
    ensures sent == accepted && Queued([]) == [] && sent + [] == accepted
  {
    assert l[|l|..] == [];
  }
}
