/** The buffer in which a parser keeps the bytes that make no item yet (http3/frame.go,
    grpc/message.go, tls/record.go): a slice with spare room, written in place. */
module ByteBuffer {
  import opened Bytes

  class Buffer {
    var room: array<byte>
    var len: nat

    ghost predicate Valid()
      reads this
    {
      len <= room.Length
    }

    ghost function Contents(): seq<byte>
      requires Valid()
      reads this, room
    {
      room[..len]
    }

    constructor ()
      ensures Valid() && Contents() == [] && fresh(room)
    {
      room, len := new byte[0], 0;
    }

    /** The bytes as a value. */
    method Get() returns (s: seq<byte>)
      requires Valid()
      ensures s == Contents()
    {
      s := room[..len];
    }

    /** append: in the spare room when it is large enough, else in new memory of any larger size. */
    method Append(more: seq<byte>)
      requires Valid()
      modifies this, room
      ensures Valid() && (room == old(room) || fresh(room))
      ensures Contents() == old(Contents()) + more
    {
      ghost var was := Contents();
      if room.Length - len < |more| {
        var extra: nat :| true;
        var larger := new byte[len + |more| + extra];
        forall i | 0 <= i < len {
          larger[i] := room[i];
        }
        assert larger[..len] == was;
        room := larger;
      }
      var n, at := |more|, len;
      forall i | 0 <= i < n {
        room[at + i] := more[i];
      }
      assert room[..at] == was && room[at..at + n] == more;
      len := at + n;
      assert room[..len] == room[..at] + room[at..at + n];
    }

    /** append(buf[:0], buf[from:]...): the bytes move down over those in front of them, one after
        the other, so that none is overwritten before it is moved. */
    method KeepFrom(from: nat)
      requires Valid() && from <= len
      modifies this`len, room
      ensures Valid() && Contents() == old(Contents())[from..]
    {
      ghost var was := room[..];
      var buf, size, n := room, len, len - from;
      for i := 0 to n
        invariant room == buf && len == size
        invariant forall k :: 0 <= k < i ==> buf[k] == was[from + k]
        invariant forall k :: i <= k < buf.Length ==> buf[k] == was[k]
      {
        buf[i] := buf[from + i];
      }
      assert buf[..n] == was[from..size];
      assert was[..size][from..] == was[from..size];
      len := n;
    }

    /** append(buf[:0], bytes...), for bytes that lie elsewhere. */
    method Replace(bytes: seq<byte>)
      requires Valid()
      modifies this, room
      ensures Valid() && (room == old(room) || fresh(room))
      ensures Contents() == bytes
    {
      len := 0;
      Append(bytes);
      assert room[..0] + bytes == bytes;
    }

    /** What a parser does around its loop: behind kept bytes, new ones are parsed in the buffer. */
    method Take(data: seq<byte>) returns (work: seq<byte>)
      requires Valid()
      modifies this, room
      ensures Valid() && (room == old(room) || fresh(room))
      ensures work == old(Contents()) + data
      ensures Contents() == if old(len) > 0 then work else []
    {
      if len > 0 {
        Append(data);
        work := Get();
      } else {
        work := data;
        assert Contents() == [] && Contents() + data == data;
      }
    }

    /** Behind the loop: what was not consumed stays, wherever it lies. */
    method Leave(work: seq<byte>, consumed: nat)
      requires Valid() && consumed <= |work| && Contents() == (if len > 0 then work else [])
      modifies this, room
      ensures Valid() && (room == old(room) || fresh(room))
      ensures Contents() == work[consumed..]
    {
      if consumed == |work| {
        len := 0;
      } else if len > 0 {
        KeepFrom(consumed);
      } else {
        Replace(work[consumed..]);
      }
    }
  }
}
