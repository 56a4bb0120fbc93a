/** What the kernel may answer when a socket is read, and buffers from the pool. */
module Socket {
  import opened Bytes

  /** What successive reads of the socket will find; data may be taken in several reads. */
  datatype Kernel = Data(bytes: seq<byte>) | Interrupted | WouldBlock | Eof | Failed

  type KRead = k: Kernel | k.Data? ==> k.bytes != [] witness Interrupted

  function Received(script: seq<KRead>): seq<byte> {
    if script == [] then [] else (if script[0].Data? then script[0].bytes else []) + Received(script[1..])
  }

  function Size(script: seq<KRead>): nat {
    if script == [] then 0 else (if script[0].Data? then |script[0].bytes| else 0) + 1 + Size(script[1..])
  }

  /** The bytes that are there before a read would block, end or fail. */
  function Ready(script: seq<KRead>): seq<byte> {
    if script == [] then []
    else match script[0]
         case Data(bytes) => bytes + Ready(script[1..])
         case Interrupted => Ready(script[1..])
         case _ => []
  }

  /** The script when `n` bytes of its first element have been read. */
  function Taken(script: seq<KRead>, n: nat): seq<KRead>
    requires script != [] && script[0].Data? && n <= |script[0].bytes|
  {
    if n < |script[0].bytes| then [Data(script[0].bytes[n..])] + script[1..] else script[1..]
  }

  lemma TakenBytes(script: seq<KRead>, n: nat)
    requires script != [] && script[0].Data? && 0 < n <= |script[0].bytes|
    ensures Received(script) == script[0].bytes[..n] + Received(Taken(script, n))
              && Size(Taken(script, n)) < Size(script)
    ensures Ready(script) == script[0].bytes[..n] + Ready(Taken(script, n))
  {
    var bs := script[0].bytes;
    assert bs == bs[..n] + bs[n..];
    if n < |bs| {
      assert Taken(script, n)[1..] == script[1..];
      Assoc(bs[..n], bs[n..], Received(script[1..]));
      Assoc(bs[..n], bs[n..], Ready(script[1..]));
    } else {
      assert bs[..n] == bs;
    }
  }

  method GetBytes(n: nat) returns (a: array<byte>)
    ensures fresh(a) && a.Length >= n
  {
    var extra: nat :| true;
    a := new byte[n + extra];
  }
}
