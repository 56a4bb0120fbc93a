/** TLS records and handshake messages as byte streams (tls/record.go). */
module TlsRecord {
  import opened ByteBuffer
  import opened Bytes
  import opened Framing

  datatype Error = RecordTooLarge(length: nat) | HandshakeTooLarge(length: nat) | Callback(code: int)

  // ---- records (section 5.1 of RFC 8446) ------------------------------------------

  const RECORD_HEADER_LEN := 5
  const MAX_RECORD_PAYLOAD := 0x4000
  const MAX_CIPHERTEXT_LEN := MAX_RECORD_PAYLOAD + 256

  datatype Record = Record(rtype: byte, version: nat, payload: seq<byte>)

  function CutRecord(p: (), b: seq<byte>): Cut<(), Record, Error> {
    if |b| < RECORD_HEADER_LEN then More
    else
      var length := FromBE(b[3..5]);
      if length > MAX_CIPHERTEXT_LEN then Fail(RecordTooLarge(length))
      else if |b| - RECORD_HEADER_LEN < length then More
      else Item(Record(b[0], FromBE(b[1..3]), b[5..5 + length]), 5 + length, p)
  }

  lemma CutRecordLawful()
    ensures Lawful(CutRecord)
  {
    hide FromBE;
    forall p: (), a: seq<byte>, b: seq<byte> {:trigger CutRecord(p, a + b)} | !CutRecord(p, a).More?
      ensures CutRecord(p, a + b) == CutRecord(p, a)
    {
      assert (a + b)[3..5] == a[3..5] && (a + b)[1..3] == a[1..3];
      var length := FromBE(a[3..5]);
      if 5 + length <= |a| { assert (a + b)[5..5 + length] == a[5..5 + length]; }
    }
  }

  /** Version and length are cut to 16 bits, as the byte conversions do. */
  function AppendRecord(dst: seq<byte>, rtype: byte, version: nat, payload: seq<byte>): seq<byte> {
    dst + [rtype] + ToBE(version, 2) + ToBE(|payload|, 2) + payload
  }

  function RecordBytes(r: Record): seq<byte> {
    AppendRecord([], r.rtype, r.version, r.payload)
  }

  predicate RecordOk(p: (), r: Record) {
    r.version < 0x1_0000 && |r.payload| <= MAX_CIPHERTEXT_LEN
  }

  function SameR(p: (), r: Record): () { p }

  lemma CutUndoesRecord()
    ensures Undoes(CutRecord, RecordBytes, RecordOk, SameR)
  {
    hide FromBE, ToBE;
    forall p: (), r: Record, tail: seq<byte> {:trigger CutRecord(p, RecordBytes(r) + tail)} | RecordOk(p, r)
      ensures CutRecord(p, RecordBytes(r) + tail) == Item(r, |RecordBytes(r)|, SameR(p, r))
    {
      var b := RecordBytes(r) + tail;
      assert b == [r.rtype] + ToBE(r.version, 2) + ToBE(|r.payload|, 2) + (r.payload + tail);
      assert b[1..3] == ToBE(r.version, 2) && b[3..5] == ToBE(|r.payload|, 2);
      Powers();
      FromTo(r.version, 2);
      FromTo(|r.payload|, 2);
      assert b[5..5 + |r.payload|] == r.payload;
    }
  }

  /** RecordParser.Parse: it keeps nothing, bytes that make no record stay with the caller. */
  method ParseRecords<H>(work: seq<byte>, fn: (H, Record) -> (H, Option<Error>), h0: H)
    returns (consumed: nat, h: H, err: Option<Error>)
    ensures Lawful(CutRecord) && Outcome((), h, consumed, err) == Run(CutRecord, fn, (), h0, work)
  {
    CutRecordLawful();
    hide *;
    h, err, consumed := h0, None, 0;
    var p := ();
    assert work[0..] == work;
    while true
      invariant consumed <= |work| && err.None?
      invariant var r := Run(CutRecord, fn, p, h, work[consumed..]);
                Run(CutRecord, fn, (), h0, work) == r.(consumed := consumed + r.consumed)
      decreases |work| - consumed
    {
      Turn(CutRecord, fn, p, h, work, consumed);
      match CutRecord(p, work[consumed..])
      case More => break;
      case Fail(e) =>
        err := Some(e);
        break;
      case Item(r, size, p') =>
        var (h', e) := fn(h, r);
        h := h';
        if e.Some? {
          err := e;
          break;
        }
        consumed, p := consumed + size, p';
    }
    assert p == ();
  }

  /** The caller keeps the rest in its own read buffer and feeds it again in front of the
      next bytes: however the bytes arrive, the same records come out. */
  lemma RecordChunking<H>(fn: (H, Record) -> (H, Option<Error>), h: H, chunks: seq<seq<byte>>)
    ensures Lawful(CutRecord)
    ensures var r := Run(CutRecord, fn, (), h, Concat(chunks));
            Feed(CutRecord, fn, (), h, [], chunks) == Fed(r.p, r.h, Concat(chunks)[r.consumed..], r.error)
  {
    CutRecordLawful();
    assert CutRecord((), []).More?;
    hide *;
    ChunkingDoesNotMatter(CutRecord, fn, (), h, [], chunks);
    assert [] + Concat(chunks) == Concat(chunks);
  }

  lemma RecordsRoundTrip<H>(fn: (H, Record) -> (H, Option<Error>), h: H, records: seq<Record>)
    requires (forall r :: r in records ==> RecordOk((), r)) && Fold(fn, h, records).1.None?
    ensures Lawful(CutRecord)
    ensures var r := Run(CutRecord, fn, (), h, PrintAll(RecordBytes, records));
            r.h == Fold(fn, h, records).0 && r.consumed == |PrintAll(RecordBytes, records)| && r.error.None?
  {
    CutRecordLawful();
    CutUndoesRecord();
    AllRecordsOk(records);
    hide *;
    ParserUndoesPrinter(CutRecord, fn, RecordBytes, RecordOk, SameR, (), h, records);
  }

  lemma AllRecordsOk(records: seq<Record>)
    requires forall r :: r in records ==> RecordOk((), r)
    ensures AllOk(RecordOk, SameR, (), records)
  {
    if records != [] { AllRecordsOk(records[1..]); }
  }

  // ---- handshake messages (section 4 of RFC 8446) -----------------------------------

  const HANDSHAKE_HEADER_LEN := 4
  const MAX_HANDSHAKE := 0x10_0000

  datatype Handshake = Handshake(typ: byte, payload: seq<byte>)

  function CutHandshake(p: (), b: seq<byte>): Cut<(), Handshake, Error> {
    if |b| < HANDSHAKE_HEADER_LEN then More
    else
      var length := FromBE(b[1..4]);
      if length > MAX_HANDSHAKE then Fail(HandshakeTooLarge(length))
      else if |b| - HANDSHAKE_HEADER_LEN < length then More
      else Item(Handshake(b[0], b[4..4 + length]), 4 + length, p)
  }

  lemma CutHandshakeLawful()
    ensures Lawful(CutHandshake)
  {
    hide FromBE;
    forall p: (), a: seq<byte>, b: seq<byte> {:trigger CutHandshake(p, a + b)} | !CutHandshake(p, a).More?
      ensures CutHandshake(p, a + b) == CutHandshake(p, a)
    {
      assert (a + b)[1..4] == a[1..4];
      var length := FromBE(a[1..4]);
      if 4 + length <= |a| { assert (a + b)[4..4 + length] == a[4..4 + length]; }
    }
  }

  function AppendHandshake(dst: seq<byte>, typ: byte, payload: seq<byte>): seq<byte> {
    dst + [typ] + ToBE(|payload|, 3) + payload
  }

  function HandshakeBytes(m: Handshake): seq<byte> {
    AppendHandshake([], m.typ, m.payload)
  }

  predicate HandshakeOk(p: (), m: Handshake) {
    |m.payload| <= MAX_HANDSHAKE
  }

  function SameH(p: (), m: Handshake): () { p }

  lemma CutUndoesHandshake()
    ensures Undoes(CutHandshake, HandshakeBytes, HandshakeOk, SameH)
  {
    hide FromBE, ToBE;
    forall p: (), m: Handshake, tail: seq<byte> {:trigger CutHandshake(p, HandshakeBytes(m) + tail)} | HandshakeOk(p, m)
      ensures CutHandshake(p, HandshakeBytes(m) + tail) == Item(m, |HandshakeBytes(m)|, SameH(p, m))
    {
      var b := HandshakeBytes(m) + tail;
      assert b == [m.typ] + ToBE(|m.payload|, 3) + (m.payload + tail);
      assert b[1..4] == ToBE(|m.payload|, 3);
      FromTo(|m.payload|, 3) by { Powers(); }
      assert b[4..4 + |m.payload|] == m.payload;
    }
  }

  function Least(a: nat, b: nat): (r: nat)
    ensures r <= a && r <= b && (r == a || r == b)
  {
    if a < b then a else b
  }

  /** A handshake message may span records, so this parser keeps what is not a message yet. */
  class HandshakeParser {
    const buf: Buffer

    constructor ()
      ensures buf.Valid() && buf.Contents() == [] && fresh(buf) && fresh(buf.room)
    {
      buf := new Buffer();
    }

    /** The loop over the bytes at hand. */
    static method ParseWork<H>(work: seq<byte>, fn: (H, Handshake) -> (H, Option<Error>), h0: H)
        returns (consumed: nat, h: H, err: Option<Error>)
      ensures Lawful(CutHandshake)
      ensures var r := Run(CutHandshake, fn, (), h0, work);
                h == r.h && err == r.error && consumed == r.consumed <= |work|
    {
      CutHandshakeLawful();
      hide *;
      h, err, consumed := h0, None, 0;
      var p := ();
      assert work[0..] == work;
      while true
        invariant consumed <= |work| && err.None?
        invariant var r := Run(CutHandshake, fn, p, h, work[consumed..]);
                  Run(CutHandshake, fn, (), h0, work) == r.(consumed := consumed + r.consumed)
        decreases |work| - consumed
      {
        Turn(CutHandshake, fn, p, h, work, consumed);
        match CutHandshake(p, work[consumed..])
        case More => break;
        case Fail(e) =>
          err := Some(e);
          break;
        case Item(i, size, p') =>
          var (h', e) := fn(h, i);
          h := h';
          if e.Some? {
            err := e;
            break;
          }
          consumed, p := consumed + size, p';
      }
    }

    /** `n` counts only bytes of this call's `data`, never those kept from earlier calls,
        even though what is not a message yet is kept and must not be fed again. */
    method Parse<H>(data: seq<byte>, fn: (H, Handshake) -> (H, Option<Error>), h0: H)
      returns (n: nat, h: H, err: Option<Error>)
      requires buf.Valid()
      modifies buf, buf.room
      ensures buf.Valid() && (buf.room == old(buf.room) || fresh(buf.room))
      ensures Lawful(CutHandshake)
      ensures var r := Run(CutHandshake, fn, (), h0, old(buf.Contents()) + data);
              && h == r.h && err == r.error && buf.Contents() == (old(buf.Contents()) + data)[r.consumed..]
              && n == (if r.consumed < |old(buf.Contents())| then 0 else r.consumed - |old(buf.Contents())|)
    {
      hide Lawful, CutHandshake, Run;
      var oldLen := buf.len;
      var work := buf.Take(data);
      var consumed;
      consumed, h, err := ParseWork(work, fn, h0);
      buf.Leave(work, consumed);
      n := if consumed < oldLen then 0 else consumed - oldLen;
      n := Least(n, |data|);
    }
  }

  /** However records cut the handshake stream, the same messages come out. */
  lemma HandshakeChunking<H>(fn: (H, Handshake) -> (H, Option<Error>), h: H, chunks: seq<seq<byte>>)
    ensures Lawful(CutHandshake)
    ensures var r := Run(CutHandshake, fn, (), h, Concat(chunks));
            Feed(CutHandshake, fn, (), h, [], chunks) == Fed(r.p, r.h, Concat(chunks)[r.consumed..], r.error)
  {
    CutHandshakeLawful();
    assert CutHandshake((), []).More?;
    hide *;
    ChunkingDoesNotMatter(CutHandshake, fn, (), h, [], chunks);
    assert [] + Concat(chunks) == Concat(chunks);
  }

  lemma HandshakesRoundTrip<H>(fn: (H, Handshake) -> (H, Option<Error>), h: H, ms: seq<Handshake>)
    requires (forall m :: m in ms ==> HandshakeOk((), m)) && Fold(fn, h, ms).1.None?
    ensures Lawful(CutHandshake)
    ensures var r := Run(CutHandshake, fn, (), h, PrintAll(HandshakeBytes, ms));
            r.h == Fold(fn, h, ms).0 && r.consumed == |PrintAll(HandshakeBytes, ms)| && r.error.None?
  {
    CutHandshakeLawful();
    CutUndoesHandshake();
    AllHandshakesOk(ms);
    hide *;
    ParserUndoesPrinter(CutHandshake, fn, HandshakeBytes, HandshakeOk, SameH, (), h, ms);
  }

  lemma AllHandshakesOk(ms: seq<Handshake>)
    requires forall m :: m in ms ==> HandshakeOk((), m)
    ensures AllOk(HandshakeOk, SameH, (), ms)
  {
    if ms != [] { AllHandshakesOk(ms[1..]); }
  }
}
