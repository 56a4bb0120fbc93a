/** The TLS state machine as the object it is: fed with bytes, asked for output and plaintext
    (tls/state.go). */
module TlsConn {
  import opened Bytes
  import opened Framing
  import opened TlsRecord
  import opened TlsCrypto
  import opened TlsHello
  import opened TlsMachine
  import opened TlsHandshake
  import opened TlsTransport

  class StateMachine {
    const env: Env
    /** The fields of the machine; `err` is what ended it. */
    var m: Machine
    var err: Option<Error>
    /** What TakeOutput and ReadPlaintext have handed out so far. */
    ghost var sent: seq<byte>
    ghost var taken: seq<byte>

    /** All bytes the machine has put out for its peer, handed out already or not. */
    ghost function Output(): seq<byte>
      reads this
    {
      sent + Wire(m.out)
    }

    /** All plaintext it has received. */
    ghost function Input(): seq<byte>
      reads this
    {
      taken + m.plaintext
    }

    constructor (env: Env, isClient: bool)
      ensures m == NewMachine(isClient) && err.None? && this.env == env
      ensures Output() == [] && Input() == []
    {
      this.env := env;
      m := NewMachine(isClient);
      err := None;
      sent, taken := [], [];
    }

    /** Start: a new client puts out the hello with which every handshake begins; a server
        refuses. */
    method Begin() returns (ok: bool)
      modifies this`m
      ensures ok == old(m).isClient && m == if ok then Start(env, old(m)) else old(m)
      ensures old(m) == NewMachine(true) ==> m.out == HelloFlight(env) && m.(out := []) == Started(env)
      ensures old(Output()) <= Output() && Input() == old(Input())
    {
      hide ClientHelloMessage;
      WireGrows(m.out, Start(env, m).out);
      if !m.isClient {
        return false;
      }
      m := Start(env, m);
      return true;
    }

    /** Handshake bytes of one record; what makes no message yet is kept for the next. */
    method FeedHandshake(bytes: seq<byte>) returns (e: Option<Error>)
      modifies this`m
      ensures (m, e) == OnHandshakeBytes(env, old(m), bytes)
    {
      CutHandshakeLawful();
      hide Lawful, Run, CutHandshake, OnHandshake;
      var work := m.hsBuf + bytes;
      var h, consumed, p := m, 0, ();
      e := None;
      assert work[0..] == work;
      while true
        invariant consumed <= |work| && e.None? && m == old(m)
        invariant var r := Run(CutHandshake, OnMessage(env), p, h, work[consumed..]);
                  Run(CutHandshake, OnMessage(env), (), m, work) == r.(consumed := consumed + r.consumed)
        decreases |work| - consumed
      {
        Turn(CutHandshake, OnMessage(env), p, h, work, consumed);
        match CutHandshake(p, work[consumed..])
        case More => break;
        case Fail(x) =>
          e := Some(x);
          break;
        case Item(msg, size, p') =>
          var (h', x) := OnHandshake(env, h, msg);
          h := h';
          if x.Some? {
            e := x;
            break;
          }
          consumed, p := consumed + size, p';
      }
      m := h.(hsBuf := work[consumed..]);
    }

    method FeedRecord(r: Record) returns (e: Option<Error>)
      modifies this`m
      ensures (m, e) == OnRecord(env, old(m), r)
    {
      hide OnHandshakeBytes, Nonce, AdditionalData, OnAlert;
      if r.rtype == HANDSHAKE {
        e := FeedHandshake(r.payload);
      } else if r.rtype == APPLICATION_DATA {
        var p := At(m, m.read);
        if p.None? {
          return Some(Callback(14));
        }
        match Open(env.c, p.value, r.payload)
        case Unopened => return Some(Callback(15));
        case Hollow(p') =>
          m := m.(objs := m.objs[m.read.value := p']);
          return Some(Callback(15));
        case Opened(p', content, innerType) =>
          m := m.(objs := m.objs[m.read.value := p']);
          if innerType == HANDSHAKE {
            e := FeedHandshake(content);
          } else if innerType == APPLICATION_DATA {
            m := m.(plaintext := m.plaintext + content);
            e := None;
          } else if innerType == ALERT {
            var (m', x) := OnAlert(m, content);
            m, e := m', x;
          } else {
            e := None;
          }
      } else if r.rtype == ALERT {
        var (m', x) := OnAlert(m, r.payload);
        m, e := m', x;
      } else {
        e := None;
      }
    }

    /** The loop over the records at hand. */
    method FeedRecords(data: seq<byte>) returns (n: nat, e: Option<Error>)
      modifies this`m, this`err
      ensures Lawful(CutRecord)
      ensures old(err).Some? ==> n == 0 && e == old(err) && m == old(m) && err == old(err)
      ensures old(err).None? ==>
                Outcome((), m, n, e) == Run(CutRecord, Records(env), (), old(m), data) && err == e
    {
      CutRecordLawful();
      hide Lawful, Run, CutRecord, OnRecord;
      if err.Some? {
        return 0, err;
      }
      n, e := 0, None;
      var p := ();
      assert data[0..] == data;
      while true
        invariant n <= |data| && e.None? && err.None?
        invariant var r := Run(CutRecord, Records(env), p, m, data[n..]);
                  Run(CutRecord, Records(env), (), old(m), data) == r.(consumed := n + r.consumed)
        decreases |data| - n
      {
        Turn(CutRecord, Records(env), p, m, data, n);
        match CutRecord(p, data[n..])
        case More => break;
        case Fail(x) =>
          e := Some(x);
          break;
        case Item(r, size, p') =>
          e := FeedRecord(r);
          if e.Some? {
            break;
          }
          n, p := n + size, p';
      }
      err := e;
      assert p == ();
    }

    /** Feed: as many whole records as there are; the caller keeps the rest. What has been put out
        or received before stays. */
    method Feed(data: seq<byte>) returns (n: nat, e: Option<Error>)
      modifies this`m, this`err
      ensures Lawful(CutRecord)
      ensures old(err).Some? ==> n == 0 && e == old(err) && m == old(m) && err == old(err)
      ensures old(err).None? ==>
                Outcome((), m, n, e) == Run(CutRecord, Records(env), (), old(m), data) && err == e
      ensures old(Output()) <= Output() && old(Input()) <= Input()
    {
      CutRecordLawful();
      RunGrows(env, m, (), data);
      WireGrows(m.out, Run(CutRecord, Records(env), (), m, data).h.out);
      hide Lawful, Run, CutRecord, Wire;
      n, e := FeedRecords(data);
    }

    /** Write: plaintext in records of at most 2^14 bytes. */
    method Write(data: seq<byte>) returns (out: seq<byte>, ok: bool)
      modifies this`m
      ensures if old(m).phase != Established || At(old(m), old(m).write).None? then out == [] && !ok && m == old(m)
              else var r := WriteApp(env, old(m), data); m == r.0 && ok == r.2 && out == PrintAll(RecordBytes, r.1)
    {
      hide RecordBytes, Sealing, PrintAll, WriteApp;
      if m.phase != Established || At(m, m.write).None? {
        return [], false;
      }
      var plain := data;
      out := [];
      ghost var whole := WriteApp(env, m, data);
      assert [] + PrintAll(RecordBytes, whole.1) == PrintAll(RecordBytes, whole.1);
      while |plain| > 0
        invariant WriteApp(env, m, plain).0 == whole.0 && WriteApp(env, m, plain).2 == whole.2
        invariant out + PrintAll(RecordBytes, WriteApp(env, m, plain).1) == PrintAll(RecordBytes, whole.1)
        decreases |plain|
      {
        WriteTurn(env, m, plain, out);
        var n := |plain|;
        if n > MAX_RECORD_PAYLOAD {
          n := MAX_RECORD_PAYLOAD;
        }
        var s := Sealing(env, m, m.write, APPLICATION_DATA, plain[..n]);
        if s.None? {
          return out, false;
        }
        m := s.value.0;
        out := out + RecordBytes(s.value.1);
        plain := plain[n..];
      }
      assert plain == [];
      WriteEnd(env, m, out);
      return out, true;
    }

    /** TakeOutput hands out, once and in order, all that was put out since the last call. */
    method TakeOutput() returns (out: seq<byte>)
      modifies this`m, this`sent
      ensures out == Wire(old(m).out) && m == old(m).(out := [])
      ensures sent == old(sent) + out && Output() == old(Output()) && sent == Output() && Input() == old(Input())
    {
      out := Wire(m.out);
      m := m.(out := []);
      sent := sent + out;
      assert sent + Wire([]) == sent;
    }

    /** ReadPlaintext hands out, once and in order, all plaintext received since the last call. */
    method ReadPlaintext() returns (plain: seq<byte>)
      modifies this`m, this`taken
      ensures plain == old(m).plaintext && m == old(m).(plaintext := [])
      ensures taken == old(taken) + plain && Input() == old(Input()) && taken == Input() && Output() == old(Output())
    {
      plain := m.plaintext;
      m := m.(plaintext := []);
      taken := taken + plain;
      assert taken + [] == taken;
    }
  }

  lemma WriteTurn(env: Env, m: Machine, plain: seq<byte>, out: seq<byte>)
    requires plain != []
    ensures var n := if |plain| > MAX_RECORD_PAYLOAD then MAX_RECORD_PAYLOAD else |plain|;
            var s := Sealing(env, m, m.write, APPLICATION_DATA, plain[..n]);
            var r := WriteApp(env, m, plain);
            if s.None? then r == (m, [], false) && out + PrintAll(RecordBytes, []) == out
            else
              var more := WriteApp(env, s.value.0, plain[n..]);
              && r.0 == more.0 && r.2 == more.2
              && out + PrintAll(RecordBytes, r.1) == out + RecordBytes(s.value.1) + PrintAll(RecordBytes, more.1)
  {
    hide RecordBytes, Sealing;
    var n := if |plain| > MAX_RECORD_PAYLOAD then MAX_RECORD_PAYLOAD else |plain|;
    var s := Sealing(env, m, m.write, APPLICATION_DATA, plain[..n]);
    assert out + [] == out;
    if s.Some? {
      var more := WriteApp(env, s.value.0, plain[n..]).1;
      assert ([s.value.1] + more)[1..] == more;
      Assoc(out, RecordBytes(s.value.1), PrintAll(RecordBytes, more));
    }
  }

  lemma WriteEnd(env: Env, m: Machine, out: seq<byte>)
    ensures WriteApp(env, m, []) == (m, [], true) && out + PrintAll(RecordBytes, []) == out
  {
    assert out + [] == out;
  }

  // ---- nothing put out or received is taken back -----------------------------------------------------

  predicate Grows(m: Machine, m': Machine) {
    m.out <= m'.out && m.plaintext <= m'.plaintext
  }

  lemma {:induction false} WireGrows(a: seq<Record>, b: seq<Record>)
    requires a <= b
    ensures Wire(a) <= Wire(b)
  {
    hide RecordBytes;
    if a != [] { WireGrows(a[1..], b[1..]); }
  }

  lemma SayGrows(env: Env, m: Machine, msg: seq<byte>)
    ensures Grows(m, Say(env, m, msg))
  {
    hide Seal;
  }

  lemma FlightGrows(env: Env, m: Machine)
    ensures Grows(m, Flight(env, m).0)
  {
    hide Say, FinishedMessage, ExtensionsMessage, ToSign, DeriveSecret, MasterSecret, WriteLabel, HandshakeBytes;
    var m1 := Say(env, m, ExtensionsMessage(m));
    SayGrows(env, m, ExtensionsMessage(m));
    if env.config.certificate.Some? {
      var cert := HandshakeBytes(Handshake(CERTIFICATE, env.config.certificate.value));
      SayGrows(env, m1, cert);
      var m2 := Say(env, m1, cert);
      var signed := env.config.sign(ToSign(env, m2));
      if signed.Some? {
        var cv := HandshakeBytes(Handshake(CERTIFICATE_VERIFY, signed.value));
        SayGrows(env, m2, cv);
        var m3 := Say(env, m2, cv);
        SayGrows(env, m3, FinishedMessage(env, m3));
      }
    }
  }

  lemma HelloGrows(env: Env, m: Machine, payload: seq<byte>)
    ensures Grows(m, OnClientHello(env, m, payload).0) && Grows(m, OnServerHello(env, m, payload).0)
  {
    hide Flight, DeriveSecret, HandshakeSecret, NewProtector, ParseClientHello, ClientKeyShare, ServerHelloMessage,
        ParseServerHello, ServerKeyShare, Negotiate;
    hide HandshakeBytes;
    FlightGrows(env, AnswerHello(env, m, payload).0);
  }

  lemma FinishedGrows(env: Env, m: Machine, payload: seq<byte>)
    ensures Grows(m, OnFinished(env, m, payload).0)
  {
    hide Say, FinishedMessage, DeriveSecret, MasterSecret, WriteLabel, NewProtector, FinishedData, HandshakeBytes;
    var m2 := CacheApp(env, Hear(m, FINISHED, payload));
    if m2.Some? {
      var m3 := m2.value.(out := m2.value.out + [CCS]);
      SayGrows(env, m3, FinishedMessage(env, m3));
    }
  }

  lemma HandshakeGrows(env: Env, m: Machine, h: Handshake)
    ensures Grows(m, OnHandshake(env, m, h).0)
  {
    hide OnClientHello, OnServerHello, OnFinished, ParseAlpnServerExtension, HandshakeBytes;
    HelloGrows(env, m, h.payload);
    FinishedGrows(env, m, h.payload);
  }

  lemma {:induction false} MessagesGrow(env: Env, m: Machine, p: (), buf: seq<byte>)
    requires Lawful(CutHandshake)
    ensures Grows(m, Run(CutHandshake, OnMessage(env), p, m, buf).h)
    decreases |buf|
  {
    hide Lawful, CutHandshake, OnHandshake;
    Decided(CutHandshake, p, buf, []);
    var cut := CutHandshake(p, buf);
    if cut.Item? {
      HandshakeGrows(env, m, cut.item);
      MessagesGrow(env, OnHandshake(env, m, cut.item).0, cut.next, buf[cut.size..]);
    }
  }

  lemma RecordGrows(env: Env, m: Machine, r: Record)
    ensures Grows(m, OnRecord(env, m, r).0)
  {
    CutHandshakeLawful();
    hide Lawful, Run, CutHandshake, Open;
    MessagesGrow(env, m, (), m.hsBuf + r.payload);
    var p := At(m, m.read);
    if p.Some? && Open(env.c, p.value, r.payload).Opened? {
      var o := Open(env.c, p.value, r.payload);
      MessagesGrow(env, m.(objs := m.objs[m.read.value := o.p]), (), m.hsBuf + o.content);
    }
  }

  lemma {:induction false} RunGrows(env: Env, m: Machine, p: (), buf: seq<byte>)
    requires Lawful(CutRecord)
    ensures Grows(m, Run(CutRecord, Records(env), p, m, buf).h)
    decreases |buf|
  {
    hide Lawful, CutRecord, OnRecord;
    Decided(CutRecord, p, buf, []);
    var cut := CutRecord(p, buf);
    if cut.Item? {
      RecordGrows(env, m, cut.item);
      RunGrows(env, OnRecord(env, m, cut.item).0, cut.next, buf[cut.size..]);
    }
  }

  // ---- two objects -----------------------------------------------------------------------------------

  /** One chunk of a stream that is parsed without error and to its end. */
  lemma OneChunk(env: Env, m: Machine, bytes: seq<byte>)
    requires Lawful(CutRecord)
    ensures var r, f := Run(CutRecord, Records(env), (), m, bytes),
              Framing.Feed(CutRecord, Records(env), (), m, [], [bytes]);
            f.h == r.h && f.error == r.error && (f.error.None? && f.rest == [] ==> r.consumed == |bytes|)
  {
    hide Lawful, CutRecord, OnRecord;
    assert [] + bytes == bytes && [bytes][1..] == [];
    hide Run;
  }

  lemma Whole(bytes: seq<byte>)
    ensures Concat([bytes]) == bytes
  {
    assert [bytes][1..] == [] && bytes + [] == bytes;
  }

  /** The three flights of a handshake, each in one piece. */
  lemma Flights(ce: Env, se: Env)
    requires Honest(ce, se) && MessagesFit(ce, se)
    ensures Lawful(CutRecord)
    ensures var m1, m2 := ServerAfterHello(ce, se), ClientAfterFlight(ce, se);
            var r1 := Run(CutRecord, Records(se), (), NewMachine(false), Wire(HelloFlight(ce)));
            var r2 := Run(CutRecord, Records(ce), (), Started(ce), Wire(m1.out));
            var r3 := Run(CutRecord, Records(se), (), m1.(out := []), Wire(m2.out));
            && r1.h == m1 && r1.error.None? && r2.h == m2 && r2.error.None? && r3.error.None?
            && Crossed(r3.h, m2) && r3.h.alpn == m2.alpn == Negotiate(ce.config.protos, se.config.protos)
  {
    var m1, m2 := ServerAfterHello(ce, se), ClientAfterFlight(ce, se);
    var a, b, c := Wire(HelloFlight(ce)), Wire(m1.out), Wire(m2.out);
    hide Honest, MessagesFit, InHeader, Wire, Started, HelloFlight, ServerAfterHello, ClientAfterFlight, Crossed,
        Lawful, CutRecord, Run, Feed, NewMachine, Negotiate, Records;
    FitsInHeader(ce, se);
    Whole(a);
    Whole(b);
    Whole(c);
    HandshakeCompletes(ce, se, [a], [b], [c]);
    OneChunk(se, NewMachine(false), a);
    OneChunk(ce, Started(ce), b);
    OneChunk(se, m1.(out := []), c);
  }

  /** What one object has put out arrives at the other. */
  method Exchange(from: StateMachine, to: StateMachine)
    requires from != to && to.err.None?
    modifies from`m, from`sent, to`m, to`err
    ensures Lawful(CutRecord)
    ensures from.m == old(from.m).(out := [])
    ensures var r := Run(CutRecord, Records(to.env), (), old(to.m), Wire(old(from.m).out));
              to.m == r.h && to.err == r.error
  {
    hide Wire, Lawful, CutRecord, Run;
    var out := from.TakeOutput();
    var n, e := to.Feed(out);
  }

  /** A whole handshake between two new objects, flight by flight. It ends without error, with
      both sides Established and linked in both directions. */
  method Connect(ce: Env, se: Env) returns (client: StateMachine, server: StateMachine)
    requires Honest(ce, se) && MessagesFit(ce, se)
    ensures client.env == ce && server.env == se && client.err.None? && server.err.None?
    ensures client.m.phase == Established && server.m.phase == Established
    ensures Linked(client.m, server.m) && Linked(server.m, client.m)
    ensures client.m.alpn == server.m.alpn == Negotiate(ce.config.protos, se.config.protos)
    ensures client.m.plaintext == server.m.plaintext == []
  {
    client := new StateMachine(ce, true);
    server := new StateMachine(se, false);
    hide *;
    Flights(ce, se);
    ghost var m1, m2 := ServerAfterHello(ce, se), ClientAfterFlight(ce, se);
    var ok := client.Begin();
    Exchange(client, server);
    Exchange(server, client);
    Exchange(client, server);
    CrossedAnyway(server.m, m2);
  }

  lemma FitsInHeader(ce: Env, se: Env)
    requires MessagesFit(ce, se)
    ensures InHeader(ce, se)
  {
    hide CertificateMessage, SignatureMessage;
  }

  /** Output that has been handed out does not matter any more. */
  lemma CrossedAnyway(s: Machine, c: Machine)
    requires Crossed(s, c)
    ensures var c' := c.(out := []);
            && c'.phase == Established && s.phase == Established && Linked(c', s) && Linked(s, c')
            && s.plaintext == [] && c'.plaintext == []
  {
  }

  /** Data written to one of two linked objects comes out of the other as it was. */
  method Transfer(from: StateMachine, to: StateMachine, data: seq<byte>) returns (got: seq<byte>)
    requires from != to && Sound(from.env.c) && from.env.c == to.env.c && Linked(from.m, to.m)
    requires from.m.phase == Established && to.err.None? && to.m.plaintext == []
    requires Number(from.m, from.m.write) + |data| < SEQ_LIMIT
    modifies from, to
    ensures got == data && Linked(from.m, to.m) && to.err.None? && to.m.plaintext == [] && from.m.phase == Established
  {
    hide Sound, Wire, Lawful, CutRecord, Run, Framing.Feed, WriteApp, Number, WriteAll;
    ghost var w, r := from.m, to.m;
    CanWrite(w, r);
    var out, ok := from.Write(data);
    OneWrite(from.env, w, data);
    WireIs(WriteApp(from.env, w, data).1);
    WriteCrosses(from.env, to.env, w, r, data);
    Whole(data);
    Whole(out);
    DataCrosses(from.env, to.env, w, r, [data], [out]);
    OneChunk(to.env, r, out);
    var n, e := to.Feed(out);
    assert [] + data == data;
    LinkedAnyway(from.m, to.m);
    got := to.ReadPlaintext();
  }

  lemma CanWrite(w: Machine, r: Machine)
    requires Linked(w, r)
    ensures At(w, w.write).Some?
  {
  }

  lemma OneWrite(env: Env, m: Machine, data: seq<byte>)
    ensures WriteAll(env, m, [data]) == (WriteApp(env, m, data).0, WriteApp(env, m, data).1)
  {
    hide WriteApp;
    var (m1, rs, ok) := WriteApp(env, m, data);
    assert [data][1..] == [] && rs + [] == rs;
    assert WriteAll(env, m1, []) == (m1, []);
  }

  lemma LinkedAnyway(w: Machine, r: Machine)
    ensures Linked(w, r) == Linked(w, r.(plaintext := []))
  {
  }
}
