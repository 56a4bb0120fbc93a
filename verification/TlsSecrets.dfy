/** The secrets of a handshake between two honest machines, under the names that section 7.1 of
    RFC 8446 gives them (tls/state.go, tls/keyschedule.go). */
module TlsSecrets {
  import opened Bytes
  import opened Framing
  import opened TlsRecord
  import opened TlsCrypto
  import opened TlsHello
  import opened TlsMachine
  import opened TlsHandshake

  // ---- the transcript, message by message ---------------------------------------------------------

  function Chosen(ce: Env, se: Env): seq<byte> {
    Negotiate(ce.config.protos, se.config.protos)
  }

  /** From ClientHello to the server's Certificate. */
  function ToCertificate(ce: Env, se: Env): seq<byte> {
    AtServerHello(ce, se) + HandshakeBytes(Handshake(8, AlpnServerExtension(Chosen(ce, se))))
    + HandshakeBytes(Handshake(11, if se.config.certificate.Some? then se.config.certificate.value else []))
  }

  /** What the server signs: 64 spaces, the name of the purpose, a zero, the transcript's hash. */
  function Content(ce: Env, se: Env): seq<byte> {
    seq(64, _ => 0x20) + Ascii("TLS 1.3, server CertificateVerify") + [0] + se.c.hash(ToCertificate(ce, se))
  }

  function ToSignature(ce: Env, se: Env): seq<byte> {
    var sig := se.config.sign(Content(ce, se));
    ToCertificate(ce, se) + HandshakeBytes(Handshake(15, if sig.Some? then sig.value else []))
  }

  /** A handshake traffic secret, for the direction that is named. */
  function HandshakeTraffic(ce: Env, se: Env, name: string): seq<byte> {
    DeriveSecret(se.c, HandshakeSecret(se.c, Shared(ce, se)), name, se.c.hash(AtServerHello(ce, se)))
  }

  function ToServerFinished(ce: Env, se: Env): seq<byte> {
    var data := FinishedData(se.c, HandshakeTraffic(ce, se, "s hs traffic"), se.c.hash(ToSignature(ce, se)));
    ToSignature(ce, se) + HandshakeBytes(Handshake(20, data))
  }

  function ToClientFinished(ce: Env, se: Env): seq<byte> {
    var data := FinishedData(se.c, HandshakeTraffic(ce, se, "c hs traffic"), se.c.hash(ToServerFinished(ce, se)));
    ToServerFinished(ce, se) + HandshakeBytes(Handshake(20, data))
  }

  /** An application traffic secret: from the transcript up to the server's Finished. */
  function AppTraffic(ce: Env, se: Env, name: string): seq<byte> {
    DeriveSecret(se.c, MasterSecret(se.c, HandshakeSecret(se.c, Shared(ce, se))), name,
                 se.c.hash(ToServerFinished(ce, se)))
  }

  // ---- handshake secrets ------------------------------------------------------------------------------

  /** Keys from a transcript: two secrets, and a key object for each. */
  predicate KeysFrom(c: Crypto, m: Machine, shared: seq<byte>, transcript: seq<byte>, write: string, read: string) {
    var hs, th := HandshakeSecret(c, shared), c.hash(transcript);
    && m.transcript == transcript && m.handshakeSecret == Some(hs)
    && m.hsWriteSecret == DeriveSecret(c, hs, write, th) && m.hsReadSecret == DeriveSecret(c, hs, read, th)
    && m.objs == [NewProtector(c, m.hsWriteSecret), NewProtector(c, m.hsReadSecret)]
    && m.hsWrite == Some(0) && m.write == Some(0) && m.read == Some(1)
  }

  lemma Labels()
    ensures WriteLabel(true, "hs") == "c hs traffic" && WriteLabel(false, "hs") == "s hs traffic"
    ensures WriteLabel(true, "ap") == "c ap traffic" && WriteLabel(false, "ap") == "s ap traffic"
  {
  }

  lemma KeysMade(env: Env, m: Machine, shared: seq<byte>)
    requires m.objs == []
    ensures var k := HandshakeKeys(env, m, shared);
            && k == m.(handshakeSecret := k.handshakeSecret, hsWriteSecret := k.hsWriteSecret, objs := k.objs,
                       hsReadSecret := k.hsReadSecret, hsWrite := k.hsWrite, write := k.write, read := k.read)
            && if m.isClient then KeysFrom(env.c, k, shared, m.transcript, "c hs traffic", "s hs traffic")
               else KeysFrom(env.c, k, shared, m.transcript, "s hs traffic", "c hs traffic")
  {
    Labels();
    hide DeriveSecret, HandshakeSecret, NewProtector, WriteLabel;
  }

  /** The server's answer to the hello: it writes under "s hs traffic" and reads under
      "c hs traffic". */
  lemma ServerHandshakeSecrets(ce: Env, se: Env)
    requires Honest(ce, se)
    ensures var (s, e) := AnswerHello(se, NewMachine(false), HelloBodyOf(ce));
            && e.None? && s.suite == 0x1301 && s.alpn == Chosen(ce, se)
            && KeysFrom(se.c, s, Shared(ce, se), AtServerHello(ce, se), "s hs traffic", "c hs traffic")
  {
    ServerAnswers(ce, se);
    AnsweredState(ce, se);
    hide *;
  }

  lemma AnsweredState(ce: Env, se: Env)
    ensures var s := Answered(ce, se);
            && !s.isClient && s.suite == 0x1301 && s.alpn == Chosen(ce, se)
            && KeysFrom(se.c, s, Shared(ce, se), AtServerHello(ce, se), "s hs traffic", "c hs traffic")
  {
    var m := NewMachine(false).(suite := AES_128_GCM_SHA256, alpn := Negotiate(ce.config.protos, se.config.protos),
                                transcript := AtServerHello(ce, se), out := [Plain(HANDSHAKE, AnswerMessage(ce, se))]);
    KeysMade(se, m, Shared(ce, se));
    hide HandshakeKeys, AnswerMessage, AtServerHello, Shared, DeriveSecret, HandshakeSecret, Negotiate, NewProtector;
  }

  /** The client on reading that answer: the other way round. */
  lemma ClientHandshakeSecrets(ce: Env, se: Env)
    requires Honest(ce, se)
    ensures var (c, e) := OnServerHello(ce, Started(ce), AnswerBodyOf(ce, se));
            && e.None? && c.suite == 0x1301
            && KeysFrom(ce.c, c, Shared(ce, se), AtServerHello(ce, se), "c hs traffic", "s hs traffic")
  {
    ClientGreets(ce, se);
    GreetedState(ce, se);
    hide *;
  }

  lemma GreetedState(ce: Env, se: Env)
    ensures var c := Greeted(ce, se);
            && c.isClient && c.suite == 0x1301
            && KeysFrom(ce.c, c, Shared(ce, se), AtServerHello(ce, se), "c hs traffic", "s hs traffic")
  {
    hide ClientHelloMessage, AtServerHello, Shared, DeriveSecret, HandshakeSecret, NewProtector, HandshakeKeys;
    var m := Started(ce).(suite := AES_128_GCM_SHA256, transcript := AtServerHello(ce, se));
    KeysMade(ce, m, Shared(ce, se));
  }

  // ---- the server's flight ----------------------------------------------------------------------------

  /** What stays as it is while messages are said. */
  predicate SameSecrets(m: Machine, m': Machine) {
    && m'.handshakeSecret == m.handshakeSecret && m'.isClient == m.isClient && m'.alpn == m.alpn
    && m'.hsWriteSecret == m.hsWriteSecret && m'.hsReadSecret == m.hsReadSecret
  }

  lemma Said(env: Env, m: Machine, msg: seq<byte>)
    ensures Say(env, m, msg).transcript == m.transcript + msg && SameSecrets(m, Say(env, m, msg))
  {
    hide Seal;
  }

  lemma SpacesAre(n: nat)
    ensures Spaces(n) == seq(n, _ => 0x20)
  {
    if n > 0 {
      SpacesAre(n - 1);
      assert Spaces(n) == [0x20] + seq(n - 1, _ => 0x20);
    }
  }

  /** The server up to its certificate, and what it signs then. */
  lemma CertifiedState(ce: Env, se: Env)
    ensures Certified(ce, se).transcript == ToCertificate(ce, se) && SameSecrets(Answered(ce, se), Certified(ce, se))
    ensures ToSign(se, Certified(ce, se)) == Content(ce, se)
  {
    AnsweredState(ce, se);
    SpacesAre(64);
    hide Answered, AtServerHello, Say, HandshakeBytes, DeriveSecret, HandshakeSecret, Negotiate, Spaces, Ascii,
        NewProtector, AlpnServerExtension;
    var s0 := Answered(ce, se);
    Said(se, s0, ExtensionsMessage(s0));
    Said(se, Say(se, s0, ExtensionsMessage(s0)), CertificateMessage(se));
  }

  lemma SignedState(ce: Env, se: Env)
    ensures Signed(ce, se).transcript == ToSignature(ce, se) && SameSecrets(Answered(ce, se), Signed(ce, se))
  {
    CertifiedState(ce, se);
    Said(se, Certified(ce, se), SignatureMessage(ce, se));
    hide Answered, Certified, Say, HandshakeBytes, ToCertificate, Content, ToSign;
  }

  /** The end of a flight: Finished under the server's handshake secret, and the secrets for
      what follows. */
  lemma EndOfFlight(se: Env, s: Machine, hs: seq<byte>)
    requires s.handshakeSecret == Some(hs) && !s.isClient
    ensures var t := Behind(se, s);
            var (s', e) := FlightEnd(se, s);
            && e.None? && s'.transcript == t && SameSecrets(s, s')
            && s'.app == Some(AppSecrets(DeriveSecret(se.c, MasterSecret(se.c, hs), "s ap traffic", se.c.hash(t)),
                                         DeriveSecret(se.c, MasterSecret(se.c, hs), "c ap traffic", se.c.hash(t))))
  {
    Said(se, s, FinishedMessage(se, s));
    Labels();
    hide Say, HandshakeBytes, DeriveSecret, MasterSecret, FinishedData, WriteLabel;
  }

  /** The server behind its flight, its Finished included: under the master secret, and with the
      transcript up to and with that Finished, it will write under "s ap traffic" and read under
      "c ap traffic". */
  lemma ServerAppSecrets(ce: Env, se: Env)
    requires Honest(ce, se)
    ensures var s := ServerAfterHello(ce, se);
            && s.transcript == ToServerFinished(ce, se) && s.alpn == Chosen(ce, se)
            && s.app == Some(AppSecrets(AppTraffic(ce, se, "s ap traffic"), AppTraffic(ce, se, "c ap traffic")))
            && s.hsReadSecret == HandshakeTraffic(ce, se, "c hs traffic")
  {
    hide *;
    ServerIs(ce, se);
    SignedState(ce, se);
    AnsweredState(ce, se);
    var hs := HandshakeSecret(se.c, Shared(ce, se));
    NamedSecrets(ce, se, Answered(ce, se));
    StaysNamed(Answered(ce, se), Signed(ce, se));
    EndOfFlight(se, Signed(ce, se), hs);
    StaysNamed(Signed(ce, se), ServerAfterHello(ce, se));
    NamedTranscript(ce, se, Signed(ce, se));
    NamedApp(ce, se, "s ap traffic");
    NamedApp(ce, se, "c ap traffic");
  }

  lemma NamedSecrets(ce: Env, se: Env, s: Machine)
    requires KeysFrom(se.c, s, Shared(ce, se), AtServerHello(ce, se), "s hs traffic", "c hs traffic")
    ensures s.handshakeSecret == Some(HandshakeSecret(se.c, Shared(ce, se)))
    ensures s.hsWriteSecret == HandshakeTraffic(ce, se, "s hs traffic")
    ensures s.hsReadSecret == HandshakeTraffic(ce, se, "c hs traffic")
  {
    hide AtServerHello, Shared, DeriveSecret, HandshakeSecret, NewProtector;
  }

  lemma StaysNamed(m: Machine, m': Machine)
    requires SameSecrets(m, m')
    ensures m'.handshakeSecret == m.handshakeSecret && m'.isClient == m.isClient && m'.alpn == m.alpn
    ensures m'.hsWriteSecret == m.hsWriteSecret && m'.hsReadSecret == m.hsReadSecret
  {
  }

  /** The transcript behind a server's Finished. */
  function Behind(env: Env, s: Machine): seq<byte> {
    s.transcript + HandshakeBytes(Handshake(20, FinishedData(env.c, s.hsWriteSecret, env.c.hash(s.transcript))))
  }

  lemma NamedTranscript(ce: Env, se: Env, s: Machine)
    requires s.transcript == ToSignature(ce, se) && s.hsWriteSecret == HandshakeTraffic(ce, se, "s hs traffic")
    ensures Behind(se, s) == ToServerFinished(ce, se)
  {
    hide ToSignature, HandshakeTraffic, HandshakeBytes, FinishedData;
  }

  lemma NamedApp(ce: Env, se: Env, name: string)
    ensures DeriveSecret(se.c, MasterSecret(se.c, HandshakeSecret(se.c, Shared(ce, se))), name,
                         se.c.hash(ToServerFinished(ce, se))) == AppTraffic(ce, se, name)
  {
    hide ToServerFinished, DeriveSecret, MasterSecret, HandshakeSecret, Shared;
  }

  lemma ServerIs(ce: Env, se: Env)
    requires Honest(ce, se)
    ensures ServerAfterHello(ce, se) == FlightEnd(se, Signed(ce, se)).0
  {
    hide *;
    FlightNames(ce, se);
    ServerAnswers(ce, se);
    HelloThenFlight(ce, se);
    HonestSigns(ce, se);
    FlightEnds(ce, se);
  }

  // ---- both sides at the end -----------------------------------------------------------------------------

  /** What a side holds when it is done: the secret and the key object it writes with, those it
      reads with, and numbers from zero. */
  predicate KeysAtEnd(c: Crypto, m: Machine, write: seq<byte>, read: seq<byte>) {
    && m.phase == Established && m.app == Some(AppSecrets(write, read))
    && m.write.Some? && m.write.value < |m.objs| && m.objs[m.write.value] == NewProtector(c, write)
    && m.read.Some? && m.read.value < |m.objs| && m.objs[m.read.value] == NewProtector(c, read)
    && m.write != m.read
  }

  lemma ThreeSaidIs(ce: Env, se: Env, s: Machine, c: Machine)
    requires s == Answered(ce, se)
    ensures ThreeSaid(ce, se, s, c).0 == Signed(ce, se)
  {
    hide Say, HandshakeBytes, OnRecord, Answered, ToSign;
  }

  lemma SwitchedKeys(env: Env, m: Machine, app: AppSecrets)
    requires m.app == Some(app)
    ensures KeysAtEnd(env.c, Switched(env, m, app).(hsBuf := []), app.write, app.read)
    ensures Switched(env, m, app).transcript == m.transcript
    ensures Switched(env, m, app).hsWriteSecret == m.hsWriteSecret
  {
    hide NewProtector;
  }

  /** The client behind the server's Finished. */
  lemma ClientAccepts(ce: Env, c: Machine, data: seq<byte>, hs: seq<byte>)
    requires c.isClient && c.handshakeSecret == Some(hs)
    ensures var m := Accepted(ce, c, data);
            var th := ce.c.hash(m.transcript);
            && m.transcript == c.transcript + HandshakeBytes(Handshake(20, data)) && m.hsWriteSecret == c.hsWriteSecret
            && m.app == Some(AppSecrets(DeriveSecret(ce.c, MasterSecret(ce.c, hs), "c ap traffic", th),
                                        DeriveSecret(ce.c, MasterSecret(ce.c, hs), "s ap traffic", th)))
  {
    Labels();
    hide HandshakeBytes, DeriveSecret, MasterSecret, WriteLabel;
  }

  /** What a client answers a Finished with that it accepts, and how it is left. */
  lemma ClientEnds(ce: Env, m: Machine, app: AppSecrets)
    requires m.app == Some(app)
    ensures var data := FinishedData(ce.c, m.hsWriteSecret, ce.c.hash(m.transcript));
            var c := Switched(ce, Say(ce, m, HandshakeBytes(FinishedBody(ce, m))), app).(hsBuf := []);
            && KeysAtEnd(ce.c, c, app.write, app.read) && c.hsWriteSecret == m.hsWriteSecret
            && c.transcript == m.transcript + HandshakeBytes(Handshake(20, data))
  {
    var msg := HandshakeBytes(FinishedBody(ce, m));
    Said(ce, m, msg);
    SayApp(ce, m, msg);
    hide Say, HandshakeBytes, FinishedData, KeysAtEnd;
    SwitchedKeys(ce, Say(ce, m, msg), app);
  }

  lemma PairedSecrets(s: Machine, c: Machine)
    requires Paired(s, c)
    ensures c.isClient && c.handshakeSecret == s.handshakeSecret && c.hsWriteSecret == s.hsReadSecret
    ensures c.transcript == s.transcript && |c.objs| == 2
  {
  }

  /** The client that has heard the flight: it writes under "c ap traffic" and reads under
      "s ap traffic", and its Finished is made of "c hs traffic" and the transcript before it. */
  lemma ClientAppSecrets(ce: Env, se: Env)
    requires Honest(ce, se) && MessagesFit(ce, se)
    ensures var c := ClientAfterFlight(ce, se);
            && KeysAtEnd(ce.c, c, AppTraffic(ce, se, "c ap traffic"), AppTraffic(ce, se, "s ap traffic"))
            && c.hsWriteSecret == HandshakeTraffic(ce, se, "c hs traffic")
            && c.transcript == ToClientFinished(ce, se)
  {
    hide *;
    StageHello(ce, se);
    ChoiceFits(ce, se);
    AnsweredShape(ce, se);
    FlightThree(ce, se);
    HonestParts(ce, se);
    var (s, c) := ThreeSaid(ce, se, Answered(ce, se), Greeted(ce, se));
    ThreeSaidIs(ce, se, Answered(ce, se), Greeted(ce, se));
    SignedSecrets(ce, se);
    StageIsPaired(ce, s, c, 3);
    ServerIs(ce, se);
    FlightNames(ce, se);
    ClientHears(ce, se, s, c);
    ClientNamed(ce, se, s, c);
  }

  function BehindFinished(ce: Env, se: Env, s: Machine, c: Machine): Machine {
    var s1 := Say(se, s, HandshakeBytes(FinishedBody(se, s)));
    if |s1.objs| == 2 && |c.objs| == 2
    then Accepted(ce, c.(objs := c.objs[1 := s1.objs[0]]), FinishedBody(se, s).payload) else c
  }

  /** The last record of the flight. */
  lemma ClientHears(ce: Env, se: Env, s: Machine, c: Machine)
    requires Sound(ce.c) && ce.c == se.c && Paired(s, c) && Fold(Records(ce), Started(ce), s.out) == (c, None)
    ensures var m := BehindFinished(ce, se, s, c);
            && m.app.Some? && |Say(se, s, HandshakeBytes(FinishedBody(se, s))).objs| == 2
            && Fold(Records(ce), Started(ce), FlightEnd(se, s).0.out) ==
                 (Switched(ce, Say(ce, m, HandshakeBytes(FinishedBody(ce, m))), m.app.value).(hsBuf := []), None)
  {
    hide OnRecord, HandshakeBytes, Sound, RecordOk, FinishedData, DeriveSecret, MasterSecret, NewProtector, FlightEnd,
        Say, Started, Fold, Records, AppOf, FinishedBody, Switched;
    FinishedHeard(se, ce, s, c);
    PairedSecrets(s, c);
    var out := FlightEnd(se, s).0.out;
    assert out == s.out + [out[|s.out|]];
    OneMore(ce, Started(ce), s.out, out[|s.out|]);
    hide Paired;
  }

  lemma BehindIs(ce: Env, se: Env, s: Machine, c: Machine, hs: seq<byte>)
    requires ce.c == se.c && Paired(s, c) && s.handshakeSecret == Some(hs)
    requires |Say(se, s, HandshakeBytes(FinishedBody(se, s))).objs| == 2
    ensures var m := BehindFinished(ce, se, s, c);
            var th := ce.c.hash(m.transcript);
            && m.transcript == Behind(se, s) && m.hsWriteSecret == s.hsReadSecret
            && m.app == Some(AppSecrets(DeriveSecret(ce.c, MasterSecret(ce.c, hs), "c ap traffic", th),
                                        DeriveSecret(ce.c, MasterSecret(ce.c, hs), "s ap traffic", th)))
  {
    PairedSecrets(s, c);
    hide Paired, Say, HandshakeBytes, FinishedData, Accepted, DeriveSecret, MasterSecret;
    var c1 := c.(objs := c.objs[1 := Say(se, s, HandshakeBytes(FinishedBody(se, s))).objs[0]]);
    ClientAccepts(ce, c1, FinishedData(se.c, s.hsWriteSecret, Hash(se, s)), hs);
  }

  /** And the names of what it leads to. */
  lemma ClientNamed(ce: Env, se: Env, s: Machine, c: Machine)
    requires ce.c == se.c && Paired(s, c) && s.transcript == ToSignature(ce, se)
    requires s.handshakeSecret == Some(HandshakeSecret(se.c, Shared(ce, se)))
    requires s.hsWriteSecret == HandshakeTraffic(ce, se, "s hs traffic")
    requires s.hsReadSecret == HandshakeTraffic(ce, se, "c hs traffic")
    requires |Say(se, s, HandshakeBytes(FinishedBody(se, s))).objs| == 2
    ensures var m := BehindFinished(ce, se, s, c);
            && m.app.Some?
            && var c' := Switched(ce, Say(ce, m, HandshakeBytes(FinishedBody(ce, m))), m.app.value).(hsBuf := []);
               && KeysAtEnd(ce.c, c', AppTraffic(ce, se, "c ap traffic"), AppTraffic(ce, se, "s ap traffic"))
               && c'.hsWriteSecret == HandshakeTraffic(ce, se, "c hs traffic")
               && c'.transcript == ToClientFinished(ce, se)
  {
    hide *;
    BehindIs(ce, se, s, c, HandshakeSecret(se.c, Shared(ce, se)));
    NamedTranscript(ce, se, s);
    NamedApp(ce, se, "s ap traffic");
    NamedApp(ce, se, "c ap traffic");
    var m := BehindFinished(ce, se, s, c);
    ClientEnds(ce, m, m.app.value);
    NamedEnd(ce, se);
  }

  lemma NamedEnd(ce: Env, se: Env)
    ensures var t := ToServerFinished(ce, se);
            var data := FinishedData(se.c, HandshakeTraffic(ce, se, "c hs traffic"), se.c.hash(t));
            ToClientFinished(ce, se) == t + HandshakeBytes(Handshake(20, data))
  {
    hide ToServerFinished, HandshakeTraffic, HandshakeBytes, FinishedData;
  }

  lemma StageIsPaired(ce: Env, s: Machine, c: Machine, n: nat)
    requires Stage(ce, s, c, n)
    ensures Paired(s, c) && c.out == [] && Fold(Records(ce), Started(ce), s.out) == (c, None)
  {
    hide Paired, Fold, Records, Started, RecordOk;
  }

  lemma SignedSecrets(ce: Env, se: Env)
    requires Honest(ce, se)
    ensures var s := Signed(ce, se);
            && s.transcript == ToSignature(ce, se) && !s.isClient
            && s.handshakeSecret == Some(HandshakeSecret(se.c, Shared(ce, se)))
            && s.hsWriteSecret == HandshakeTraffic(ce, se, "s hs traffic")
            && s.hsReadSecret == HandshakeTraffic(ce, se, "c hs traffic")
  {
    hide *;
    SignedState(ce, se);
    AnsweredState(ce, se);
    NamedSecrets(ce, se, Answered(ce, se));
    StaysNamed(Answered(ce, se), Signed(ce, se));
  }

  lemma PairedShapes(s: Machine, c: Machine)
    requires Paired(s, c)
    ensures !s.isClient && s.hsBuf == [] && s.read == Some(1) && c.hsWrite == Some(0) && |s.objs| == |c.objs| == 2
    ensures c.objs[0] == s.objs[1] && |c.objs[0].iv| == IV_SIZE && c.objs[0].count == 0
  {
  }

  lemma BehindShape(ce: Env, se: Env, s: Machine, c: Machine)
    requires Sound(ce.c) && ce.c == se.c && Paired(s, c) && c.out == []
    ensures var m, s2 := BehindFinished(ce, se, s, c), FlightEnd(se, s).0;
            && m.hsWrite == Some(0) && |m.objs| == 2 && m.out == [CCS]
            && !s2.isClient && s2.hsBuf == [] && s2.app.Some? && s2.read == Some(1) && |s2.objs| == 2
            && m.objs[0] == s2.objs[1] && |m.objs[0].iv| == IV_SIZE && m.objs[0].count == 0
            && m.transcript == s2.transcript && s2.hsReadSecret == s.hsReadSecret
  {
    hide *;
    FinishedHeard(se, ce, s, c);
    PairedShapes(s, c);
    var s1 := Say(se, s, HandshakeBytes(FinishedBody(se, s)));
    var c1 := c.(objs := c.objs[1 := s1.objs[0]]);
    BehindUnfolded(ce, se, s, c);
    AcceptedShape(ce, c1, FinishedBody(se, s).payload);
  }

  lemma BehindUnfolded(ce: Env, se: Env, s: Machine, c: Machine)
    ensures var s1 := Say(se, s, HandshakeBytes(FinishedBody(se, s)));
            |s1.objs| == 2 && |c.objs| == 2 ==>
              BehindFinished(ce, se, s, c)
                == Accepted(ce, c.(objs := c.objs[1 := s1.objs[0]]), FinishedBody(se, s).payload)
  {
    hide Say, HandshakeBytes, FinishedBody, Accepted;
  }

  lemma AcceptedShape(ce: Env, c: Machine, data: seq<byte>)
    requires c.out == []
    ensures var m := Accepted(ce, c, data); m.hsWrite == c.hsWrite && m.objs == c.objs && m.out == [CCS]
  {
    assert [] + [CCS] == [CCS];
    hide AppOf, HandshakeBytes;
  }

  /** The server that has heard the client's Finished: it writes under "s ap traffic" and reads
      under "c ap traffic". */
  lemma ServerEnds(ce: Env, se: Env)
    requires Honest(ce, se) && MessagesFit(ce, se)
    ensures var c := ClientAfterFlight(ce, se);
            && |c.out| == 2
            && var s := OnRecord(se, ServerAfterHello(ce, se).(out := []), c.out[1]).0;
               && KeysAtEnd(se.c, s, AppTraffic(ce, se, "s ap traffic"), AppTraffic(ce, se, "c ap traffic"))
               && s.transcript == ToClientFinished(ce, se)
  {
    hide *;
    StageHello(ce, se);
    ChoiceFits(ce, se);
    AnsweredShape(ce, se);
    FlightThree(ce, se);
    HonestParts(ce, se);
    var (s, c) := ThreeSaid(ce, se, Answered(ce, se), Greeted(ce, se));
    ThreeSaidIs(ce, se, Answered(ce, se), Greeted(ce, se));
    SignedSecrets(ce, se);
    StageIsPaired(ce, s, c, 3);
    ServerIs(ce, se);
    FlightNames(ce, se);
    ClientHears(ce, se, s, c);
    BehindIs(ce, se, s, c, HandshakeSecret(se.c, Shared(ce, se)));
    BehindShape(ce, se, s, c);
    ServerAppSecrets(ce, se);
    LastRecord(ce, se, BehindFinished(ce, se, s, c), ServerAfterHello(ce, se).(out := []));
    NamedEnd(ce, se);
  }

  lemma LastRecord(ce: Env, se: Env, m: Machine, s: Machine)
    requires Sound(ce.c) && ce.c == se.c && m.out == [CCS] && m.app.Some?
    requires m.hsWrite == Some(0) && |m.objs| == 2 && m.transcript == s.transcript && m.hsWriteSecret == s.hsReadSecret
    requires !s.isClient && s.hsBuf == [] && s.app.Some? && s.read == Some(1) && |s.objs| == 2
    requires m.objs[0] == s.objs[1] && |m.objs[0].iv| == IV_SIZE && m.objs[0].count == 0
    ensures var out := Switched(ce, Say(ce, m, HandshakeBytes(FinishedBody(ce, m))), m.app.value).(hsBuf := []).out;
            && |out| == 2
            && var s' := OnRecord(se, s, out[1]).0;
               && KeysAtEnd(se.c, s', s.app.value.write, s.app.value.read)
               && s'.transcript == s.transcript
                    + HandshakeBytes(Handshake(20, FinishedData(se.c, s.hsReadSecret, se.c.hash(s.transcript))))
  {
    FinishedAnswered(se, ce, s, m);
    hide OnRecord, HandshakeBytes, Sound, RecordOk, FinishedData, NewProtector, Say, KeysAtEnd;
    var m1 := Say(ce, m, HandshakeBytes(FinishedBody(ce, m)));
    var s1 := Hear(s.(objs := s.objs[1 := m1.objs[0]]), FINISHED, FinishedBody(ce, m).payload);
    SwitchedKeys(se, s1, s.app.value);
  }
}
