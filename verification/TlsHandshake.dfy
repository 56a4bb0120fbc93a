/** Two honest TLS 1.3 machines (tls/state.go): the handshake completes, with the same secrets,
    suite and protocol on both sides, however the network cuts the bytes. */
module TlsHandshake {
  import opened Bytes
  import opened Framing
  import opened TlsRecord
  import opened TlsCrypto
  import opened TlsHello
  import opened TlsMachine

  // ---- what honesty and the configuration must give -------------------------------------------

  const MAX_SEALED_MESSAGE := MAX_CIPHERTEXT_LEN - 17

  /** The same primitives on both sides, a hello whose fields fit, a certificate, and a key that
      signs. */
  ghost predicate Honest(ce: Env, se: Env) {
    && Sound(ce.c) && ce.c == se.c
    && |ce.random| == 32 && |se.random| == 32 && |ce.sessionId| < 256
    && HelloOk(HelloOf(ce), ce.c.pub(ce.priv)) && |ClientHelloMessage(ce)| <= MAX_CIPHERTEXT_LEN
    && se.config.certificate.Some?
    && forall x: seq<byte> :: se.config.sign(x).Some?
  }

  /** The two messages that depend on the server's certificate and key, and the server when it
      has sent them. */
  function CertificateMessage(se: Env): seq<byte> {
    HandshakeBytes(Handshake(CERTIFICATE, if se.config.certificate.Some? then se.config.certificate.value else []))
  }

  function Certified(ce: Env, se: Env): Machine {
    var s := Answered(ce, se);
    Say(se, Say(se, s, ExtensionsMessage(s)), CertificateMessage(se))
  }

  function SignatureMessage(ce: Env, se: Env): seq<byte> {
    var sig := se.config.sign(ToSign(se, Certified(ce, se)));
    HandshakeBytes(Handshake(CERTIFICATE_VERIFY, if sig.Some? then sig.value else []))
  }

  function Signed(ce: Env, se: Env): Machine {
    Say(se, Certified(ce, se), SignatureMessage(ce, se))
  }

  /** Each of them fits one record, since the machine does not split messages. */
  predicate MessagesFit(ce: Env, se: Env) {
    |CertificateMessage(se)| <= MAX_SEALED_MESSAGE && |SignatureMessage(ce, se)| <= MAX_SEALED_MESSAGE
  }

  /** The length of a record that holds one of them fits its 16-bit field. */
  predicate InHeader(ce: Env, se: Env) {
    |CertificateMessage(se)| + 17 < 0x1_0000 && |SignatureMessage(ce, se)| + 17 < 0x1_0000
  }

  /** What a program must see to: names of a modest length, and messages that fit a record. */
  ghost predicate Modest(ce: Env, se: Env) {
    && Sound(ce.c) && ce.c == se.c
    && |ce.random| == 32 && |se.random| == 32 && |ce.sessionId| < 256
    && |ce.config.serverName| <= 4096 && |NamesBytes(ce.config.protos)| <= 8192
    && (forall k :: 0 <= k < |ce.config.protos| ==> |ce.config.protos[k]| < 256)
    && se.config.certificate.Some? && 4 + |se.config.certificate.value| <= MAX_SEALED_MESSAGE
    && (forall x: seq<byte> :: se.config.sign(x).Some? && 4 + |se.config.sign(x).value| <= MAX_SEALED_MESSAGE)
  }

  lemma ModestIsHonest(ce: Env, se: Env)
    requires Modest(ce, se)
    ensures Honest(ce, se) && MessagesFit(ce, se)
  {
    HelloLength(ce);
    hide Certified, ToSign;
  }

  lemma HelloLength(ce: Env)
    requires |ce.c.pub(ce.priv)| == PUB_SIZE && |ce.random| == 32 && |ce.sessionId| < 256
    requires |ce.config.serverName| <= 4096 && |NamesBytes(ce.config.protos)| <= 8192
    ensures |ExtsBytes(ClientExts(HelloOf(ce), ce.c.pub(ce.priv)))| <= 12500
    ensures |ClientHelloMessage(ce)| <= 13000
  {
    var names, alpn, pub := NameExts(ce.config.serverName), ProtocolExts(ce.config.protos), ce.c.pub(ce.priv);
    OneExtra(VERSIONS_EXT, [GroupsExt()]
        + ([Ext(EXT_KEY_SHARE, KeyShareList(pub))] + ([AlgorithmsExt()] + (names + alpn))));
    OneExtra(GroupsExt(), [Ext(EXT_KEY_SHARE, KeyShareList(pub))] + ([AlgorithmsExt()] + (names + alpn)));
    OneExtra(Ext(EXT_KEY_SHARE, KeyShareList(pub)), [AlgorithmsExt()] + (names + alpn));
    OneExtra(AlgorithmsExt(), names + alpn);
    if names == [] {
      assert names + alpn == alpn;
    } else {
      OneExtra(names[0], alpn);
      assert names == [names[0]];
    }
    if alpn != [] {
      OneExtra(alpn[0], []);
      assert [alpn[0]] + [] == alpn;
    }
  }

  lemma OneExtra(e: Ext, more: seq<Ext>)
    ensures |ExtsBytes([e] + more)| == 4 + |e.data| + |ExtsBytes(more)|
  {
    assert ([e] + more)[1..] == more;
  }

  /** Primitives with these laws exist, so there is something the results below are about. */
  lemma SomeAreModest() returns (ce: Env, se: Env)
    ensures Modest(ce, se)
  {
    var word: seq<byte> := seq(32, _ => 0);
    var c := Crypto(_ => word, (_, _) => word, (_, _, n: nat) => seq(n, _ => 0), _ => word, (_, _) => Some(word),
                    (_, _, x, _) => x + seq(TAG_SIZE, _ => 0),
                    (_, _, y, _) => if |y| < TAG_SIZE then None else Some(y[..|y| - TAG_SIZE]));
    assert Sound(c) by {
      forall k: seq<byte>, n: seq<byte>, x: seq<byte>, ad: seq<byte>
        ensures |c.aeadSeal(k, n, x, ad)| == |x| + TAG_SIZE && c.aeadOpen(k, n, c.aeadSeal(k, n, x, ad), ad) == Some(x)
      {
        var y := c.aeadSeal(k, n, x, ad);
        assert y[..|y| - TAG_SIZE] == x;
      }
    }
    var config := Config([], [], Some([]), _ => Some([]));
    ce := Env(c, config, word, [], word);
    se := ce;
  }

  /** And so do machines that are honest, but whose certificate does not fit. */
  lemma SomeDoNotFit() returns (ce: Env, se: Env)
    ensures Honest(ce, se) && InHeader(ce, se) && !MessagesFit(ce, se)
  {
    var se0;
    ce, se0 := SomeAreModest();
    HelloLength(ce);
    se := se0.(config := se0.config.(certificate := Some(seq(MAX_SEALED_MESSAGE, _ => 0))));
    hide Certified, ToSign;
  }

  // ---- one handshake message in one record --------------------------------------------------------

  lemma MessageRuns(env: Env, m: Machine, h: Handshake)
    requires m.hsBuf == [] && |h.payload| <= MAX_HANDSHAKE && OnHandshake(env, m, h).1.None?
    ensures OnHandshakeBytes(env, m, HandshakeBytes(h)) == (OnHandshake(env, m, h).0.(hsBuf := []), None)
  {
    CutHandshakeLawful();
    CutUndoesHandshake();
    OneGoodHandshake(h);
    hide *;
    ParserUndoesPrinter(CutHandshake, OnMessage(env), HandshakeBytes, HandshakeOk, SameH, (), m, [h]);
    OneItem(env, m, h);
    Unfold(env, m, HandshakeBytes(h));
  }

  lemma OneGoodHandshake(h: Handshake)
    requires |h.payload| <= MAX_HANDSHAKE
    ensures AllOk(HandshakeOk, SameH, (), [h])
  {
    assert [h][1..] == [];
  }

  lemma OneItem(env: Env, m: Machine, h: Handshake)
    ensures PrintAll(HandshakeBytes, [h]) == HandshakeBytes(h)
    ensures Fold(OnMessage(env), m, [h]) == OnHandshake(env, m, h)
  {
    hide HandshakeBytes, OnHandshake;
    assert [h][1..] == [] && HandshakeBytes(h) + [] == HandshakeBytes(h);
    var r := OnHandshake(env, m, h);
    assert r.1.None? ==> Fold(OnMessage(env), r.0, []) == (r.0, None);
  }

  lemma Unfold(env: Env, m: Machine, bytes: seq<byte>)
    requires m.hsBuf == []
    ensures Lawful(CutHandshake)
    ensures var r := Run(CutHandshake, OnMessage(env), (), m, bytes);
            OnHandshakeBytes(env, m, bytes) == (r.h.(hsBuf := bytes[r.consumed..]), r.error)
            && bytes[|bytes|..] == []
  {
    CutHandshakeLawful();
    hide Run, CutHandshake, Lawful;
    assert [] + bytes == bytes;
  }

  // ---- the hellos ---------------------------------------------------------------------------------------

  function Shared(ce: Env, se: Env): seq<byte> {
    var s := se.c.dh(se.priv, ce.c.pub(ce.priv));
    if s.Some? then s.value else []
  }

  function HelloBodyOf(ce: Env): seq<byte> {
    ClientHelloBody(HelloOf(ce), ce.c.pub(ce.priv))
  }

  function AnswerBodyOf(ce: Env, se: Env): seq<byte> {
    ServerHelloBody(AnswerOf(se, ce.sessionId, AES_128_GCM_SHA256), se.c.pub(se.priv))
  }

  function AnswerMessage(ce: Env, se: Env): seq<byte> {
    HandshakeBytes(Handshake(SERVER_HELLO, AnswerBodyOf(ce, se)))
  }

  /** The transcript at ServerHello, the same on both sides. */
  function AtServerHello(ce: Env, se: Env): seq<byte> {
    ClientHelloMessage(ce) + AnswerMessage(ce, se)
  }

  /** The server when it has answered: keys, but nothing protected yet. */
  function Answered(ce: Env, se: Env): Machine {
    var m := NewMachine(false).(suite := AES_128_GCM_SHA256, alpn := Negotiate(ce.config.protos, se.config.protos),
                                transcript := AtServerHello(ce, se), out := [Plain(HANDSHAKE, AnswerMessage(ce, se))]);
    HandshakeKeys(se, m, Shared(ce, se)).(out := [Plain(HANDSHAKE, AnswerMessage(ce, se)), CCS])
  }

  lemma ServerAnswers(ce: Env, se: Env)
    requires Honest(ce, se)
    ensures AnswerHello(se, NewMachine(false), HelloBodyOf(ce)) == (Answered(ce, se), None)
  {
    hide Honest, Sound, ClientHelloBody, ServerHelloBody, HandshakeBytes, ParseClientHello, ClientKeyShare, Negotiate,
        HandshakeKeys, AnswerHello, Shared;
    HelloReadBack(ce, se);
    ParsedAnswer(se, HelloBodyOf(ce), HelloOf(ce), ce.c.pub(ce.priv), Shared(ce, se));
    assert [] + ClientHelloMessage(ce) == ClientHelloMessage(ce);
  }

  /** The server finds in an honest hello all that it answers to. */
  lemma HelloReadBack(ce: Env, se: Env)
    requires Honest(ce, se)
    ensures ParseClientHello(HelloBodyOf(ce)) == Some(HelloOf(ce))
              && ClientKeyShare(HelloBodyOf(ce)) == Some(ce.c.pub(ce.priv))
    ensures AES_128_GCM_SHA256 in HelloOf(ce).suites && se.c.dh(se.priv, ce.c.pub(ce.priv)) == Some(Shared(ce, se))
  {
    hide ClientHelloBody, ParseClientHello, ClientKeyShare, HelloOk, ClientHelloMessage;
    ClientHelloRoundTrip(HelloOf(ce), ce.c.pub(ce.priv));
    assert HelloOf(ce).suites[0] == AES_128_GCM_SHA256;
    assert se.c.dh(se.priv, ce.c.pub(ce.priv)).Some?;
  }

  /** What a server makes of a hello it can read. */
  lemma ParsedAnswer(env: Env, payload: seq<byte>, ch: ClientHello, pub: seq<byte>, shared: seq<byte>)
    requires ParseClientHello(payload) == Some(ch) && ClientKeyShare(payload) == Some(pub)
    requires AES_128_GCM_SHA256 in ch.suites && env.c.dh(env.priv, pub) == Some(shared)
    ensures var msg := ServerHelloMessage(env, ch.sessionId, AES_128_GCM_SHA256);
            var m := NewMachine(false).(suite := AES_128_GCM_SHA256, alpn := Negotiate(ch.alpn, env.config.protos),
                                        transcript := [] + HandshakeBytes(Handshake(CLIENT_HELLO, payload)) + msg,
                                            out := [Plain(HANDSHAKE, msg)]);
            AnswerHello(env, NewMachine(false), payload)
                == (HandshakeKeys(env, m, shared).(out := [Plain(HANDSHAKE, msg), CCS]), None)
  {
    hide ParseClientHello, ClientKeyShare, Negotiate, HandshakeKeys, HandshakeBytes, ServerHelloMessage;
    var msg := ServerHelloMessage(env, ch.sessionId, AES_128_GCM_SHA256);
    var r := Plain(HANDSHAKE, msg);
    assert [] + [r] == [r] && [r] + [CCS] == [r, CCS];
    var m := NewMachine(false).(suite := AES_128_GCM_SHA256, alpn := Negotiate(ch.alpn, env.config.protos),
                                transcript := [] + HandshakeBytes(Handshake(CLIENT_HELLO, payload)) + msg, out := [r]);
    KeysKeepOutput(env, m, shared);
  }

  lemma KeysKeepOutput(env: Env, m: Machine, shared: seq<byte>)
    ensures HandshakeKeys(env, m, shared).out == m.out
  {
  }

  /** The client when it has sent its hello, and when it has read the server's. */
  function Started(ce: Env): Machine {
    Start(ce, NewMachine(true)).(out := [])
  }

  function Greeted(ce: Env, se: Env): Machine {
    var m := Started(ce).(suite := AES_128_GCM_SHA256, transcript := AtServerHello(ce, se));
    HandshakeKeys(ce, m, Shared(ce, se)).(phase := WaitEncryptedExtensions)
  }

  lemma ClientGreets(ce: Env, se: Env)
    requires Honest(ce, se)
    ensures OnServerHello(ce, Started(ce), AnswerBodyOf(ce, se)) == (Greeted(ce, se), None)
  {
    ServerHelloRoundTrip(AnswerOf(se, ce.sessionId, AES_128_GCM_SHA256), se.c.pub(se.priv));
    assert ce.c.dh(ce.priv, se.c.pub(se.priv)) == Some(Shared(ce, se));
    hide Sound, HelloOk, ClientHelloBody, ServerHelloBody, HandshakeBytes, ParseServerHello, ServerKeyShare,
        DeriveSecret, HandshakeSecret, NewProtector;
    assert [] + ClientHelloMessage(ce) == ClientHelloMessage(ce);
  }

  // ---- the server's flight, heard by the client --------------------------------------------------------------

  /** The server and the client between two messages of the flight: one transcript, secrets
      crosswise, and key objects with equal numbers. */
  ghost predicate Paired(s: Machine, c: Machine) {
    && !s.isClient && c.isClient && c.hsBuf == [] && s.hsBuf == [] && !s.failed && !c.failed
         && s.plaintext == c.plaintext == []
    && s.transcript == c.transcript && s.suite == c.suite
    && s.handshakeSecret.Some? && s.handshakeSecret == c.handshakeSecret
    && s.hsWriteSecret == c.hsReadSecret && s.hsReadSecret == c.hsWriteSecret
    && |s.objs| == 2 && |c.objs| == 2
    && s.hsWrite == Some(0) && s.read == Some(1) && c.hsWrite == Some(0) && c.read == Some(1)
    && s.objs[0] == c.objs[1] && s.objs[1] == c.objs[0]
    && |s.objs[0].iv| == IV_SIZE && |s.objs[1].iv| == IV_SIZE && s.objs[0].count < 8 && s.objs[1].count == 0
  }

  lemma HellosPair(ce: Env, se: Env)
    requires Honest(ce, se)
    ensures Paired(Answered(ce, se), Greeted(ce, se)) && Answered(ce, se).objs[0].count == 0
    ensures Greeted(ce, se).phase == WaitEncryptedExtensions && Greeted(ce, se).out == []
  {
    hide HelloOk, AtServerHello, AnswerMessage, Negotiate, ExpandLabel, HandshakeSecret, DeriveSecret;
    ProtectorShape(ce.c, Answered(ce, se).hsWriteSecret);
    ProtectorShape(ce.c, Answered(ce, se).hsReadSecret);
  }

  lemma ProtectorShape(c: Crypto, secret: seq<byte>)
    requires Sound(c)
    ensures |NewProtector(c, secret).iv| == IV_SIZE && NewProtector(c, secret).count == 0
  {
  }

  /** A protected handshake message reaches the other side's handshake parser unchanged. */
  lemma SayReaches(se: Env, ce: Env, s: Machine, c: Machine, h: Handshake)
    requires Sound(ce.c) && ce.c == se.c && 4 + |h.payload| <= MAX_SEALED_MESSAGE
    requires c.hsBuf == [] && s.hsWrite.Some? && s.hsWrite.value < |s.objs| && c.read.Some? && c.read.value < |c.objs|
    requires s.objs[s.hsWrite.value] == c.objs[c.read.value] && |s.objs[s.hsWrite.value].iv| >= 8
               && s.objs[s.hsWrite.value].count < SEQ_LIMIT
    ensures var s' := Say(se, s, HandshakeBytes(h));
            var p := s.objs[s.hsWrite.value];
            var c1 := c.(objs := c.objs[c.read.value := p.(count := p.count + 1)]);
            && |s'.out| == |s.out| + 1 && s'.out[..|s.out|] == s.out
            && RecordOk((), s'.out[|s.out|])
            && s' == s.(objs := s.objs[s.hsWrite.value := p.(count := p.count + 1)], out := s'.out, used := s'.used,
                        transcript := s.transcript + HandshakeBytes(h))
            && OnRecord(ce, c, s'.out[|s.out|]) == OnHandshakeBytes(ce, c1, HandshakeBytes(h))
  {
    var p := s.objs[s.hsWrite.value];
    var msg := HandshakeBytes(h);
    assert |msg| == 4 + |h.payload|;
    hide HandshakeBytes, OnHandshakeBytes, Sound, Nonce, AdditionalData;
    OpenUndoesSeal(ce.c, p, HANDSHAKE, msg);
    hide Seal, Open;
  }

  /** What a client does with the messages of the flight before Finished. */
  lemma FlightHeard(ce: Env, c: Machine, h: Handshake)
    requires h.typ == ENCRYPTED_EXTENSIONS || h.typ == CERTIFICATE || h.typ == CERTIFICATE_VERIFY
    requires c.isClient
    ensures var (c', e) := OnHandshake(ce, c, h);
            && e.None?
            && c' == c.(transcript := c.transcript + HandshakeBytes(h), phase := c'.phase, alpn := c'.alpn)
            && c'.alpn == (if h.typ == ENCRYPTED_EXTENSIONS then ParseAlpnServerExtension(h.payload) else c.alpn)
  {
    hide HandshakeBytes, ParseAlpnServerExtension, OnClientHello, OnServerHello, OnFinished;
  }

  /** Both sides have moved one number on and added one message to the transcript. */
  lemma StillPaired(s: Machine, c: Machine, s': Machine, c': Machine, msg: seq<byte>)
    requires Paired(s, c) && s.objs[0].count < 6
    requires var p := s.objs[0].(count := s.objs[0].count + 1);
             && s' == s.(objs := s.objs[0 := p], out := s'.out, used := s'.used, transcript := s.transcript + msg)
             && c' == c.(objs := c.objs[1 := p], transcript := c.transcript + msg, phase := c'.phase, alpn := c'.alpn)
    ensures Paired(s', c') && s'.objs[0].count == s.objs[0].count + 1
  {
  }

  /** EncryptedExtensions, Certificate and CertificateVerify keep the pair. */
  lemma FlightMessage(se: Env, ce: Env, s: Machine, c: Machine, h: Handshake)
    requires Sound(ce.c) && ce.c == se.c && Paired(s, c) && s.objs[0].count < 6 && 4 + |h.payload| <= MAX_SEALED_MESSAGE
    requires h.typ == ENCRYPTED_EXTENSIONS || h.typ == CERTIFICATE || h.typ == CERTIFICATE_VERIFY
    ensures var s' := Say(se, s, HandshakeBytes(h));
            && |s'.out| == |s.out| + 1 && s'.out[..|s.out|] == s.out && RecordOk((), s'.out[|s.out|])
            && var (c', e) := OnRecord(ce, c, s'.out[|s.out|]);
               && e.None? && Paired(s', c') && s'.objs[0].count == s.objs[0].count + 1 && c'.out == c.out
               && s'.alpn == s.alpn
               && c'.alpn == (if h.typ == ENCRYPTED_EXTENSIONS then ParseAlpnServerExtension(h.payload) else c.alpn)
  {
    hide OnRecord, Say, HandshakeBytes, Sound, RecordOk, ParseAlpnServerExtension, OnHandshake, OnHandshakeBytes;
    SayReaches(se, ce, s, c, h);
    var p := s.objs[0].(count := s.objs[0].count + 1);
    var c1 := c.(objs := c.objs[1 := p]);
    FlightHeard(ce, c1, h);
    MessageRuns(ce, c1, h);
    var c' := OnHandshake(ce, c1, h).0.(hsBuf := []);
    StillPaired(s, c, Say(se, s, HandshakeBytes(h)), c', HandshakeBytes(h));
    hide Paired;
  }

  // ---- the two Finished messages ------------------------------------------------------------------------------

  function AppOf(env: Env, m: Machine): AppSecrets {
    var master := MasterSecret(env.c, if m.handshakeSecret.Some? then m.handshakeSecret.value else []);
    AppSecrets(DeriveSecret(env.c, master, WriteLabel(m.isClient, "ap"), Hash(env, m)),
               DeriveSecret(env.c, master, WriteLabel(!m.isClient, "ap"), Hash(env, m)))
  }

  /** Derived at the same point of the same transcript, one side's secrets are the other's
      crosswise. */
  lemma AppCrossed(se: Env, ce: Env, s: Machine, c: Machine)
    requires ce.c == se.c && !s.isClient && c.isClient && s.transcript == c.transcript
               && s.handshakeSecret == c.handshakeSecret
    ensures AppOf(se, s).write == AppOf(ce, c).read && AppOf(se, s).read == AppOf(ce, c).write
  {
    hide DeriveSecret, MasterSecret;
  }

  function FinishedBody(env: Env, m: Machine): Handshake {
    Handshake(FINISHED, FinishedData(env.c, m.hsWriteSecret, Hash(env, m)))
  }

  /** The server behind its Finished. */
  lemma ServerFlightEnds(se: Env, s: Machine)
    requires s.handshakeSecret.Some?
    ensures var s1 := Say(se, s, HandshakeBytes(FinishedBody(se, s)));
            s1.handshakeSecret == s.handshakeSecret ==>
              FlightEnd(se, s) == (s1.(app := Some(AppOf(se, s1)), phase := WaitFinished), None)
  {
    hide DeriveSecret, MasterSecret, Say, HandshakeBytes, FinishedData;
  }

  /** The client that has accepted the server's Finished, before it sends its own. */
  function Accepted(ce: Env, c: Machine, data: seq<byte>): Machine {
    var m := Hear(c, FINISHED, data);
    m.(app := Some(AppOf(ce, m)), out := m.out + [CCS])
  }

  function Switched(env: Env, m: Machine, app: AppSecrets): Machine {
    m.(objs := m.objs + [NewProtector(env.c, app.write), NewProtector(env.c, app.read)],
       write := Some(|m.objs|), read := Some(|m.objs| + 1), phase := Established)
  }

  lemma ClientFinishes(ce: Env, c: Machine, data: seq<byte>)
    requires c.isClient && c.handshakeSecret.Some? && data == FinishedData(ce.c, c.hsReadSecret, Hash(ce, c))
    ensures var m := Accepted(ce, c, data);
            var m' := Say(ce, m, HandshakeBytes(FinishedBody(ce, m)));
            m'.app == m.app ==> OnFinished(ce, c, data) == (Switched(ce, m', m.app.value), None)
  {
    hide DeriveSecret, MasterSecret, Say, HandshakeBytes, FinishedData, NewProtector;
  }

  lemma ServerFinishes(se: Env, s: Machine, data: seq<byte>)
    requires !s.isClient && s.app.Some? && data == FinishedData(se.c, s.hsReadSecret, Hash(se, s))
    ensures OnFinished(se, s, data) == (Switched(se, Hear(s, FINISHED, data), s.app.value), None)
  {
    hide DeriveSecret, MasterSecret, HandshakeBytes, FinishedData, NewProtector;
  }

  lemma DataSize(c: Crypto, base: seq<byte>, th: seq<byte>)
    requires Sound(c)
    ensures |FinishedData(c, base, th)| == HASH_SIZE
  {
    hide ExpandLabel;
  }

  /** The client hears the server's Finished: it accepts it, and its own Finished is under way. */
  lemma FinishedHeard(se: Env, ce: Env, s: Machine, c: Machine)
    requires Sound(ce.c) && ce.c == se.c && Paired(s, c)
    ensures var s1 := Say(se, s, HandshakeBytes(FinishedBody(se, s)));
            && |s1.out| == |s.out| + 1 && s1.out[..|s.out|] == s.out && RecordOk((), s1.out[|s.out|])
            && FlightEnd(se, s) == (s1.(app := Some(AppOf(se, s1)), phase := WaitFinished), None)
            && s1 == s.(objs := s1.objs, out := s1.out, used := s1.used, transcript := s1.transcript)
            && |s1.objs| == 2 && s1.objs[1] == s.objs[1] && s1.objs[0] == s.objs[0].(count := s.objs[0].count + 1)
            && var data := FinishedBody(se, s).payload;
               var c1 := c.(objs := c.objs[1 := s1.objs[0]]);
               var m := Accepted(ce, c1, data);
               && m.transcript == s1.transcript
               && OnRecord(ce, c, s1.out[|s.out|]) ==
                    (Switched(ce, Say(ce, m, HandshakeBytes(FinishedBody(ce, m))), m.app.value).(hsBuf := []), None)
  {
    hide OnRecord, HandshakeBytes, Sound, RecordOk, OnHandshakeBytes, FinishedData, DeriveSecret, MasterSecret,
        NewProtector, OnFinished;
    var h := FinishedBody(se, s);
    DataSize(ce.c, s.hsWriteSecret, Hash(se, s));
    SayReaches(se, ce, s, c, h);
    ServerFlightEnds(se, s);
    var s1 := Say(se, s, HandshakeBytes(h));
    var c1 := c.(objs := c.objs[1 := s1.objs[0]]);
    ClientFinishes(ce, c1, h.payload);
    var m := Accepted(ce, c1, h.payload);
    SayApp(ce, m, HandshakeBytes(FinishedBody(ce, m)));
    hide Say, Accepted, Switched;
    assert OnHandshake(ce, c1, h) == OnFinished(ce, c1, h.payload) by { hide OnClientHello, OnServerHello; }
    hide OnHandshake;
    MessageRuns(ce, c1, h);
  }

  lemma SayApp(env: Env, m: Machine, msg: seq<byte>)
    ensures Say(env, m, msg).app == m.app
  {
    hide Seal;
  }

  /** The server hears the client's Finished. */
  lemma FinishedAnswered(se: Env, ce: Env, s: Machine, m: Machine)
    requires Sound(ce.c) && ce.c == se.c && !s.isClient && s.hsBuf == [] && s.app.Some?
    requires m.hsWrite == Some(0) && s.read == Some(1) && |m.objs| == 2 && |s.objs| == 2 && m.objs[0] == s.objs[1]
    requires |m.objs[0].iv| == IV_SIZE && m.objs[0].count == 0
    requires m.transcript == s.transcript && m.hsWriteSecret == s.hsReadSecret
    ensures var m1 := Say(ce, m, HandshakeBytes(FinishedBody(ce, m)));
            var data := FinishedBody(ce, m).payload;
            && |m1.out| == |m.out| + 1 && m1.out[..|m.out|] == m.out && RecordOk((), m1.out[|m.out|])
            && m1 == m.(objs := m1.objs, out := m1.out, used := m1.used,
                 transcript := m.transcript + HandshakeBytes(FinishedBody(ce, m)))
            && |m1.objs| == 2
            && var s1 := s.(objs := s.objs[1 := m1.objs[0]]);
               OnRecord(se, s, m1.out[|m.out|])
                   == (Switched(se, Hear(s1, FINISHED, data), s.app.value).(hsBuf := []), None)
  {
    hide OnRecord, HandshakeBytes, Sound, RecordOk, OnHandshakeBytes, FinishedData, DeriveSecret, MasterSecret,
        NewProtector, OnFinished;
    var h := FinishedBody(ce, m);
    DataSize(ce.c, m.hsWriteSecret, Hash(ce, m));
    SayReaches(ce, se, m, s, h);
    var m1 := Say(ce, m, HandshakeBytes(h));
    var s1 := s.(objs := s.objs[1 := m1.objs[0]]);
    ServerFinishes(se, s1, h.payload);
    hide Say, Switched;
    assert OnHandshake(se, s1, h) == OnFinished(se, s1, h.payload) by { hide OnClientHello, OnServerHello; }
    hide OnHandshake;
    MessageRuns(se, s1, h);
  }

  /** Both sides at the end: one transcript, one suite, one protocol, secrets crosswise, and
      for each direction the same key, iv and number on both sides. */
  ghost predicate Crossed(s: Machine, c: Machine) {
    && s.phase == Established && c.phase == Established && !s.failed && !c.failed
    && s.transcript == c.transcript && s.suite == c.suite && s.hsBuf == [] && c.hsBuf == []
    && s.plaintext == [] && c.plaintext == []
    && s.hsWriteSecret == c.hsReadSecret && s.hsReadSecret == c.hsWriteSecret
    && s.app.Some? && c.app.Some? && s.app.value.write == c.app.value.read && s.app.value.read == c.app.value.write
    && |s.objs| == 4 && |c.objs| == 4
    && s.write == Some(2) && s.read == Some(3) && c.write == Some(2) && c.read == Some(3)
    && s.objs[2] == c.objs[3] && s.objs[3] == c.objs[2] && s.objs[2].count == 0 && s.objs[3].count == 0
    && |s.objs[2].iv| == IV_SIZE && |s.objs[3].iv| == IV_SIZE
  }

  /** From a pair, the two Finished messages lead both sides to the end. */
  lemma FinishedCrosses(se: Env, ce: Env, s: Machine, c: Machine)
    requires Sound(ce.c) && ce.c == se.c && Paired(s, c) && c.out == []
    ensures var (s2, e) := FlightEnd(se, s);
            && e.None? && |s2.out| == |s.out| + 1 && s2.out[..|s.out|] == s.out && RecordOk((), s2.out[|s.out|])
            && var (c2, e') := OnRecord(ce, c, s2.out[|s.out|]);
               && e'.None? && |c2.out| == 2 && c2.out[0] == CCS && RecordOk((), c2.out[1])
               && var (s3, e'') := OnRecord(se, s2.(out := []), c2.out[1]);
                  && e''.None? && s3.out == [] && Crossed(s3, c2) && s3.alpn == s.alpn && c2.alpn == c.alpn
                       && s3.suite == s.suite
  {
    hide OnRecord, HandshakeBytes, Sound, RecordOk, FinishedData, DeriveSecret, MasterSecret, NewProtector, FlightEnd,
        Say;
    FinishedHeard(se, ce, s, c);
    var s1 := Say(se, s, HandshakeBytes(FinishedBody(se, s)));
    var s2 := s1.(app := Some(AppOf(se, s1)), phase := WaitFinished);
    var c1 := c.(objs := c.objs[1 := s1.objs[0]]);
    var m := Accepted(ce, c1, FinishedBody(se, s).payload);
    AppCrossed(se, ce, s1, Hear(c1, FINISHED, FinishedBody(se, s).payload));
    hide AppOf;
    FinishedAnswered(se, ce, s2.(out := []), m);
    ProtectorShape(ce.c, m.app.value.write);
    ProtectorShape(ce.c, m.app.value.read);
  }

  // ---- whole flights ------------------------------------------------------------------------------------------

  /** Somewhere in the server's flight: the client has heard all records the server has made. */
  ghost predicate Stage(ce: Env, s: Machine, c: Machine, n: nat) {
    && Paired(s, c) && s.objs[0].count == n && c.out == []
    && Fold(Records(ce), Started(ce), s.out) == (c, None)
    && forall k :: 0 <= k < |s.out| ==> RecordOk((), s.out[k])
  }

  /** One more record at the end of the flight. */
  lemma OneMore(env: Env, m0: Machine, rs: seq<Record>, r: Record)
    ensures Fold(Records(env), m0, rs).1.None? ==>
              Fold(Records(env), m0, rs + [r]) == OnRecord(env, Fold(Records(env), m0, rs).0, r)
  {
    hide OnRecord;
    FoldConcat(Records(env), m0, rs, [r]);
    var m := Fold(Records(env), m0, rs).0;
    assert [r] + [] == [r];
    FoldFirst(Records(env), m, r, []);
    var m' := OnRecord(env, m, r).0;
    assert Fold(Records(env), m', []) == (m', None);
  }

  lemma StageHello(ce: Env, se: Env)
    requires Honest(ce, se)
    ensures Stage(ce, Answered(ce, se), Greeted(ce, se), 0)
  {
    hide *;
    HellosPair(ce, se);
    AnswerHeard(ce, se);
    var r := Plain(HANDSHAKE, AnswerMessage(ce, se));
    TwoRecords(ce, Started(ce), Greeted(ce, se), r, CCS);
    AnsweredOutput(ce, se);
    PairedShape(Answered(ce, se), Greeted(ce, se));
    assert [r, CCS][0] == r && [r, CCS][1] == CCS;
    StageIs(ce, Answered(ce, se), Greeted(ce, se), 0);
  }

  lemma AnsweredOutput(ce: Env, se: Env)
    ensures Answered(ce, se).out == [Plain(HANDSHAKE, AnswerMessage(ce, se)), CCS]
  {
    hide HandshakeKeys, AnswerMessage, AtServerHello;
  }

  lemma StageIs(ce: Env, s: Machine, c: Machine, n: nat)
    requires Paired(s, c) && |s.objs| == 2 && s.objs[0].count == n && c.out == []
    requires Fold(Records(ce), Started(ce), s.out) == (c, None)
    requires forall k :: 0 <= k < |s.out| ==> RecordOk((), s.out[k])
    ensures Stage(ce, s, c, n)
  {
    hide Fold, Records, Started, Paired, RecordOk;
  }

  lemma TwoRecords(env: Env, m0: Machine, m1: Machine, r: Record, r': Record)
    requires OnRecord(env, m0, r) == (m1, None) && OnRecord(env, m1, r') == (m1, None)
    ensures Fold(Records(env), m0, [r, r']) == (m1, None)
  {
    hide OnRecord;
    NewFold(env, m0);
    OneMore(env, m0, [], r);
    assert [] + [r] == [r] && [r] + [r'] == [r, r'];
    OneMore(env, m0, [r], r');
  }

  /** The two records in the clear. */
  lemma AnswerHeard(ce: Env, se: Env)
    requires Honest(ce, se)
    ensures var r := Plain(HANDSHAKE, AnswerMessage(ce, se));
            && RecordOk((), r) && RecordOk((), CCS)
            && OnRecord(ce, Started(ce), r) == (Greeted(ce, se), None)
            && OnRecord(ce, Greeted(ce, se), CCS) == (Greeted(ce, se), None)
  {
    hide *;
    ClientGreets(ce, se);
    AnswerFits(ce, se);
    var h := Handshake(SERVER_HELLO, AnswerBodyOf(ce, se));
    HelloDispatch(ce, se, Started(ce));
    EmptyParsers(ce, se);
    MessageRuns(ce, Started(ce), h);
    InTheClear(ce, Started(ce), HandshakeBytes(h));
    InTheClear(ce, Greeted(ce, se), []);
    AnswerIsMessage(ce, se);
  }

  lemma AnswerIsMessage(ce: Env, se: Env)
    ensures AnswerMessage(ce, se) == HandshakeBytes(Handshake(SERVER_HELLO, AnswerBodyOf(ce, se)))
  {
    hide HandshakeBytes, AnswerBodyOf;
  }

  lemma HelloDispatch(ce: Env, se: Env, m: Machine)
    ensures OnHandshake(ce, m, Handshake(SERVER_HELLO, AnswerBodyOf(ce, se)))
              == OnServerHello(ce, m, AnswerBodyOf(ce, se))
  {
    hide OnServerHello, OnClientHello, AnswerBodyOf, OnFinished;
  }

  lemma EmptyParsers(ce: Env, se: Env)
    ensures Started(ce).hsBuf == [] && Greeted(ce, se).hsBuf == [] && Greeted(ce, se).(hsBuf := []) == Greeted(ce, se)
  {
    hide ClientHelloMessage, AtServerHello, DeriveSecret, HandshakeSecret, NewProtector, Shared;
  }

  /** Records that are not protected. */
  lemma InTheClear(env: Env, m: Machine, payload: seq<byte>)
    ensures OnRecord(env, m, Plain(HANDSHAKE, payload)) == OnHandshakeBytes(env, m, payload)
    ensures OnRecord(env, m, CCS) == (m, None) && RecordOk((), CCS)
    ensures |payload| <= MAX_CIPHERTEXT_LEN ==> RecordOk((), Plain(HANDSHAKE, payload))
  {
    hide OnHandshakeBytes;
  }

  lemma AnswerFits(ce: Env, se: Env)
    requires Honest(ce, se)
    ensures |AnswerBodyOf(ce, se)| <= MAX_HANDSHAKE && |AnswerMessage(ce, se)| <= MAX_CIPHERTEXT_LEN
  {
    var pub := se.c.pub(se.priv);
    assert |pub| == PUB_SIZE;
    var es := ServerExts(pub);
    assert es[1..] == [es[1]] && [es[1]][1..] == [];
    assert |ExtsBytes(es)| == |ExtBytes(es[0])| + |ExtsBytes(es[1..])|;
    hide HelloOk, Sound, ClientHelloBody;
  }

  /** A message of the flight takes a stage to the next. */
  lemma NextStage(ce: Env, se: Env, s: Machine, c: Machine, n: nat, h: Handshake)
    requires Sound(ce.c) && ce.c == se.c && Stage(ce, s, c, n) && n < 6 && 4 + |h.payload| <= MAX_SEALED_MESSAGE
    requires h.typ == ENCRYPTED_EXTENSIONS || h.typ == CERTIFICATE || h.typ == CERTIFICATE_VERIFY
    ensures var s' := Say(se, s, HandshakeBytes(h));
            && |s'.out| == |s.out| + 1
            && var c' := OnRecord(ce, c, s'.out[|s.out|]).0;
               && Stage(ce, s', c', n + 1) && s'.alpn == s.alpn
               && c'.alpn == (if h.typ == ENCRYPTED_EXTENSIONS then ParseAlpnServerExtension(h.payload) else c.alpn)
  {
    hide OnRecord, Say, HandshakeBytes, Sound, RecordOk, ParseAlpnServerExtension, Paired;
    assert s.objs[0].count == n && |s.objs| == 2 by { PairedShape(s, c); }
    FlightMessage(se, ce, s, c, h);
    var s' := Say(se, s, HandshakeBytes(h));
    PairedShape(s', OnRecord(ce, c, s'.out[|s.out|]).0);
    assert s'.out == s.out + [s'.out[|s.out|]];
    OneMore(ce, Started(ce), s.out, s'.out[|s.out|]);
    hide Started;
  }

  lemma PairedShape(s: Machine, c: Machine)
    requires Paired(s, c)
    ensures |s.objs| == 2
  {
  }

  /** The whole flight: what the server makes of the client's hello, the client hears. */
  lemma FlightHeardWhole(ce: Env, se: Env)
    requires Honest(ce, se) && MessagesFit(ce, se)
    ensures var (s, e) := OnClientHello(se, NewMachine(false), HelloBodyOf(ce));
            && e.None? && (forall k :: 0 <= k < |s.out| ==> RecordOk((), s.out[k]))
            && var (c, e') := Fold(Records(ce), Started(ce), s.out);
               && e'.None? && |c.out| == 2 && c.out[0] == CCS && RecordOk((), c.out[1])
               && var (s', e'') := OnRecord(se, s.(out := []), c.out[1]);
                  && e''.None? && s'.out == [] && Crossed(s', c)
                  && s'.suite == AES_128_GCM_SHA256
                  && s'.alpn == c.alpn == Negotiate(ce.config.protos, se.config.protos)
  {
    hide *;
    ServerAnswers(ce, se);
    StageHello(ce, se);
    ChoiceFits(ce, se);
    AnsweredShape(ce, se);
    FlightThree(ce, se);
    HonestParts(ce, se);
    var (s3, c3) := ThreeSaid(ce, se, Answered(ce, se), Greeted(ce, se));
    FlightLast(ce, se, s3, c3);
    HelloThenFlight(ce, se);
  }

  lemma HonestParts(ce: Env, se: Env)
    requires Honest(ce, se)
    ensures Sound(ce.c) && ce.c == se.c
  {
  }

  lemma AnsweredShape(ce: Env, se: Env)
    ensures Answered(ce, se).alpn == Negotiate(ce.config.protos, se.config.protos)
              && Answered(ce, se).suite == AES_128_GCM_SHA256
  {
    hide AnswerMessage, AtServerHello, DeriveSecret, HandshakeSecret, Negotiate;
  }

  lemma HelloThenFlight(ce: Env, se: Env)
    ensures AnswerHello(se, NewMachine(false), HelloBodyOf(ce)) == (Answered(ce, se), None) ==>
              OnClientHello(se, NewMachine(false), HelloBodyOf(ce)) == Flight(se, Answered(ce, se))
  {
    hide AnswerHello, Flight, Answered, HelloBodyOf;
  }

  /** The server and the client when three messages have been said and heard. */
  ghost function ThreeSaid(ce: Env, se: Env, s: Machine, c: Machine): (Machine, Machine) {
    var (s1, c1) := SaidOne(ce, se, s, c, Handshake(ENCRYPTED_EXTENSIONS, AlpnServerExtension(s.alpn)));
    var (s2, c2) := SaidOne(ce, se, s1, c1,
        Handshake(CERTIFICATE, if se.config.certificate.Some? then se.config.certificate.value else []));
    var sig := se.config.sign(ToSign(se, s2));
    SaidOne(ce, se, s2, c2, Handshake(CERTIFICATE_VERIFY, if sig.Some? then sig.value else []))
  }

  ghost function SaidOne(ce: Env, se: Env, s: Machine, c: Machine, h: Handshake): (Machine, Machine) {
    var s' := Say(se, s, HandshakeBytes(h));
    (s', if |s'.out| == |s.out| + 1 then OnRecord(ce, c, s'.out[|s.out|]).0 else c)
  }

  lemma FlightThree(ce: Env, se: Env)
    requires Honest(ce, se) && MessagesFit(ce, se) && Stage(ce, Answered(ce, se), Greeted(ce, se), 0)
    requires 4 + |AlpnServerExtension(Answered(ce, se).alpn)| <= MAX_SEALED_MESSAGE
    ensures var s0 := Answered(ce, se);
            var (s3, c3) := ThreeSaid(ce, se, s0, Greeted(ce, se));
            && Stage(ce, s3, c3, 3) && s3.alpn == s0.alpn && s3.suite == s0.suite
            && c3.alpn == ParseAlpnServerExtension(AlpnServerExtension(s0.alpn))
            && Flight(se, s0) == FlightEnd(se, s3)
  {
    hide OnRecord, Say, HandshakeBytes, Sound, HelloOk, ParseAlpnServerExtension, AlpnServerExtension, Stage,
        FlightEnd, ClientHelloMessage, ToSign, Answered, Greeted;
    var s0 := Answered(ce, se);
    TwoHeard(ce, se);
    var h1 := Handshake(ENCRYPTED_EXTENSIONS, AlpnServerExtension(s0.alpn));
    SaySuite(se, s0, HandshakeBytes(h1));
    var (s1, c1) := SaidOne(ce, se, s0, Greeted(ce, se), h1);
    var h2 := Handshake(CERTIFICATE, se.config.certificate.value);
    SaySuite(se, s1, HandshakeBytes(h2));
    var (s2, c2) := SaidOne(ce, se, s1, c1, h2);
    var h3 := Handshake(CERTIFICATE_VERIFY, se.config.sign(ToSign(se, s2)).value);
    MessageLength(h3);
    NextStage(ce, se, s2, c2, 2, h3);
    SaySuite(se, s2, HandshakeBytes(h3));
  }

  /** The client has heard EncryptedExtensions. */
  lemma OneHeard(ce: Env, se: Env)
    requires Honest(ce, se) && Stage(ce, Answered(ce, se), Greeted(ce, se), 0)
    requires 4 + |AlpnServerExtension(Answered(ce, se).alpn)| <= MAX_SEALED_MESSAGE
    ensures var s0 := Answered(ce, se);
            var (s1, c1) := SaidOne(ce, se, s0, Greeted(ce, se),
                Handshake(ENCRYPTED_EXTENSIONS, AlpnServerExtension(s0.alpn)));
            Stage(ce, s1, c1, 1) && c1.alpn == ParseAlpnServerExtension(AlpnServerExtension(s0.alpn))
                && s1 == Say(se, s0, ExtensionsMessage(s0))
  {
    hide OnRecord, Say, HandshakeBytes, Sound, HelloOk, ParseAlpnServerExtension, AlpnServerExtension, Stage,
        ClientHelloMessage, Answered, Greeted;
    NextStage(ce, se, Answered(ce, se), Greeted(ce, se), 0,
        Handshake(ENCRYPTED_EXTENSIONS, AlpnServerExtension(Answered(ce, se).alpn)));
  }

  /** And the certificate, when it fits. */
  lemma TwoHeard(ce: Env, se: Env)
    requires Honest(ce, se) && |CertificateMessage(se)| <= MAX_SEALED_MESSAGE
               && Stage(ce, Answered(ce, se), Greeted(ce, se), 0)
    requires 4 + |AlpnServerExtension(Answered(ce, se).alpn)| <= MAX_SEALED_MESSAGE
    ensures var s0 := Answered(ce, se);
            var (s1, c1) := SaidOne(ce, se, s0, Greeted(ce, se),
                Handshake(ENCRYPTED_EXTENSIONS, AlpnServerExtension(s0.alpn)));
            var (s2, c2) := SaidOne(ce, se, s1, c1, Handshake(CERTIFICATE, se.config.certificate.value));
            Stage(ce, s2, c2, 2) && c2.alpn == ParseAlpnServerExtension(AlpnServerExtension(s0.alpn))
                && s2 == Certified(ce, se)
  {
    hide OnRecord, Say, HandshakeBytes, Sound, HelloOk, ParseAlpnServerExtension, AlpnServerExtension, Stage,
        ClientHelloMessage, Answered, Greeted, ExtensionsMessage;
    OneHeard(ce, se);
    var s0 := Answered(ce, se);
    var (s1, c1) := SaidOne(ce, se, s0, Greeted(ce, se), Handshake(ENCRYPTED_EXTENSIONS, AlpnServerExtension(s0.alpn)));
    MessageLength(Handshake(CERTIFICATE, se.config.certificate.value));
    NextStage(ce, se, s1, c1, 1, Handshake(CERTIFICATE, se.config.certificate.value));
  }

  lemma MessageLength(h: Handshake)
    ensures |HandshakeBytes(h)| == 4 + |h.payload|
  {
  }

  lemma SaySuite(env: Env, m: Machine, msg: seq<byte>)
    ensures Say(env, m, msg).suite == m.suite && Say(env, m, msg).alpn == m.alpn
  {
    hide Seal;
  }

  lemma ChoiceFits(ce: Env, se: Env)
    requires Honest(ce, se)
    ensures var p := Negotiate(ce.config.protos, se.config.protos);
            && |p| < 256 && ParseAlpnServerExtension(AlpnServerExtension(p)) == p
                 && 4 + |AlpnServerExtension(p)| <= MAX_SEALED_MESSAGE
  {
    var p := Negotiate(ce.config.protos, se.config.protos);
    assert AlpnOk(HelloOf(ce).alpn);
    hide Negotiate, HelloOk, Sound, ClientHelloBody, HandshakeBytes;
    assert |p| < 256 by {
      if p != [] {
        var k :| 0 <= k < |ce.config.protos| && ce.config.protos[k] == p;
      }
    }
    AlpnAnswerRoundTrip(p);
    if p != [] { OneName(p); }
  }

  /** Finished, at the end of a flight that the client has heard so far. */
  lemma FlightLast(ce: Env, se: Env, s: Machine, c: Machine)
    requires Sound(ce.c) && ce.c == se.c && Stage(ce, s, c, 3)
    ensures var (s2, e) := FlightEnd(se, s);
            && e.None? && (forall k :: 0 <= k < |s2.out| ==> RecordOk((), s2.out[k]))
            && var (c2, e') := Fold(Records(ce), Started(ce), s2.out);
               && e'.None? && |c2.out| == 2 && c2.out[0] == CCS && RecordOk((), c2.out[1])
               && var (s3, e'') := OnRecord(se, s2.(out := []), c2.out[1]);
                  && e''.None? && s3.out == [] && Crossed(s3, c2) && s3.alpn == s.alpn && c2.alpn == c.alpn
                       && s3.suite == s.suite
  {
    hide OnRecord, Sound, RecordOk, Paired, Crossed, FlightEnd, Started;
    FinishedCrosses(se, ce, s, c);
    var s2 := FlightEnd(se, s).0;
    assert s2.out == s.out + [s2.out[|s.out|]];
    OneMore(ce, Started(ce), s.out, s2.out[|s.out|]);
  }

  // ---- on the wire ----------------------------------------------------------------------------------------

  function Wire(rs: seq<Record>): seq<byte> {
    PrintAll(RecordBytes, rs)
  }

  /** However the bytes of some records are cut, a machine does what it does with the records. */
  lemma Delivered(env: Env, m: Machine, rs: seq<Record>, chunks: seq<seq<byte>>)
    requires (forall k :: 0 <= k < |rs| ==> RecordOk((), rs[k])) && Concat(chunks) == Wire(rs)
    requires Fold(Records(env), m, rs).1.None?
    ensures Lawful(CutRecord)
    ensures var f := Feed(CutRecord, Records(env), (), m, [], chunks);
            f.h == Fold(Records(env), m, rs).0 && f.error.None? && f.rest == []
  {
    hide OnRecord;
    forall r | r in rs ensures RecordOk((), r) {
      var k :| 0 <= k < |rs| && rs[k] == r;
    }
    hide *;
    RecordChunking(Records(env), m, chunks);
    RecordsRoundTrip(Records(env), m, rs);
    WireIs(rs);
    var bytes := Concat(chunks);
    assert bytes[|bytes|..] == [];
  }

  lemma WireIs(rs: seq<Record>)
    ensures Wire(rs) == PrintAll(RecordBytes, rs)
  {
  }

  /** The three flights of a handshake. */
  function HelloFlight(ce: Env): seq<Record> {
    Start(ce, NewMachine(true)).out
  }

  ghost function ServerAfterHello(ce: Env, se: Env): Machine {
    OnClientHello(se, NewMachine(false), HelloBodyOf(ce)).0
  }

  ghost function ClientAfterFlight(ce: Env, se: Env): Machine {
    Fold(Records(ce), Started(ce), ServerAfterHello(ce, se).out).0
  }

  /** The chunks are some cutting of the three flights. */
  ghost predicate Cuts(ce: Env, se: Env, toServer: seq<seq<byte>>, toClient: seq<seq<byte>>, last: seq<seq<byte>>) {
    && Concat(toServer) == Wire(HelloFlight(ce))
    && Concat(toClient) == Wire(ServerAfterHello(ce, se).out)
    && Concat(last) == Wire(ClientAfterFlight(ce, se).out)
  }

  /** What the three flights, fed in these chunks, lead to on both sides. */
  ghost predicate Completes(ce: Env, se: Env, toServer: seq<seq<byte>>, toClient: seq<seq<byte>>, last: seq<seq<byte>>)
    requires Lawful(CutRecord)
  {
    var f1 := Feed(CutRecord, Records(se), (), NewMachine(false), [], toServer);
    && f1.error.None? && f1.rest == [] && f1.h == ServerAfterHello(ce, se)
    && var f2 := Feed(CutRecord, Records(ce), (), Started(ce), [], toClient);
       && f2.error.None? && f2.rest == [] && f2.h == ClientAfterFlight(ce, se)
       && var f3 := Feed(CutRecord, Records(se), (), f1.h.(out := []), [], last);
          && f3.error.None? && f3.rest == []
          && Crossed(f3.h, f2.h)
          && f3.h.suite == AES_128_GCM_SHA256
          && f3.h.alpn == f2.h.alpn == Negotiate(ce.config.protos, se.config.protos)
  }

  /** When both messages fit a record. */
  lemma FittingCompletes(ce: Env, se: Env, toServer: seq<seq<byte>>, toClient: seq<seq<byte>>, last: seq<seq<byte>>)
    requires Honest(ce, se) && MessagesFit(ce, se)
    ensures Lawful(CutRecord)
    ensures Cuts(ce, se, toServer, toClient, last) ==> Completes(ce, se, toServer, toClient, last)
  {
    hide Honest, MessagesFit, Wire, HelloFlight, ServerAfterHello, ClientAfterFlight, Started, NewMachine, Feed, Fold,
        Run, Concat;
    hide Crossed, Negotiate, OnClientHello, OnRecord, Records, Lawful, CutRecord;
    CutRecordLawful();
    if Cuts(ce, se, toServer, toClient, last) {
      HelloArrives(ce, se);
      FlightHeardWhole(ce, se);
      FlightNames(ce, se);
      Delivered(se, NewMachine(false), HelloFlight(ce), toServer);
      var s := ServerAfterHello(ce, se);
      Delivered(ce, Started(ce), s.out, toClient);
      var c := ClientAfterFlight(ce, se);
      LastFlight(se, s.(out := []), c.out);
      InTheClear(se, s.(out := []), []);
      Delivered(se, s.(out := []), c.out, last);
    }
  }

  // ---- a message that does not fit ---------------------------------------------------------------------------

  /** A record that is too long for its reader, but not for its header. */
  lemma TooLongIsRefused(r: Record, tail: seq<byte>)
    requires MAX_CIPHERTEXT_LEN < |r.payload| < 0x1_0000
    ensures CutRecord((), RecordBytes(r) + tail) == Fail(RecordTooLarge(|r.payload|))
  {
    var b := RecordBytes(r) + tail;
    hide FromBE, ToBE;
    assert b[3..5] == ToBE(|r.payload|, 2);
    FromTo(|r.payload|, 2) by { Powers(); }
  }

  /** A protected message is one record, seventeen bytes longer than it. */
  lemma SayLength(env: Env, s: Machine, msg: seq<byte>)
    requires Sound(env.c) && s.hsWrite.Some? && s.hsWrite.value < |s.objs|
    requires |s.objs[s.hsWrite.value].iv| >= 8 && s.objs[s.hsWrite.value].count < SEQ_LIMIT
    ensures var s' := Say(env, s, msg);
            |s'.out| == |s.out| + 1 && s.out <= s'.out && |s'.out[|s.out|].payload| == |msg| + 17
  {
    var inner := msg + [HANDSHAKE];
    assert |inner| == |msg| + 1;
    hide Nonce, AdditionalData;
  }

  lemma SayExtends(env: Env, m: Machine, msg: seq<byte>)
    ensures m.out <= Say(env, m, msg).out
  {
    hide Seal;
  }

  lemma EndExtends(env: Env, m: Machine)
    ensures m.out <= FlightEnd(env, m).0.out
  {
    SayExtends(env, m, FinishedMessage(env, m));
    hide Say, FinishedMessage, DeriveSecret, MasterSecret;
  }

  /** A client that has heard some records in full and then gets one that is too long. */
  lemma StopsAtTooLong(ce: Env, c: Machine, heard: seq<Record>, bad: Record, later: seq<Record>, chunks: seq<seq<byte>>)
    requires (forall k :: 0 <= k < |heard| ==> RecordOk((), heard[k]))
               && Fold(Records(ce), Started(ce), heard) == (c, None)
    requires MAX_CIPHERTEXT_LEN < |bad.payload| < 0x1_0000 && Concat(chunks) == Wire(heard + [bad] + later)
    ensures Lawful(CutRecord)
    ensures Feed(CutRecord, Records(ce), (), Started(ce), [], chunks).error == Some(RecordTooLarge(|bad.payload|))
  {
    forall r | r in heard ensures RecordOk((), r) {
      var k :| 0 <= k < |heard| && heard[k] == r;
    }
    TooLongIsRefused(bad, Wire(later));
    hide *;
    CutRecordLawful();
    RecordChunking(Records(ce), Started(ce), chunks);
    RecordsRoundTrip(Records(ce), Started(ce), heard);
    WireIs(heard);
    WireParts(heard, bad, later);
    var a, b := Wire(heard), RecordBytes(bad) + Wire(later);
    Resume(CutRecord, Records(ce), (), Started(ce), a, b);
    assert a[|a|..] == [] && [] + b == b;
    RefusedAtOnce(ce, Run(CutRecord, Records(ce), (), Started(ce), a).p, c, b, RecordTooLarge(|bad.payload|));
  }

  lemma WireParts(heard: seq<Record>, bad: Record, later: seq<Record>)
    ensures Wire(heard + [bad] + later) == Wire(heard) + (RecordBytes(bad) + Wire(later))
  {
    hide RecordBytes;
    PrintConcat(RecordBytes, heard, [bad] + later);
    assert heard + [bad] + later == heard + ([bad] + later);
    assert ([bad] + later)[1..] == later;
  }

  lemma RefusedAtOnce(env: Env, p: (), m: Machine, b: seq<byte>, e: Error)
    requires Lawful(CutRecord) && CutRecord(p, b) == Fail(e)
    ensures Run(CutRecord, Records(env), p, m, b) == Outcome(p, m, 0, Some(e))
  {
    hide Lawful, CutRecord, OnRecord;
  }

  /** What the server sends, message by message. */
  lemma FlightParts(ce: Env, se: Env)
    requires Honest(ce, se)
    ensures var s1 := Say(se, Answered(ce, se), ExtensionsMessage(Answered(ce, se)));
            && Certified(ce, se) == Say(se, s1, CertificateMessage(se))
            && Certified(ce, se).out <= ServerAfterHello(ce, se).out
                 && Signed(ce, se).out <= ServerAfterHello(ce, se).out
  {
    HonestSigns(ce, se);
    ServerAnswers(ce, se);
    HelloThenFlight(ce, se);
    FlightEnds(ce, se);
    EndExtends(se, Signed(ce, se));
    SignedIs(ce, se);
    SayExtends(se, Certified(ce, se), SignatureMessage(ce, se));
    hide Say, FlightEnd, Answered, Honest, ExtensionsMessage, AnswerHello, OnClientHello, HelloBodyOf, Signed,
        SignatureMessage, CertificateMessage, Flight;
  }

  lemma FlightEnds(ce: Env, se: Env)
    requires se.config.certificate.Some? && se.config.sign(ToSign(se, Certified(ce, se))).Some?
    ensures Flight(se, Answered(ce, se)) == FlightEnd(se, Signed(ce, se))
  {
    hide Say, FlightEnd, Answered, ToSign, HandshakeBytes, ExtensionsMessage;
  }

  lemma HonestSigns(ce: Env, se: Env)
    requires Honest(ce, se)
    ensures se.config.certificate.Some? && forall x: seq<byte> :: se.config.sign(x).Some?
  {
  }

  lemma StageParts(ce: Env, s: Machine, c: Machine, n: nat)
    requires Stage(ce, s, c, n) && n < 8
    ensures (forall k :: 0 <= k < |s.out| ==> RecordOk((), s.out[k]))
              && Fold(Records(ce), Started(ce), s.out) == (c, None)
    ensures s.hsWrite == Some(0) && |s.objs| == 2 && |s.objs[0].iv| >= 8 && s.objs[0].count < SEQ_LIMIT
  {
    hide Fold, Started, Records, RecordOk;
  }

  /** The flight is heard up to the message that does not fit; its record is the next one. */
  lemma TooLongComes(ce: Env, se: Env, m: Machine, c: Machine, n: nat, msg: seq<byte>, chunks: seq<seq<byte>>)
    requires Honest(ce, se) && Stage(ce, m, c, n) && n < 8 && MAX_SEALED_MESSAGE < |msg| < 0x1_0000 - 17
    requires Say(se, m, msg).out <= ServerAfterHello(ce, se).out && Concat(chunks) == Wire(ServerAfterHello(ce, se).out)
    ensures Lawful(CutRecord)
    ensures Feed(CutRecord, Records(ce), (), Started(ce), [], chunks).error.Some?
  {
    hide Stage, ServerAfterHello, Started, Say, Records, Fold, Feed, RecordOk, Wire, Lawful, CutRecord, Concat;
    StageParts(ce, m, c, n);
    assert Sound(se.c) by { HonestParts(ce, se); }
    hide Honest, Sound;
    SayLength(se, m, msg);
    var s', out := Say(se, m, msg), ServerAfterHello(ce, se).out;
    var bad, later := s'.out[|m.out|], out[|s'.out|..];
    assert s'.out == m.out + [bad];
    assert out == m.out + [bad] + later;
    StopsAtTooLong(ce, c, m.out, bad, later, chunks);
  }

  lemma TooLongFails(ce: Env, se: Env, toClient: seq<seq<byte>>)
    requires Honest(ce, se) && InHeader(ce, se) && !MessagesFit(ce, se)
               && Concat(toClient) == Wire(ServerAfterHello(ce, se).out)
    ensures Lawful(CutRecord)
    ensures Feed(CutRecord, Records(ce), (), Started(ce), [], toClient).error.Some?
  {
    hide *;
    StageHello(ce, se);
    ChoiceFits(ce, se);
    AnsweredShape(ce, se);
    FlightParts(ce, se);
    var s0 := Answered(ce, se);
    var h1 := Handshake(ENCRYPTED_EXTENSIONS, AlpnServerExtension(s0.alpn));
    OneHeard(ce, se);
    var (s1, c1) := SaidOne(ce, se, s0, Greeted(ce, se), h1);
    DoesNotFit(ce, se);
    if |CertificateMessage(se)| > MAX_CIPHERTEXT_LEN - 17 {
      TooLongComes(ce, se, s1, c1, 1, CertificateMessage(se), toClient);
    } else {
      HonestSigns(ce, se);
      TwoHeard(ce, se);
      var (s2, c2) := SaidOne(ce, se, s1, c1, Handshake(CERTIFICATE, se.config.certificate.value));
      SignedIs(ce, se);
      TooLongComes(ce, se, s2, c2, 2, SignatureMessage(ce, se), toClient);
    }
  }

  lemma SignedIs(ce: Env, se: Env)
    ensures Signed(ce, se) == Say(se, Certified(ce, se), SignatureMessage(ce, se))
  {
    hide Say, Certified, SignatureMessage;
  }

  lemma DoesNotFit(ce: Env, se: Env)
    requires InHeader(ce, se) && !MessagesFit(ce, se)
    ensures MAX_SEALED_MESSAGE == MAX_CIPHERTEXT_LEN - 17
    ensures |CertificateMessage(se)| < 0x1_0000 - 17 && |SignatureMessage(ce, se)| < 0x1_0000 - 17
    ensures |CertificateMessage(se)| > MAX_SEALED_MESSAGE || |SignatureMessage(ce, se)| > MAX_SEALED_MESSAGE
  {
    hide CertificateMessage, SignatureMessage;
  }

  /** The handshake of two honest machines, however the bytes of its three flights are cut. As far
      as the record headers can say the lengths, it completes exactly when the server's
      certificate and its signature each fit one record. To complete means: neither side meets
      an error, nothing is left over, both end Established with the same suite and protocol, the
      transcripts agree, each secret for reading is the other side's secret for writing, and the
      application key objects agree. */
  lemma HandshakeCompletes(ce: Env, se: Env, toServer: seq<seq<byte>>, toClient: seq<seq<byte>>, last: seq<seq<byte>>)
    requires Honest(ce, se) && InHeader(ce, se)
    ensures Lawful(CutRecord)
    ensures Cuts(ce, se, toServer, toClient, last) ==>
              (Completes(ce, se, toServer, toClient, last) <==> MessagesFit(ce, se))
  {
    hide Honest, InHeader, MessagesFit, Wire, HelloFlight, ServerAfterHello, ClientAfterFlight, Started, NewMachine,
        Feed, Concat;
    hide Crossed, Negotiate, Records, Lawful, CutRecord;
    CutRecordLawful();
    if Cuts(ce, se, toServer, toClient, last) {
      if MessagesFit(ce, se) {
        FittingCompletes(ce, se, toServer, toClient, last);
      } else {
        TooLongFails(ce, se, toClient);
      }
    }
  }

  lemma FlightNames(ce: Env, se: Env)
    ensures ServerAfterHello(ce, se) == OnClientHello(se, NewMachine(false), HelloBodyOf(ce)).0
    ensures ClientAfterFlight(ce, se) == Fold(Records(ce), Started(ce), ServerAfterHello(ce, se).out).0
  {
    hide OnClientHello, OnRecord, Started;
  }

  lemma HelloArrives(ce: Env, se: Env)
    requires Honest(ce, se) && MessagesFit(ce, se)
    ensures forall k :: 0 <= k < |HelloFlight(ce)| ==> RecordOk((), HelloFlight(ce)[k])
    ensures Fold(Records(se), NewMachine(false), HelloFlight(ce)) == (ServerAfterHello(ce, se), None)
  {
    hide *;
    var m := NewMachine(false);
    var r := Plain(HANDSHAKE, ClientHelloMessage(ce));
    HelloFits(ce, se);
    HelloHeard(ce, se);
    NewFold(se, m);
    OneMore(se, m, [], r);
    assert [] + [r] == [r];
  }

  lemma HelloHeard(ce: Env, se: Env)
    requires Honest(ce, se) && MessagesFit(ce, se)
    ensures OnRecord(se, NewMachine(false), Plain(HANDSHAKE, ClientHelloMessage(ce)))
              == (ServerAfterHello(ce, se), None)
    ensures RecordOk((), Plain(HANDSHAKE, ClientHelloMessage(ce)))
  {
    hide *;
    var m := NewMachine(false);
    var h := Handshake(CLIENT_HELLO, HelloBodyOf(ce));
    HelloFits(ce, se);
    FlightHeardWhole(ce, se);
    ClientDispatch(ce, se, m);
    MessageRuns(se, m, h);
    InTheClear(se, m, HandshakeBytes(h));
    KeepsParser(ce, se);
  }

  lemma HelloFits(ce: Env, se: Env)
    requires Honest(ce, se)
    ensures ClientHelloMessage(ce) == HandshakeBytes(Handshake(CLIENT_HELLO, HelloBodyOf(ce)))
    ensures |HandshakeBytes(Handshake(CLIENT_HELLO, HelloBodyOf(ce)))| == 4 + |HelloBodyOf(ce)| <= MAX_CIPHERTEXT_LEN
    ensures |HelloBodyOf(ce)| <= MAX_HANDSHAKE
    ensures HelloFlight(ce) == [Plain(HANDSHAKE, ClientHelloMessage(ce))] && NewMachine(false).hsBuf == []
  {
    hide Sound, HelloOk, ClientHelloBody;
    var r := Plain(HANDSHAKE, ClientHelloMessage(ce));
    assert [] + [r] == [r];
  }

  lemma ClientDispatch(ce: Env, se: Env, m: Machine)
    ensures OnHandshake(se, m, Handshake(CLIENT_HELLO, HelloBodyOf(ce))) == OnClientHello(se, m, HelloBodyOf(ce))
    ensures ServerAfterHello(ce, se) == OnClientHello(se, NewMachine(false), HelloBodyOf(ce)).0
  {
    hide OnServerHello, OnClientHello, HelloBodyOf, OnFinished;
  }

  lemma NewFold(env: Env, m: Machine)
    ensures Fold(Records(env), m, []) == (m, None)
  {
  }

  /** The server's handshake parser stays empty. */
  lemma KeepsParser(ce: Env, se: Env)
    requires Honest(ce, se)
    ensures ServerAfterHello(ce, se).(hsBuf := []) == ServerAfterHello(ce, se)
  {
    hide *;
    FlightNames(ce, se);
    FlightKeepsParser(se, NewMachine(false), HelloBodyOf(ce));
    NewParser();
  }

  lemma NewParser()
    ensures NewMachine(false).hsBuf == []
  {
  }

  lemma FlightKeepsParser(env: Env, m: Machine, payload: seq<byte>)
    ensures OnClientHello(env, m, payload).0.hsBuf == m.hsBuf
  {
    hide ParseClientHello, ClientKeyShare, ServerHelloMessage, DeriveSecret, HandshakeSecret, NewProtector, Negotiate,
        Flight;
    FlightParser(env, AnswerHello(env, m, payload).0);
  }

  lemma FlightParser(env: Env, m: Machine)
    ensures Flight(env, m).0.hsBuf == m.hsBuf
  {
    hide Say, ToSign, FinishedMessage, ExtensionsMessage, HandshakeBytes, DeriveSecret, MasterSecret;
    SayParser(env, m, ExtensionsMessage(m));
    var m1 := Say(env, m, ExtensionsMessage(m));
    if env.config.certificate.Some? {
      var cert := HandshakeBytes(Handshake(CERTIFICATE, env.config.certificate.value));
      SayParser(env, m1, cert);
      var m2 := Say(env, m1, cert);
      var sig := env.config.sign(ToSign(env, m2));
      if sig.Some? {
        var cv := HandshakeBytes(Handshake(CERTIFICATE_VERIFY, sig.value));
        SayParser(env, m2, cv);
        var m3 := Say(env, m2, cv);
        SayParser(env, m3, FinishedMessage(env, m3));
      }
    }
  }

  lemma SayParser(env: Env, m: Machine, msg: seq<byte>)
    ensures Say(env, m, msg).hsBuf == m.hsBuf
  {
    hide Seal;
  }

  lemma LastFlight(env: Env, m: Machine, rs: seq<Record>)
    requires |rs| == 2 && rs[0] == CCS && OnRecord(env, m, rs[1]).1.None?
    ensures Fold(Records(env), m, rs) == OnRecord(env, m, rs[1])
  {
    InTheClear(env, m, []);
    hide OnRecord;
    NewFold(env, m);
    OneMore(env, m, [], CCS);
    OneMore(env, m, [CCS], rs[1]);
    assert [] + [CCS] == [CCS] && rs == [CCS] + [rs[1]];
  }
}
