/** The TLS 1.3 state machine, for both sides (tls/state.go). */
module TlsMachine {
  import opened Bytes
  import opened Framing
  import opened TlsRecord
  import opened TlsCrypto
  import opened TlsHello

  const CHANGE_CIPHER_SPEC: byte := 20
  const ALERT: byte := 21
  const HANDSHAKE: byte := 22

  const CLIENT_HELLO: byte := 1
  const SERVER_HELLO: byte := 2
  const ENCRYPTED_EXTENSIONS: byte := 8
  const CERTIFICATE: byte := 11
  const CERTIFICATE_VERIFY: byte := 15
  const FINISHED: byte := 20
  const KEY_UPDATE: byte := 24

  const AES_128_GCM_SHA256 := 0x1301
  const AES_256_GCM_SHA384 := 0x1302
  const CHACHA20_POLY1305_SHA256 := 0x1303

  datatype Phase =
    | WaitClientHello | WaitServerHello | WaitEncryptedExtensions | WaitCertificate
    | WaitCertificateVerify | WaitServerFinished | WaitFinished | Established

  /** Certificate is the body of the Certificate message; `sign` makes the body of a
      CertificateVerify message from what is signed. */
  datatype Config = Config(
    serverName: seq<byte>, protos: seq<seq<byte>>, certificate: Option<seq<byte>>, sign: seq<byte> -> Option<seq<byte>>)

  /** The primitives, the configuration, and the random choices of one side. */
  datatype Env = Env(c: Crypto, config: Config, random: seq<byte>, sessionId: seq<byte>, priv: seq<byte>)

  datatype AppSecrets = AppSecrets(write: seq<byte>, read: seq<byte>)

  /** One use of a key object for sealing, and the number it used. */
  datatype Used = Used(ref: nat, count: nat)

  /** The key objects are kept in a list, and the fields that point to them are places in it:
      `hsWrite` and `write` may point to the same object. `out` lists the records whose bytes
      the code appends to its output. */
  datatype Machine = Machine(
    isClient: bool, phase: Phase, hsBuf: seq<byte>, transcript: seq<byte>, suite: nat, alpn: seq<byte>,
    handshakeSecret: Option<seq<byte>>, hsWriteSecret: seq<byte>, hsReadSecret: seq<byte>, app: Option<AppSecrets>,
    objs: seq<Protector>, hsWrite: Option<nat>, write: Option<nat>, read: Option<nat>,
    out: seq<Record>, plaintext: seq<byte>, failed: bool, used: seq<Used>)

  function NewMachine(isClient: bool): Machine {
    Machine(isClient, if isClient then WaitServerHello else WaitClientHello, [], [], 0, [], None, [], [], None,
            [], None, None, None, [], [], false, [])
  }

  type Result = (Machine, Option<Error>)

  function Plain(rtype: byte, payload: seq<byte>): Record {
    Record(rtype, 0x0303, payload)
  }

  const CCS := Plain(CHANGE_CIPHER_SPEC, [1])

  function Hash(env: Env, m: Machine): seq<byte> {
    env.c.hash(m.transcript)
  }

  // ---- the client's first message ------------------------------------------------------------

  function HelloOf(env: Env): ClientHello {
    ClientHello(0x0303, env.random, env.sessionId, [AES_128_GCM_SHA256, AES_256_GCM_SHA384, CHACHA20_POLY1305_SHA256],
                env.config.serverName, env.config.protos)
  }

  function ClientHelloMessage(env: Env): seq<byte> {
    HandshakeBytes(Handshake(CLIENT_HELLO, ClientHelloBody(HelloOf(env), env.c.pub(env.priv))))
  }

  function Start(env: Env, m: Machine): Machine {
    var msg := ClientHelloMessage(env);
    m.(out := m.out + [Plain(HANDSHAKE, msg)], transcript := m.transcript + msg)
  }

  // ---- protected records -----------------------------------------------------------------------

  /** The key object a field points to. */
  function At(m: Machine, ref: Option<nat>): (p: Option<Protector>)
    ensures p.Some? ==> ref.Some? && ref.value < |m.objs| && p.value == m.objs[ref.value] && |p.value.iv| >= 8
  {
    if ref.Some? && ref.value < |m.objs| && |m.objs[ref.value].iv| >= 8 then Some(m.objs[ref.value]) else None
  }

  /** A record sealed under the object at `ref`; its number moves, whoever else points to it. */
  function Sealing(env: Env, m: Machine, ref: Option<nat>, innerType: byte, content: seq<byte>)
    : Option<(Machine, Record)>
  {
    var p := At(m, ref);
    if p.None? then None
    else
      var s := Seal(env.c, p.value, innerType, content);
      if s.None? then None
      else
        Some((m.(objs := m.objs[ref.value := s.value.0], used := m.used + [Used(ref.value, p.value.count)]),
              Plain(APPLICATION_DATA, s.value.1)))
  }

  /** writeHandshake: in the clear while there is no key. */
  function WriteHandshake(env: Env, m: Machine, msg: seq<byte>): Machine {
    if At(m, m.hsWrite).None? then m.(out := m.out + [Plain(HANDSHAKE, msg)])
    else
      var s := Sealing(env, m, m.hsWrite, HANDSHAKE, msg);
      if s.None? then m.(failed := true) else s.value.0.(out := m.out + [s.value.1])
  }

  /** A handshake message that is sent, and enters the transcript behind that. */
  function Say(env: Env, m: Machine, msg: seq<byte>): Machine {
    var m' := WriteHandshake(env, m, msg);
    m'.(transcript := m.transcript + msg)
  }

  function Hear(m: Machine, typ: byte, payload: seq<byte>): Machine {
    m.(transcript := m.transcript + HandshakeBytes(Handshake(typ, payload)))
  }

  // ---- secrets -------------------------------------------------------------------------------------

  function WriteLabel(isClient: bool, stage: string): string {
    (if isClient then "c " else "s ") + stage + " traffic"
  }

  /** Handshake secrets, from the transcript up to ServerHello, and the two key objects. */
  function HandshakeKeys(env: Env, m: Machine, shared: seq<byte>): Machine {
    var hs := HandshakeSecret(env.c, shared);
    var w := DeriveSecret(env.c, hs, WriteLabel(m.isClient, "hs"), Hash(env, m));
    var r := DeriveSecret(env.c, hs, WriteLabel(!m.isClient, "hs"), Hash(env, m));
    var n := |m.objs|;
    m.(handshakeSecret := Some(hs), hsWriteSecret := w, hsReadSecret := r,
       objs := m.objs + [NewProtector(env.c, w), NewProtector(env.c, r)], hsWrite := Some(n), write := Some(n),
           read := Some(n + 1))
  }

  /** cacheApplicationSecrets: from the transcript up to the server's Finished. */
  function CacheApp(env: Env, m: Machine): Option<Machine> {
    if m.handshakeSecret.None? then None
    else
      var master := MasterSecret(env.c, m.handshakeSecret.value);
      var w := DeriveSecret(env.c, master, WriteLabel(m.isClient, "ap"), Hash(env, m));
      var r := DeriveSecret(env.c, master, WriteLabel(!m.isClient, "ap"), Hash(env, m));
      Some(m.(app := Some(AppSecrets(w, r))))
  }

  /** switchToApplicationKeys: two new objects, with numbers from zero. */
  function SwitchKeys(env: Env, m: Machine): Option<Machine> {
    if m.app.None? then None
    else
      var n := |m.objs|;
      Some(m.(objs := m.objs + [NewProtector(env.c, m.app.value.write), NewProtector(env.c, m.app.value.read)],
              write := Some(n), read := Some(n + 1)))
  }

  function FinishedMessage(env: Env, m: Machine): seq<byte> {
    HandshakeBytes(Handshake(FINISHED, FinishedData(env.c, m.hsWriteSecret, Hash(env, m))))
  }

  // ---- handshake messages ------------------------------------------------------------------------------

  function AnswerOf(env: Env, sessionId: seq<byte>, suite: nat): ServerHello {
    ServerHello(0x0303, env.random, sessionId, suite)
  }

  function ServerHelloMessage(env: Env, sessionId: seq<byte>, suite: nat): seq<byte> {
    HandshakeBytes(Handshake(SERVER_HELLO, ServerHelloBody(AnswerOf(env, sessionId, suite), env.c.pub(env.priv))))
  }

  /** onClientHello up to the keys: what the server chose, its hello, the keys, and the empty
      change of cipher. */
  function AnswerHello(env: Env, m: Machine, payload: seq<byte>): Result {
    var ch := ParseClientHello(payload);
    if m.isClient || ch.None? then (m, Some(Callback(1)))
    else
      var suite := if AES_128_GCM_SHA256 in ch.value.suites then AES_128_GCM_SHA256 else m.suite;
      var ks := ClientKeyShare(payload);
      if suite == 0 || ks.None? then (m.(suite := suite), Some(Callback(2)))
      else
        var m1 := Hear(m.(suite := suite, alpn := Negotiate(ch.value.alpn, env.config.protos)), CLIENT_HELLO, payload);
        var shared := env.c.dh(env.priv, ks.value);
        if shared.None? then (m1, Some(Callback(3)))
        else
          var msg := ServerHelloMessage(env, ch.value.sessionId, suite);
          var m2 := m1.(out := m1.out + [Plain(HANDSHAKE, msg)], transcript := m1.transcript + msg);
          var m3 := HandshakeKeys(env, m2, shared.value);
          (m3.(out := m3.out + [CCS]), None)
  }

  function ExtensionsMessage(m: Machine): seq<byte> {
    HandshakeBytes(Handshake(ENCRYPTED_EXTENSIONS, AlpnServerExtension(m.alpn)))
  }

  /** What a CertificateVerify signs (section 4.4.3 of RFC 8446). */
  function ToSign(env: Env, m: Machine): seq<byte> {
    Spaces(64) + Ascii("TLS 1.3, server CertificateVerify") + [0] + Hash(env, m)
  }

  function Spaces(n: nat): seq<byte> {
    if n == 0 then [] else [0x20] + Spaces(n - 1)
  }

  /** The server's flight behind its hello. */
  function Flight(env: Env, m: Machine): Result {
    var m1 := Say(env, m, ExtensionsMessage(m));
    if env.config.certificate.None? then (m1, Some(Callback(4)))
    else
      var m2 := Say(env, m1, HandshakeBytes(Handshake(CERTIFICATE, env.config.certificate.value)));
      var signed := env.config.sign(ToSign(env, m2));
      if signed.None? then (m2, Some(Callback(5)))
      else FlightEnd(env, Say(env, m2, HandshakeBytes(Handshake(CERTIFICATE_VERIFY, signed.value))))
  }

  function FlightEnd(env: Env, m: Machine): Result {
    var m1 := Say(env, m, FinishedMessage(env, m));
    var m2 := CacheApp(env, m1);
    if m2.None? then (m1, Some(Callback(6))) else (m2.value.(phase := WaitFinished), None)
  }

  function OnClientHello(env: Env, m: Machine, payload: seq<byte>): Result {
    var (m1, e) := AnswerHello(env, m, payload);
    if e.Some? then (m1, e) else Flight(env, m1)
  }

  function OnServerHello(env: Env, m: Machine, payload: seq<byte>): Result {
    var sh := ParseServerHello(payload);
    if !m.isClient || sh.None? then (m, Some(Callback(7)))
    else
      var m1 := m.(suite := sh.value.suite);
      var ks := ServerKeyShare(payload);
      if ks.None? then (m1, Some(Callback(8)))
      else
        var m2 := Hear(m1, SERVER_HELLO, payload);
        var shared := env.c.dh(env.priv, ks.value);
        if shared.None? then (m2, Some(Callback(9)))
        else (HandshakeKeys(env, m2, shared.value).(phase := WaitEncryptedExtensions), None)
  }

  function OnFinished(env: Env, m: Machine, payload: seq<byte>): Result {
    if payload != FinishedData(env.c, m.hsReadSecret, Hash(env, m)) then (m, Some(Callback(10)))
    else
      var m1 := Hear(m, FINISHED, payload);
      if m.isClient then
        var m2 := CacheApp(env, m1);
        if m2.None? then (m1, Some(Callback(6)))
        else
          var m3 := m2.value.(out := m2.value.out + [CCS]);
          var m4 := Say(env, m3, FinishedMessage(env, m3));
          var m5 := SwitchKeys(env, m4);
          if m5.None? then (m4, Some(Callback(11))) else (m5.value.(phase := Established), None)
      else
        var m2 := SwitchKeys(env, m1);
        if m2.None? then (m1, Some(Callback(11))) else (m2.value.(phase := Established), None)
  }

  function OnHandshake(env: Env, m: Machine, h: Handshake): Result {
    if h.typ == CLIENT_HELLO then OnClientHello(env, m, h.payload)
    else if h.typ == SERVER_HELLO then OnServerHello(env, m, h.payload)
    else if h.typ == ENCRYPTED_EXTENSIONS then
      var m1 := if m.isClient then m.(alpn := ParseAlpnServerExtension(h.payload)) else m;
      var m2 := Hear(m1, h.typ, h.payload);
      (if m.phase == WaitEncryptedExtensions then m2.(phase := WaitCertificate) else m2, None)
    else if h.typ == CERTIFICATE then
      var m1 := Hear(m, h.typ, h.payload);
      (if m.phase == WaitCertificate then m1.(phase := WaitCertificateVerify) else m1, None)
    else if h.typ == CERTIFICATE_VERIFY then
      var m1 := Hear(m, h.typ, h.payload);
      (if m.phase == WaitCertificateVerify then m1.(phase := WaitServerFinished) else m1, None)
    else if h.typ == FINISHED then OnFinished(env, m, h.payload)
    else if h.typ == KEY_UPDATE then (m, Some(Callback(12)))
    else (m, None)
  }

  function OnMessage(env: Env): (Machine, Handshake) -> Result {
    (m: Machine, h: Handshake) => OnHandshake(env, m, h)
  }

  // ---- records ------------------------------------------------------------------------------------------

  /** Handshake bytes, cut into messages behind what earlier records left over. */
  ghost function OnHandshakeBytes(env: Env, m: Machine, bytes: seq<byte>): Result {
    CutHandshakeLawful();
    var buf := m.hsBuf + bytes;
    var r := Run(CutHandshake, OnMessage(env), (), m, buf);
    (r.h.(hsBuf := buf[r.consumed..]), r.error)
  }

  function OnAlert(m: Machine, b: seq<byte>): Result {
    if |b| >= 2 && b[0] == 2 then (m, Some(Callback(13))) else (m, None)
  }

  ghost function OnRecord(env: Env, m: Machine, r: Record): Result {
    if r.rtype == HANDSHAKE then OnHandshakeBytes(env, m, r.payload)
    else if r.rtype == APPLICATION_DATA then
      var p := At(m, m.read);
      if p.None? then (m, Some(Callback(14)))
      else
        match Open(env.c, p.value, r.payload)
        case Unopened => (m, Some(Callback(15)))
        case Hollow(p') => (m.(objs := m.objs[m.read.value := p']), Some(Callback(15)))
        case Opened(p', content, innerType) =>
          var m1 := m.(objs := m.objs[m.read.value := p']);
          if innerType == HANDSHAKE then OnHandshakeBytes(env, m1, content)
          else if innerType == APPLICATION_DATA then (m1.(plaintext := m1.plaintext + content), None)
          else if innerType == ALERT then OnAlert(m1, content)
          else (m1, None)
    else if r.rtype == ALERT then OnAlert(m, r.payload)
    else (m, None)
  }

  ghost function Records(env: Env): (Machine, Record) -> Result {
    (m: Machine, r: Record) => OnRecord(env, m, r)
  }

  // ---- application data --------------------------------------------------------------------------------

  /** The records that Write makes of some plaintext, and whether it could make them all. */
  function WriteApp(env: Env, m: Machine, plain: seq<byte>): (Machine, seq<Record>, bool)
    decreases |plain|
  {
    if plain == [] then (m, [], true)
    else
      var n := if |plain| > MAX_RECORD_PAYLOAD then MAX_RECORD_PAYLOAD else |plain|;
      var s := Sealing(env, m, m.write, APPLICATION_DATA, plain[..n]);
      if s.None? then (m, [], false)
      else
        var (m', rs, ok) := WriteApp(env, s.value.0, plain[n..]);
        (m', [s.value.1] + rs, ok)
  }

  // ---- numbers are used once -----------------------------------------------------------------------------

  /** Every use was of an object that exists, has an iv and has moved on since, with a number
      that fits its field, and uses of one object have increasing numbers. */
  ghost predicate Once(objs: seq<Protector>, used: seq<Used>) {
    && (forall k :: 0 <= k < |used| ==> used[k].ref < |objs| && used[k].count < objs[used[k].ref].count)
    && (forall k :: 0 <= k < |used| ==> |objs[used[k].ref].iv| >= 8 && used[k].count < SEQ_LIMIT)
    && (forall i, j :: 0 <= i < j < |used| && used[i].ref == used[j].ref ==> used[i].count < used[j].count)
  }

  ghost predicate OnceM(m: Machine) {
    Once(m.objs, m.used)
  }

  lemma SealingOnce(env: Env, m: Machine, ref: Option<nat>, innerType: byte, content: seq<byte>)
    requires OnceM(m)
    ensures var s := Sealing(env, m, ref, innerType, content); s.Some? ==> OnceM(s.value.0)
  {
    hide Nonce, AdditionalData;
  }

  lemma SayOnce(env: Env, m: Machine, msg: seq<byte>)
    requires OnceM(m)
    ensures OnceM(Say(env, m, msg))
  {
    SealingOnce(env, m, m.hsWrite, HANDSHAKE, msg);
    hide Once, Sealing, At;
  }

  lemma MoreObjects(m: Machine, a: Protector, b: Protector)
    requires OnceM(m)
    ensures Once(m.objs + [a, b], m.used)
  {
  }

  lemma FlightOnce(env: Env, m: Machine)
    requires OnceM(m)
    ensures OnceM(Flight(env, m).0)
  {
    hide Say, Once, FinishedMessage, ExtensionsMessage, ToSign, DeriveSecret, MasterSecret, WriteLabel;
    var m1 := Say(env, m, ExtensionsMessage(m));
    SayOnce(env, m, ExtensionsMessage(m));
    if env.config.certificate.Some? {
      var cert := HandshakeBytes(Handshake(CERTIFICATE, env.config.certificate.value));
      SayOnce(env, m1, cert);
      var m2 := Say(env, m1, cert);
      var signed := env.config.sign(ToSign(env, m2));
      if signed.Some? {
        var cv := HandshakeBytes(Handshake(CERTIFICATE_VERIFY, signed.value));
        SayOnce(env, m2, cv);
        var m3 := Say(env, m2, cv);
        SayOnce(env, m3, FinishedMessage(env, m3));
      }
    }
  }

  lemma KeysOnce(env: Env, m: Machine, shared: seq<byte>)
    requires OnceM(m)
    ensures OnceM(HandshakeKeys(env, m, shared))
  {
    hide DeriveSecret, HandshakeSecret, NewProtector, WriteLabel;
    var k := HandshakeKeys(env, m, shared);
    MoreObjects(m, k.objs[|m.objs|], k.objs[|m.objs| + 1]);
    hide Once;
  }

  lemma HelloOnce(env: Env, m: Machine, payload: seq<byte>)
    requires OnceM(m)
    ensures OnceM(OnClientHello(env, m, payload).0) && OnceM(OnServerHello(env, m, payload).0)
  {
    hide Once, Flight, HandshakeKeys, ParseClientHello, ClientKeyShare, ServerHelloMessage, ParseServerHello,
        ServerKeyShare, Negotiate;
    var ch, ks := ParseClientHello(payload), ClientKeyShare(payload);
    if ch.Some? && ks.Some? {
      var suite := if AES_128_GCM_SHA256 in ch.value.suites then AES_128_GCM_SHA256 else m.suite;
      var m1 := Hear(m.(suite := suite, alpn := Negotiate(ch.value.alpn, env.config.protos)), CLIENT_HELLO, payload);
      var shared := env.c.dh(env.priv, ks.value);
      if shared.Some? {
        var msg := ServerHelloMessage(env, ch.value.sessionId, suite);
        KeysOnce(env, m1.(out := m1.out + [Plain(HANDSHAKE, msg)], transcript := m1.transcript + msg), shared.value);
      }
    }
    var a := AnswerHello(env, m, payload).0;
    assert OnceM(a);
    FlightOnce(env, a);
    var sh, ks' := ParseServerHello(payload), ServerKeyShare(payload);
    if sh.Some? && ks'.Some? {
      var m2 := Hear(m.(suite := sh.value.suite), SERVER_HELLO, payload);
      var shared := env.c.dh(env.priv, ks'.value);
      if shared.Some? { KeysOnce(env, m2, shared.value); }
    }
  }

  lemma SwitchOnce(env: Env, m: Machine)
    requires OnceM(m)
    ensures SwitchKeys(env, m).Some? ==> OnceM(SwitchKeys(env, m).value)
  {
    if m.app.Some? {
      MoreObjects(m, NewProtector(env.c, m.app.value.write), NewProtector(env.c, m.app.value.read));
    }
    hide Once, NewProtector;
  }

  lemma FinishedOnce(env: Env, m: Machine, payload: seq<byte>)
    requires OnceM(m)
    ensures OnceM(OnFinished(env, m, payload).0)
  {
    hide Say, Once, FinishedMessage, DeriveSecret, MasterSecret, WriteLabel, SwitchKeys, FinishedData;
    var m1 := Hear(m, FINISHED, payload);
    SwitchOnce(env, m1);
    var m2 := CacheApp(env, m1);
    if m2.Some? {
      var m3 := m2.value.(out := m2.value.out + [CCS]);
      SayOnce(env, m3, FinishedMessage(env, m3));
      SwitchOnce(env, Say(env, m3, FinishedMessage(env, m3)));
    }
  }

  lemma HandshakeOnce(env: Env, m: Machine, h: Handshake)
    requires OnceM(m)
    ensures OnceM(OnHandshake(env, m, h).0)
  {
    hide Once, OnClientHello, OnServerHello, OnFinished, ParseAlpnServerExtension, HandshakeBytes, CutHandshake, Seal;
    HelloOnce(env, m, h.payload);
    FinishedOnce(env, m, h.payload);
  }

  lemma {:induction false} MessagesOnce(env: Env, m: Machine, p: (), buf: seq<byte>)
    requires OnceM(m) && Lawful(CutHandshake)
    ensures OnceM(Run(CutHandshake, OnMessage(env), p, m, buf).h)
    decreases |buf|
  {
    hide Lawful, CutHandshake, Once, OnHandshake;
    Decided(CutHandshake, p, buf, []);
    var cut := CutHandshake(p, buf);
    if cut.Item? {
      HandshakeOnce(env, m, cut.item);
      MessagesOnce(env, OnHandshake(env, m, cut.item).0, cut.next, buf[cut.size..]);
    }
  }

  lemma BytesOnce(env: Env, m: Machine, bytes: seq<byte>)
    requires OnceM(m)
    ensures OnceM(OnHandshakeBytes(env, m, bytes).0)
  {
    CutHandshakeLawful();
    hide Lawful, Once, Run, CutHandshake;
    MessagesOnce(env, m, (), m.hsBuf + bytes);
  }

  /** Whatever record arrives, and whoever sent it, no number is used twice for sealing under
      one key object. */
  lemma RecordOnce(env: Env, m: Machine, r: Record)
    requires OnceM(m)
    ensures OnceM(OnRecord(env, m, r).0)
  {
    hide OnHandshakeBytes, Nonce, AdditionalData;
    var p := At(m, m.read);
    if r.rtype == HANDSHAKE {
      BytesOnce(env, m, r.payload);
    } else if r.rtype == APPLICATION_DATA && p.Some? && !Open(env.c, p.value, r.payload).Unopened? {
      var o := Open(env.c, p.value, r.payload);
      var m1 := m.(objs := m.objs[m.read.value := o.p]);
      assert OnceM(m1);
      if o.Opened? { BytesOnce(env, m1, o.content); }
    }
  }

  lemma {:induction false} WriteOnce(env: Env, m: Machine, plain: seq<byte>)
    requires OnceM(m)
    ensures OnceM(WriteApp(env, m, plain).0)
    decreases |plain|
  {
    hide Once, Sealing;
    if plain != [] {
      var n := if |plain| > MAX_RECORD_PAYLOAD then MAX_RECORD_PAYLOAD else |plain|;
      SealingOnce(env, m, m.write, APPLICATION_DATA, plain[..n]);
      var s := Sealing(env, m, m.write, APPLICATION_DATA, plain[..n]);
      if s.Some? { WriteOnce(env, s.value.0, plain[n..]); }
    }
  }

  /** What the application and the network may do to a machine. */
  datatype Act = Begin | Arrive(r: Record) | WriteData(plain: seq<byte>) | TakePlaintext | TakeOut

  ghost function Do(env: Env, m: Machine, a: Act): Machine {
    match a
    case Begin => if m.isClient then Start(env, m) else m
    case Arrive(r) => if m.failed then m else var (m', e) := OnRecord(env, m, r);
        if e.Some? then m'.(failed := true) else m'
    case WriteData(plain) => if m.phase == Established then WriteApp(env, m, plain).0 else m
    case TakePlaintext => m.(plaintext := [])
    case TakeOut => m.(out := [])
  }

  ghost function DoAll(env: Env, m: Machine, acts: seq<Act>): Machine
    decreases |acts|
  {
    if acts == [] then m else DoAll(env, Do(env, m, acts[0]), acts[1..])
  }

  lemma {:induction false} DoAllOnce(env: Env, m: Machine, acts: seq<Act>)
    requires OnceM(m)
    ensures OnceM(DoAll(env, m, acts))
    decreases |acts|
  {
    hide OnRecord, WriteApp, ClientHelloMessage;
    if acts != [] {
      match acts[0] {
        case Arrive(r) => RecordOnce(env, m, r);
        case WriteData(plain) => WriteOnce(env, m, plain);
        case Begin =>
        case TakePlaintext =>
        case TakeOut =>
      }
      DoAllOnce(env, Do(env, m, acts[0]), acts[1..]);
    }
  }

  /** In no run of a machine, honest peer or not, do two seals under one key object use the
      same nonce; also not while two fields point to the same object. */
  lemma NoncesAreUnique(env: Env, isClient: bool, acts: seq<Act>, i: nat, j: nat)
    requires var m := DoAll(env, NewMachine(isClient), acts); i < j < |m.used| && m.used[i].ref == m.used[j].ref
    ensures var m := DoAll(env, NewMachine(isClient), acts);
            && m.used[j].ref < |m.objs| && |m.objs[m.used[j].ref].iv| >= 8
            && var iv := m.objs[m.used[j].ref].iv; Nonce(iv, m.used[i].count) != Nonce(iv, m.used[j].count)
  {
    DoAllOnce(env, NewMachine(isClient), acts);
    hide DoAll, Nonce;
    var m := DoAll(env, NewMachine(isClient), acts);
    var iv := m.objs[m.used[j].ref].iv;
    if Nonce(iv, m.used[i].count) == Nonce(iv, m.used[j].count) {
      NonceInjective(iv, m.used[i].count, m.used[j].count);
    }
  }
}
