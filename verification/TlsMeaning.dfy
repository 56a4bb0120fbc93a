/** The bytes of TLS 1.3 messages, records and key derivations, and what single records lead to,
    in the numbers of RFC 8446 (tls/keyschedule.go, tls/aead.go, tls/record.go, tls/handshake.go,
    tls/state.go). */
module TlsMeaning {
  import opened Bytes
  import opened Framing
  import opened TlsRecord
  import opened TlsCrypto
  import opened TlsHello
  import opened TlsMachine

  // ---- the key schedule (section 7.1) ------------------------------------------------------------

  lemma {:induction false} AsciiAt(s: string)
    ensures |Ascii(s)| == |s| && forall k :: 0 <= k < |s| ==> Ascii(s)[k] == s[k] as int % 256
    decreases |s|
  {
    if s != "" {
      AsciiAt(s[1..]);
      var a := Ascii(s);
      forall k | 0 <= k < |s| ensures a[k] == s[k] as int % 256 {
        if k > 0 { assert a[k] == Ascii(s[1..])[k - 1] && s[k] == s[1..][k - 1]; }
      }
    }
  }

  /** The labels, letter by letter. */
  lemma LabelBytes()
    ensures Ascii("tls13 ") == [116, 108, 115, 49, 51, 32]
    ensures Ascii("derived") == [100, 101, 114, 105, 118, 101, 100]
    ensures Ascii("finished") == [102, 105, 110, 105, 115, 104, 101, 100]
    ensures Ascii("key") == [107, 101, 121] && Ascii("iv") == [105, 118]
  {
    AsciiAt("tls13 ");
    AsciiAt("derived");
    AsciiAt("finished");
    AsciiAt("key");
    AsciiAt("iv");
    hide Ascii;
  }

  lemma TrafficBytes()
    ensures Ascii("c hs traffic") == [99, 32, 104, 115, 32, 116, 114, 97, 102, 102, 105, 99]
    ensures Ascii("s hs traffic") == [115, 32, 104, 115, 32, 116, 114, 97, 102, 102, 105, 99]
    ensures Ascii("c ap traffic") == [99, 32, 97, 112, 32, 116, 114, 97, 102, 102, 105, 99]
    ensures Ascii("s ap traffic") == [115, 32, 97, 112, 32, 116, 114, 97, 102, 102, 105, 99]
  {
    AsciiAt("c hs traffic");
    AsciiAt("s hs traffic");
    AsciiAt("c ap traffic");
    AsciiAt("s ap traffic");
    hide Ascii;
  }

  /** The input of HKDF-Expand: two bytes of length, the label behind its length and "tls13 ", and
      the context behind its length. */
  lemma ExpandLabelMeans(c: Crypto, secret: seq<byte>, name: string, context: seq<byte>, n: nat)
    requires |name| <= 249 && |context| < 256 && n < 0x1_0000
    ensures ExpandLabel(c, secret, name, context, n) ==
              c.expand(secret, [n / 256, n % 256, 6 + |name|, 116, 108, 115, 49, 51, 32] + Ascii(name)
                               + [|context|] + context, n)
  {
    AsciiAt(name);
    LabelBytes();
    Lengths(n, 6 + |name|, |context|);
    InfoJoin([n / 256, n % 256], 6 + |name|, Ascii(name), [|context|], context);
    hide Ascii, ToBE;
  }

  lemma Lengths(n: nat, a: nat, b: nat)
    requires n < 0x1_0000 && a < 256 && b < 256
    ensures ToBE(n, 2) == [n / 256, n % 256] && ToBE(a, 1) == [a] && ToBE(b, 1) == [b]
  {
    hide ToBE;
    Digits2(n, n / 256, n % 256);
    OneByte(a);
    OneByte(b);
  }

  lemma OneByte(n: nat)
    requires n < 256
    ensures ToBE(n, 1) == [n]
  {
    BigEndian(n);
    hide ToBE;
  }

  lemma InfoJoin(n: seq<byte>, len: byte, name: seq<byte>, m: seq<byte>, context: seq<byte>)
    requires |n| == 2
    ensures var tls: seq<byte> := [116, 108, 115, 49, 51, 32];
            n + [len] + (tls + name) + m + context ==
              [n[0], n[1], len, 116, 108, 115, 49, 51, 32] + name + m + context
  {
    var tls: seq<byte> := [116, 108, 115, 49, 51, 32];
    assert n + [len] + (tls + name) == n + [len] + tls + name;
    assert n + [len] + tls == [n[0], n[1], len, 116, 108, 115, 49, 51, 32];
  }

  lemma ZerosAre(n: nat)
    ensures Zeros(n) == seq(n, _ => 0)
  {
    if n > 0 {
      ZerosAre(n - 1);
      assert Zeros(n) == [0] + seq(n - 1, _ => 0);
    }
  }

  /** From zeros to the early secret, with the shared secret to the handshake secret, with zeros
      to the master secret, each step over a secret "derived" with the hash of nothing; the key of
      a Finished message; key and iv of a direction. */
  lemma KeySchedule(c: Crypto, secret: seq<byte>, shared: seq<byte>, th: seq<byte>)
    ensures var zeros, empty := seq(32, _ => 0), c.hash([]);
            && HandshakeSecret(c, shared)
                 == c.hmac(ExpandLabel(c, c.hmac(zeros, zeros), "derived", empty, 32), shared)
            && MasterSecret(c, secret) == c.hmac(ExpandLabel(c, secret, "derived", empty, 32), zeros)
    ensures forall name :: DeriveSecret(c, secret, name, th) == ExpandLabel(c, secret, name, th, 32)
    ensures FinishedData(c, secret, th) == c.hmac(ExpandLabel(c, secret, "finished", [], 32), th)
    ensures NewProtector(c, secret)
              == Protector(ExpandLabel(c, secret, "key", [], 16), ExpandLabel(c, secret, "iv", [], 12), 0)
  {
    ZerosAre(32);
    hide ExpandLabel, Zeros;
  }

  // ---- protected records (sections 5.2 and 5.3) ------------------------------------------------------

  /** The nonce: the first four bytes of the iv, and the other eight combined with the bytes of
      the record's number. */
  lemma NonceMeans(iv: seq<byte>, count: nat, k: nat)
    requires |iv| == 12 && k < 12
    ensures Nonce(iv, count)[k] ==
              if k < 4 then iv[k]
              else if k < 8 then Xor(iv[k], (ToBE(count / 0x1_0000_0000, 4))[k - 4])
              else Xor(iv[k], (ToBE(count, 4))[k - 8])
  {
    hide Xor, ToBE;
    BigEndian8(count);
    if k >= 4 { XorAllAt(iv[4..], ToBE(count, 8), k - 4); }
  }

  /** A record is sealed with its type behind its content, and with its header, of outer type 23
      and version 0x0303, as additional data. */
  lemma SealMeans(c: Crypto, p: Protector, innerType: byte, content: seq<byte>)
    requires |p.iv| >= 8 && |content| + 17 < 0x1_0000
    ensures var n := |content| + 17;
            Seal(c, p, innerType, content) ==
              if p.count >= 0xffff_ffff_ffff_ffff then None
              else
                Some((Protector(p.key, p.iv, p.count + 1),
                      c.aeadSeal(p.key, Nonce(p.iv, p.count), content + [innerType], [23, 3, 3, n / 256, n % 256])))
  {
    HeaderIs(|content| + 17);
    hide Nonce, AdditionalData;
    assert |content + [innerType]| + 16 == |content| + 17;
  }

  lemma HeaderIs(n: nat)
    requires n < 0x1_0000
    ensures AdditionalData(n) == [23, 3, 3, n / 256, n % 256]
  {
    Digits2(0x0303, 3, 3);
    Digits2(n, n / 256, n % 256);
    hide ToBE;
  }

  /** And opened the same way: too short or not authentic, and nothing changes; else the last byte
      is the type. */
  lemma OpenMeans(c: Crypto, p: Protector, ct: seq<byte>, inner: seq<byte>, typ: byte)
    requires |p.iv| >= 8 && |ct| < 0x1_0000
    ensures var n := |ct|;
            var x := c.aeadOpen(p.key, Nonce(p.iv, p.count), ct, [23, 3, 3, n / 256, n % 256]);
            var p' := Protector(p.key, p.iv, p.count + 1);
            && (n < 16 || x.None? ==> Open(c, p, ct) == Unopened)
            && (n >= 16 && x == Some([]) ==> Open(c, p, ct) == Hollow(p'))
            && (n >= 16 && x == Some(inner + [typ]) ==> Open(c, p, ct) == Opened(p', inner, typ))
  {
    HeaderIs(|ct|);
    hide Nonce, AdditionalData;
    var x := inner + [typ];
    assert x != [] && x[..|x| - 1] == inner && x[|x| - 1] == typ;
  }

  // ---- records and messages on the wire (sections 4 and 5.1) ------------------------------------------

  lemma RecordOnTheWire(r: Record)
    requires r.version < 0x1_0000 && |r.payload| < 0x1_0000
    ensures var n := |r.payload|;
            RecordBytes(r) == [r.rtype, r.version / 256, r.version % 256, n / 256, n % 256] + r.payload
  {
    BigEndian(r.version);
    BigEndian(|r.payload|);
    hide ToBE;
  }

  /** Any five bytes are a header; more than 2^14 + 256 bytes of payload are refused at once. */
  lemma RecordDecodes(t: byte, v1: byte, v0: byte, l1: byte, l0: byte, rest: seq<byte>)
    ensures var n := 256 * (l1 as int) + l0;
            CutRecord((), [t, v1, v0, l1, l0] + rest) ==
              if n > 16640 then Fail(RecordTooLarge(n))
              else if |rest| < n then More
              else Item(Record(t, 256 * (v1 as int) + v0, rest[..n]), 5 + n, ())
  {
    var b: seq<byte> := [t, v1, v0, l1, l0] + rest;
    assert b[3..5] == [l1, l0] && b[1..3] == [v1, v0] && b[5..] == rest;
    ReadBigEndian(l1, l0, 0, 0);
    ReadBigEndian(v1, v0, 0, 0);
    hide FromBE;
    var n := 256 * (l1 as int) + l0;
    if |rest| >= n { assert b[5..5 + n] == rest[..n]; }
  }

  lemma HandshakeOnTheWire(h: Handshake)
    requires |h.payload| < 0x100_0000
    ensures var n := |h.payload|;
            HandshakeBytes(h) == [h.typ, n / 0x1_0000, n / 0x100 % 256, n % 256] + h.payload
  {
    Within3(|h.payload|);
    hide ToBE;
  }

  /** Any four bytes are a header; more than 2^20 bytes are refused at once. */
  lemma HandshakeDecodes(t: byte, a: byte, b: byte, c: byte, rest: seq<byte>)
    ensures var n := 0x1_0000 * (a as int) + 0x100 * (b as int) + c;
            CutHandshake((), [t, a, b, c] + rest) ==
              if n > 1048576 then Fail(HandshakeTooLarge(n))
              else if |rest| < n then More
              else Item(Handshake(t, rest[..n]), 4 + n, ())
  {
    var w: seq<byte> := [t, a, b, c] + rest;
    assert w[1..4] == [a, b, c] && w[4..] == rest;
    ReadBigEndian(a, b, c, 0);
    hide FromBE;
    var n := 0x1_0000 * (a as int) + 0x100 * (b as int) + c;
    if |rest| >= n { assert w[4..4 + n] == rest[..n]; }
  }

  lemma HeadersIncomplete(b: seq<byte>)
    ensures |b| < 5 ==> CutRecord((), b) == More
    ensures |b| < 4 ==> CutHandshake((), b) == More
  {
  }

  // ---- the hellos (sections 4.1.2, 4.1.3 and 4.2) --------------------------------------------------------

  /** A 16-bit length or number. */
  function Two(n: nat): seq<byte> {
    [n / 256 % 256, n % 256]
  }

  /** A vector with a 16-bit length, as extensions, lists and entries are. */
  function Vector(s: seq<byte>): seq<byte> {
    Two(|s|) + s
  }

  /** One extension. */
  function Extension(typ: nat, data: seq<byte>): seq<byte> {
    Two(typ) + Vector(data)
  }

  /** What a client extends its hello by: version 1.3, group x25519, its share, three signature
      algorithms, and its server name and its protocols when it has any. */
  function HelloExtensions(pub: seq<byte>, name: seq<byte>, protos: seq<seq<byte>>): seq<byte> {
    Extension(43, [2, 3, 4])
    + (Extension(10, [0, 2, 0, 29])
       + (Extension(51, Vector([0, 29] + Vector(pub)))
          + (Extension(13, [0, 6, 8, 4, 4, 3, 8, 7])
             + ((if name == [] then [] else Extension(0, Vector([0] + Vector(name))))
                + (if protos == [] then [] else Extension(16, Vector(NamesBytes(protos))))))))
  }

  lemma ExtensionIs(e: Ext, typ: nat, data: seq<byte>)
    requires e.typ == typ && e.data == data
    ensures ExtBytes(e) == Extension(typ, data)
  {
    Assoc(Two(typ), Two(|data|), data);
  }

  lemma MoreExtensions(e: Ext, more: seq<Ext>)
    ensures ExtsBytes([e] + more) == ExtBytes(e) + ExtsBytes(more)
  {
    assert ([e] + more)[1..] == more;
  }

  lemma LastExtensions(names: seq<Ext>, protos: seq<Ext>)
    requires |names| <= 1 && |protos| <= 1
    ensures ExtsBytes(names + protos) ==
              (if names == [] then [] else ExtBytes(names[0])) + (if protos == [] then [] else ExtBytes(protos[0]))
  {
    if names == [] {
      assert names + protos == protos;
    } else {
      assert names + protos == [names[0]] + protos;
      MoreExtensions(names[0], protos);
    }
    if protos != [] {
      assert protos == [protos[0]] + [] && ExtsBytes([]) == [];
      MoreExtensions(protos[0], []);
      assert ExtBytes(protos[0]) + [] == ExtBytes(protos[0]);
    }
    hide ExtBytes;
  }

  lemma ExtensionsOnTheWire(ch: ClientHello, pub: seq<byte>)
    ensures ExtsBytes(ClientExts(ch, pub)) == HelloExtensions(pub, ch.serverName, ch.alpn)
  {
    var names, protos := NameExts(ch.serverName), ProtocolExts(ch.alpn);
    var share := Ext(51, KeyShareList(pub));
    ExtensionIs(VERSIONS_EXT, 43, [2, 3, 4]);
    GroupsAndAlgorithms();
    ExtensionIs(GroupsExt(), 10, [0, 2, 0, 29]);
    ShareIs(pub);
    ExtensionIs(share, 51, Vector([0, 29] + Vector(pub)));
    ExtensionIs(AlgorithmsExt(), 13, [0, 6, 8, 4, 4, 3, 8, 7]);
    if names != [] {
      NameIs(ch.serverName);
      ExtensionIs(names[0], 0, Vector([0] + Vector(ch.serverName)));
    }
    if protos != [] { ExtensionIs(protos[0], 16, Vector(NamesBytes(ch.alpn))); }
    MoreExtensions(VERSIONS_EXT, [GroupsExt()] + ([share] + ([AlgorithmsExt()] + (names + protos))));
    MoreExtensions(GroupsExt(), [share] + ([AlgorithmsExt()] + (names + protos)));
    MoreExtensions(share, [AlgorithmsExt()] + (names + protos));
    MoreExtensions(AlgorithmsExt(), names + protos);
    LastExtensions(names, protos);
    hide ExtsBytes, ExtBytes, Extension, Vector, GroupsExt, AlgorithmsExt, KeyShareList, NamesBytes, ServerNameData,
        AlpnList;
  }

  lemma GroupsAndAlgorithms()
    ensures GroupsExt() == Ext(10, [0, 2, 0, 29]) && AlgorithmsExt() == Ext(13, [0, 6, 8, 4, 4, 3, 8, 7])
  {
  }

  lemma ShareIs(pub: seq<byte>)
    ensures KeyShareEntry(pub) == [0, 29] + Vector(pub) && KeyShareList(pub) == Vector([0, 29] + Vector(pub))
  {
    Assoc(Put16(29), Put16(|pub|), pub);
  }

  lemma NameIs(name: seq<byte>)
    ensures ServerNameData(name) == Vector([0] + Vector(name))
  {
    assert Put16(3 + |name|) + [0] + Put16(|name|) + name == Put16(3 + |name|) + ([0] + (Put16(|name|) + name));
    assert |[0] + Vector(name)| == 3 + |name|;
  }

  /** What a client sends: version 0x0303, its random, its session number, three suites, no
      compression, and the extensions. */
  lemma ClientHelloOnTheWire(env: Env)
    requires |env.sessionId| < 256
    ensures var pub := env.c.pub(env.priv);
            ClientHelloBody(HelloOf(env), pub) ==
              [3, 3] + env.random + ([|env.sessionId|] + env.sessionId)
              + [0, 6, 0x13, 0x01, 0x13, 0x02, 0x13, 0x03, 1, 0]
              + Vector(HelloExtensions(pub, env.config.serverName, env.config.protos))
  {
    var ch, pub := HelloOf(env), env.c.pub(env.priv);
    ExtensionsOnTheWire(ch, pub);
    SuitesOnTheWire(ch.suites[0], ch.suites[1], ch.suites[2]);
    ClientBody(ch, pub);
    var exts := ExtsBytes(ClientExts(ch, pub));
    hide ExtsBytes, ClientExts, SuiteBytes, HelloExtensions, ClientHelloBody;
    ThreeSuites();
    hide Two;
  }

  lemma ThreeSuites()
    ensures Two(6) + (Two(0x1301) + Two(0x1302) + Two(0x1303)) + [1, 0]
              == [0, 6, 0x13, 0x01, 0x13, 0x02, 0x13, 0x03, 1, 0]
    ensures Two(0x0303) == [3, 3]
  {
  }

  lemma ClientBody(ch: ClientHello, pub: seq<byte>)
    requires |ch.sessionId| < 256
    ensures var exts := ExtsBytes(ClientExts(ch, pub));
            ClientHelloBody(ch, pub) ==
              Two(ch.version) + ch.random + ([|ch.sessionId|] + ch.sessionId)
              + (Two(2 * |ch.suites|) + SuiteBytes(ch.suites) + [1, 0]) + Vector(exts)
  {
    var exts := ExtsBytes(ClientExts(ch, pub));
    hide ExtsBytes, ClientExts, SuiteBytes;
    HelloJoin(Two(ch.version), ch.random, [|ch.sessionId|], ch.sessionId, Two(2 * |ch.suites|), SuiteBytes(ch.suites),
              Two(|exts|), exts);
  }

  lemma SuitesOnTheWire(a: nat, b: nat, c: nat)
    ensures SuiteBytes([a, b, c]) == Two(a) + Two(b) + Two(c)
  {
    assert [a, b, c][1..] == [b, c] && [b, c][1..] == [c] && [c][1..] == [];
    assert SuiteBytes([c]) == Two(c) + [] == Two(c);
    assert SuiteBytes([b, c]) == Two(b) + Two(c);
  }

  lemma HelloJoin(v: seq<byte>, r: seq<byte>, n: seq<byte>, sid: seq<byte>, m: seq<byte>, cs: seq<byte>, l: seq<byte>,
      exts: seq<byte>)
    ensures v + r + n + sid + m + cs + [1, 0] + l + exts == v + r + (n + sid) + (m + cs + [1, 0]) + (l + exts)
  {
  }

  /** What a server answers: the session number it was sent, its choice, no compression, version
      1.3, and its share without a list around it. */
  lemma ServerHelloOnTheWire(env: Env, sessionId: seq<byte>, suite: nat)
    requires |sessionId| < 256
    ensures var pub := env.c.pub(env.priv);
            ServerHelloBody(AnswerOf(env, sessionId, suite), pub) ==
              [3, 3] + env.random + ([|sessionId|] + sessionId) + (Two(suite) + [0])
              + Vector(Extension(43, [3, 4]) + Extension(51, [0, 29] + Vector(pub)))
  {
    var pub := env.c.pub(env.priv);
    var es := ServerExts(pub);
    ShareIs(pub);
    ExtensionIs(es[0], 43, [3, 4]);
    ExtensionIs(es[1], 51, [0, 29] + Vector(pub));
    assert es == [es[0]] + [es[1]] && [es[1]] == [es[1]] + [];
    MoreExtensions(es[0], [es[1]]);
    MoreExtensions(es[1], []);
    var exts := ExtsBytes(es);
    assert ExtsBytes([]) == [];
    assert exts == Extension(43, [3, 4]) + Extension(51, [0, 29] + Vector(pub)) by {
      assert ExtBytes(es[1]) + [] == ExtBytes(es[1]);
      hide ExtBytes, Extension, Vector, ExtsBytes;
    }
    hide ExtsBytes, ServerExts, Extension;
    AnswerJoin([3, 3], env.random, [|sessionId|], sessionId, Two(suite), Two(|exts|), exts);
  }

  lemma AnswerJoin(v: seq<byte>, r: seq<byte>, n: seq<byte>, sid: seq<byte>, suite: seq<byte>, l: seq<byte>,
      exts: seq<byte>)
    ensures v + r + n + sid + suite + [0] + l + exts == v + r + (n + sid) + (suite + [0]) + (l + exts)
  {
  }

  /** The body of EncryptedExtensions: the one protocol that was chosen, in a list, or nothing. */
  lemma ChoiceOnTheWire(proto: seq<byte>)
    requires |proto| < 256
    ensures AlpnServerExtension(proto) ==
              Vector(if proto == [] then [] else Extension(16, Vector([|proto|] + proto)))
  {
    if proto != [] {
      assert [proto][1..] == [] && NamesBytes([]) == [];
      assert NamesBytes([proto]) == [|proto|] + proto + [] == [|proto|] + proto;
      ExtensionIs(Ext(16, AlpnList([proto])), 16, Vector([|proto|] + proto));
    }
    hide NamesBytes, ExtBytes, Extension;
  }

  /** A list of names: each behind its length. */
  lemma NamesOnTheWire(name: seq<byte>, more: seq<seq<byte>>)
    requires |name| < 256
    ensures NamesBytes([name] + more) == [|name|] + name + NamesBytes(more) && NamesBytes([]) == []
  {
    assert ([name] + more)[1..] == more;
  }

  // ---- reading a hello, whoever made it --------------------------------------------------------------------

  /** A ClientHello of any content: what is accepted, and what is read. Without a 16-bit length
      behind the compression methods there are no extensions. */
  lemma ClientHelloRead(b: seq<byte>, v: seq<byte>, random: seq<byte>, sid: seq<byte>, cs: seq<byte>, cm: seq<byte>,
      rest: seq<byte>)
    requires |v| == 2 && |random| == 32 && |sid| < 256 && |cs| < 0x1_0000 && |cm| < 256
    requires b == v + random + ([|sid|] + sid + (Two(|cs|) + cs + ([|cm|] + cm + rest)))
    ensures var ch := ClientHello(256 * (v[0] as int) + v[1], random, sid, ParseSuites(cs), [], []);
            && (|cs| % 2 == 1 ==> ParseClientHello(b) == None)
            && (|cs| % 2 == 0 && |rest| < 2 ==> ParseClientHello(b) == Some(ch))
            && (|cs| % 2 == 0 && |rest| >= 2 && 256 * (rest[0] as int) + rest[1] > |rest| - 2 ==>
                  ParseClientHello(b) == None)
            && (|cs| % 2 == 0 && |rest| >= 2 && 256 * (rest[0] as int) + rest[1] <= |rest| - 2 ==>
                  ParseClientHello(b) ==
                    Some(ReadExts(ch, ParseExtensions(rest[2..2 + 256 * (rest[0] as int) + rest[1]]))))
  {
    hide *;
    var tail := Two(|cs|) + cs + ([|cm|] + cm + rest);
    HeadRead(v, random, sid, tail);
    SuitesRead(cs, cm, rest);
    HelloFrom(b, 256 * (v[0] as int) + v[1], random, sid, tail, cs, rest);
  }

  lemma SuitesRead(cs: seq<byte>, cm: seq<byte>, rest: seq<byte>)
    requires |cs| < 0x1_0000 && |cm| < 256
    ensures Suites(Two(|cs|) + cs + ([|cm|] + cm + rest)) == Some((cs, rest))
  {
    Vec16Front(cs, [|cm|] + cm + rest);
    Vec8Front(cm, rest);
    hide Vec8, Vec16;
  }

  lemma HelloFrom(b: seq<byte>, version: nat, random: seq<byte>, sid: seq<byte>, tail: seq<byte>, cs: seq<byte>,
      rest: seq<byte>)
    requires ReadHead(b) == Some(Head(version, random, sid, tail)) && Suites(tail) == Some((cs, rest))
    ensures var ch := ClientHello(version, random, sid, ParseSuites(cs), [], []);
            && (|cs| % 2 == 1 ==> ParseClientHello(b) == None)
            && (|cs| % 2 == 0 && |rest| < 2 ==> ParseClientHello(b) == Some(ch))
            && (|cs| % 2 == 0 && |rest| >= 2 && 256 * (rest[0] as int) + rest[1] > |rest| - 2 ==>
                  ParseClientHello(b) == None)
            && (|cs| % 2 == 0 && |rest| >= 2 && 256 * (rest[0] as int) + rest[1] <= |rest| - 2 ==>
                  ParseClientHello(b) ==
                    Some(ReadExts(ch, ParseExtensions(rest[2..2 + 256 * (rest[0] as int) + rest[1]]))))
  {
    hide ReadHead, Suites, ReadExts, ParseExtensions, ParseSuites;
  }

  lemma HeadRead(v: seq<byte>, random: seq<byte>, sid: seq<byte>, tail: seq<byte>)
    requires |v| == 2 && |random| == 32 && |sid| < 256
    ensures ReadHead(v + random + ([|sid|] + sid + tail)) == Some(Head(256 * (v[0] as int) + v[1], random, sid, tail))
  {
    var b := v + random + ([|sid|] + sid + tail);
    Vec8Front(sid, tail);
    hide Vec8;
    assert b[2..34] == random && b[34..] == [|sid|] + sid + tail;
  }

  /** Whatever is accepted has that form. */
  lemma ClientHelloForm(b: seq<byte>) returns (random: seq<byte>, sid: seq<byte>, cs: seq<byte>, cm: seq<byte>,
      rest: seq<byte>)
    requires ParseClientHello(b).Some?
    ensures |random| == 32 && |sid| < 256 && |cs| < 0x1_0000 && |cm| < 256 && |b| >= 2
    ensures b == [b[0], b[1]] + random + ([|sid|] + sid + (Two(|cs|) + cs + ([|cm|] + cm + rest)))
  {
    hide Suites, ReadExts, ParseExtensions, ParseSuites, Vec8, Two;
    var h := ReadHead(b).value;
    random, sid := h.random, h.sessionId;
    Vec8Form(b[34..]);
    assert b == [b[0], b[1]] + random + b[34..];
    cs, cm, rest := SuitesForm(h.rest);
  }

  lemma Vec8Form(b: seq<byte>)
    ensures var r := Vec8(b); r.Some? ==> |r.value.0| < 256 && b == [|r.value.0|] + r.value.0 + r.value.1
  {
  }

  lemma SuitesForm(b: seq<byte>) returns (cs: seq<byte>, cm: seq<byte>, rest: seq<byte>)
    requires Suites(b).Some?
    ensures |cs| < 0x1_0000 && |cm| < 256 && b == Two(|cs|) + cs + ([|cm|] + cm + rest)
    ensures Suites(b) == Some((cs, rest))
  {
    TwoIs(b);
    cs := Vec16(b).value.0;
    var w := Vec16(b).value.1;
    assert b == b[..2] + cs + w;
    Vec8Form(w);
    hide Vec8, Two;
    rest := Vec8(w).value.1;
    cm := Vec8(w).value.0;
  }

  lemma TwoIs(b: seq<byte>)
    requires |b| >= 2
    ensures Two(U16(b)) == b[..2]
  {
  }

  /** Extension by extension, up to the first that is cut short. */
  lemma ExtensionRead(t1: byte, t0: byte, data: seq<byte>, rest: seq<byte>)
    requires |data| < 0x1_0000
    ensures ParseExtensions([t1, t0] + Two(|data|) + data + rest)
              == [Ext(256 * (t1 as int) + t0, data)] + ParseExtensions(rest)
  {
    FrontNumbers([t1, t0], Two(|data|), data, rest);
    assert U16(Two(|data|)) == |data|;
    hide Two;
  }

  lemma ExtensionCutShort(t1: byte, t0: byte, data: seq<byte>, k: nat)
    requires |data| < 0x1_0000 && k < 4 + |data|
    ensures ParseExtensions(([t1, t0] + Two(|data|) + data)[..k]) == []
  {
    if k >= 4 {
      var x := [t1, t0] + Two(|data|) + data;
      assert x[..k][2..4] == x[2..4] == Two(|data|);
      CutExtension(x[..k], |data|);
    }
  }

  lemma CutExtension(b: seq<byte>, n: nat)
    requires 4 <= |b| < 4 + n && n < 0x1_0000 && b[2..4] == Two(n)
    ensures ParseExtensions(b) == []
  {
    assert U16(b[2..]) == U16(b[2..4]) == n;
  }

  /** Of the extensions of a ClientHello, 0 gives the server name and 16 the protocols; the
      others change nothing. */
  lemma ExtensionMeans(ch: ClientHello, e: Ext, name: seq<byte>, more: seq<byte>, h: seq<byte>)
    requires |name| < 0x1_0000 && |h| == 3
    ensures e.typ == 0 && e.data == h + Vector(name) + more ==> ReadExt(ch, e) == ch.(serverName := name)
    ensures e.typ == 0 && |e.data| < 5 ==> ReadExt(ch, e) == ch
    ensures e.typ == 16 ==> ReadExt(ch, e) == ch.(alpn := ch.alpn + ParseAlpnList(e.data))
    ensures e.typ != 0 && e.typ != 16 ==> ReadExt(ch, e) == ch
  {
    if e.typ == 0 && e.data == h + Vector(name) + more {
      assert e.data[3..] == Vector(name) + more && U16(Vector(name) + more) == |name|;
      assert e.data[5..5 + |name|] == name;
    }
    hide ParseAlpnList;
  }

  /** The key share is that of the first extension 51, for group 29, in the server's form or the
      client's. */
  lemma ShareMeans(e: Ext, more: seq<Ext>, pub: seq<byte>, rest: seq<byte>)
    requires |pub| < 0x1_0000
    ensures e.typ != 51 ==> KeyShareOf([e] + more) == KeyShareOf(more)
    ensures e.typ == 51 && e.data == [0, 29] + Vector(pub) + rest ==> KeyShareOf([e] + more) == Some(pub)
    ensures e.typ == 51 && |e.data| < 2 ==> KeyShareOf([e] + more) == None
  {
    ShareSkip(e, more);
    if e.data == [0, 29] + Vector(pub) + rest {
      FrontNumbers([0, 29], Two(|pub|), pub, rest);
      assert e.data == [0, 29] + Two(|pub|) + pub + rest;
    }
    hide KeyShareOf;
  }

  /** A ServerHello of any content: its choice is the two bytes behind the session number, and the
      extensions begin behind the compression method. */
  lemma ServerHelloRead(b: seq<byte>, v: seq<byte>, random: seq<byte>, sid: seq<byte>, tail: seq<byte>)
    requires |v| == 2 && |random| == 32 && |sid| < 256 && b == v + random + ([|sid|] + sid + tail)
    ensures ParseServerHello(b) ==
              if |tail| < 2 then None
              else Some(ServerHello(256 * (v[0] as int) + v[1], random, sid, 256 * (tail[0] as int) + tail[1]))
    ensures ServerKeyShare(b) == if |tail| < 3 then None else FindKeyShare(tail[3..])
  {
    HeadRead(v, random, sid, tail);
    hide ReadHead, FindKeyShare;
  }

  /** Where the extensions are all there, the share among them; where not, none. */
  lemma ShareFound(exts: seq<byte>, more: seq<byte>, b: seq<byte>)
    requires |exts| < 0x1_0000
    ensures FindKeyShare(Vector(exts) + more) == KeyShareOf(ParseExtensions(exts))
    ensures |b| < 2 || 2 + 256 * (b[0] as int) + b[1] > |b| ==> FindKeyShare(b) == None
  {
    Vec16Front(exts, more);
    hide KeyShareOf, ParseExtensions;
  }

  /** What a client reads of EncryptedExtensions: of extensions 16, the last that holds a name
      counts, and of its names the first. */
  lemma ChoiceRead(exts: seq<byte>, more: seq<byte>, b: seq<byte>)
    requires |exts| < 0x1_0000
    ensures ParseAlpnServerExtension(Vector(exts) + more) == AlpnAnswers([], ParseExtensions(exts))
    ensures |b| < 2 || 2 + 256 * (b[0] as int) + b[1] > |b| ==> ParseAlpnServerExtension(b) == []
  {
    Vec16Front(exts, more);
    ChoiceIn(Vector(exts) + more);
    ChoiceIn(b);
    hide AlpnAnswers, ParseExtensions, ParseAlpnServerExtension;
  }

  lemma ChoiceIn(body: seq<byte>)
    ensures ParseAlpnServerExtension(body)
              == if Vec16(body).None? then [] else AlpnAnswers([], ParseExtensions(Vec16(body).value.0))
  {
    hide AlpnAnswers, ParseExtensions;
  }

  lemma ChoiceMeans(got: seq<byte>, e: Ext, p: seq<byte>, names: seq<byte>, more: seq<byte>, later: seq<Ext>)
    requires |p| < 256 && 1 + |p| + |names| < 0x1_0000
    ensures e.typ != 16 ==> AlpnAnswers(got, [e] + later) == AlpnAnswers(got, later)
    ensures e.typ == 16 && e.data == Vector([|p|] + p + names) + more ==>
              AlpnAnswers(got, [e] + later) == AlpnAnswers(p, later)
    ensures AlpnAnswers(got, []) == got
  {
    assert ([e] + later)[1..] == later;
    var list := [|p|] + p + names;
    if e.data == Vector(list) + more {
      assert U16(e.data) == |list| && e.data[2..2 + |list|] == list;
      assert list[1..1 + |p|] == p;
    }
  }

  // ---- single records and messages ---------------------------------------------------------------------------

  /** By the record's type: 22 is handshake bytes in the clear; 21 is an alert, and a fatal one, of
      level 2, is an error; 23 needs a key; all others, change of cipher among them, are passed
      over. */
  lemma RecordMeans(env: Env, m: Machine, r: Record)
    ensures r.rtype == 22 ==> OnRecord(env, m, r) == OnHandshakeBytes(env, m, r.payload)
    ensures r.rtype == 21 ==> OnRecord(env, m, r).0 == m
                                && (OnRecord(env, m, r).1.Some? <==> |r.payload| >= 2 && r.payload[0] == 2)
    ensures r.rtype < 21 || r.rtype > 23 ==> OnRecord(env, m, r) == (m, None)
    ensures r.rtype == 23 && m.read.None? ==> OnRecord(env, m, r).0 == m && OnRecord(env, m, r).1.Some?
  {
    hide OnHandshakeBytes, Open;
  }

  /** A protected record, by the type inside. One that is not authentic is refused and leaves the
      machine as it was. */
  lemma ProtectedMeans(env: Env, m: Machine, r: Record, i: nat)
    requires r.rtype == 23 && m.read == Some(i) && i < |m.objs| && |m.objs[i].iv| >= 8
    ensures var o := Open(env.c, m.objs[i], r.payload);
            var (m', e) := OnRecord(env, m, r);
            && (o.Unopened? ==> m' == m && e.Some?)
            && (o.Hollow? ==> m' == m.(objs := m.objs[i := o.p]) && e.Some?)
            && (o.Opened? ==>
                  var m1 := m.(objs := m.objs[i := o.p]);
                  && (o.innerType == 22 ==> (m', e) == OnHandshakeBytes(env, m1, o.content))
                  && (o.innerType == 23 ==> m' == m1.(plaintext := m.plaintext + o.content) && e.None?)
                  && (o.innerType == 21 ==> m' == m1 && (e.Some? <==> |o.content| >= 2 && o.content[0] == 2))
                  && (o.innerType < 21 || o.innerType > 23 ==> m' == m1 && e.None?))
  {
    hide OnHandshakeBytes, Open;
  }

  /** By the message's type: 8, 11 and 15 enter the transcript; 24, a key update, is refused; types
      that are not known are passed over; a hello of one's own side is refused. */
  lemma MessageMeans(env: Env, m: Machine, h: Handshake)
    ensures var (m', e) := OnHandshake(env, m, h);
            && (h.typ == 8 || h.typ == 11 || h.typ == 15 ==>
                  && e.None?
                  && m' == m.(transcript := m.transcript + HandshakeBytes(h), alpn := m'.alpn, phase := m'.phase))
            && (h.typ == 8 ==>
                  m'.phase == if m.phase == WaitEncryptedExtensions then WaitCertificate else m.phase)
            && (h.typ == 11 ==> m'.phase == if m.phase == WaitCertificate then WaitCertificateVerify else m.phase)
            && (h.typ == 15 ==> m'.phase == if m.phase == WaitCertificateVerify then WaitServerFinished else m.phase)
            && (h.typ == 8 ==> m'.alpn == if m.isClient then ParseAlpnServerExtension(h.payload) else m.alpn)
            && (h.typ == 11 || h.typ == 15 ==> m'.alpn == m.alpn)
            && (h.typ == 24 ==> m' == m && e.Some?)
            && (h.typ !in {1, 2, 8, 11, 15, 20, 24} ==> m' == m && e.None?)
            && (h.typ == 1 && m.isClient ==> m' == m && e.Some?)
            && (h.typ == 2 && !m.isClient ==> m' == m && e.Some?)
            && (h.typ == 1 ==> (m', e) == OnClientHello(env, m, h.payload))
            && (h.typ == 2 ==> (m', e) == OnServerHello(env, m, h.payload))
            && (h.typ == 20 ==> (m', e) == OnFinished(env, m, h.payload))
  {
    hide HandshakeBytes, ParseAlpnServerExtension, OnFinished, Flight, HandshakeKeys, ParseClientHello, ClientKeyShare,
        ParseServerHello, ServerKeyShare, Negotiate;
  }

  /** A Finished message passes only with the data of the peer's handshake secret and the
      transcript so far; any other leaves the machine as it was, with an error. */
  lemma FinishedChecked(env: Env, m: Machine, payload: seq<byte>)
    ensures payload != FinishedData(env.c, m.hsReadSecret, env.c.hash(m.transcript)) ==>
              OnFinished(env, m, payload).0 == m && OnFinished(env, m, payload).1.Some?
  {
    hide FinishedData, CacheApp, SwitchKeys, Say;
  }

  /** What a server refuses in a hello: one that cannot be read, one without the suite 0x1301 when
      none was chosen before, one without a share, and a share that gives no secret. */
  lemma HelloRefused(env: Env, m: Machine, payload: seq<byte>)
    requires !m.isClient
    ensures var ch, ks := ParseClientHello(payload), ClientKeyShare(payload);
            (AnswerHello(env, m, payload).1.Some? <==>
               || ch.None? || ks.None? || (0x1301 !in ch.value.suites && m.suite == 0)
               || env.c.dh(env.priv, ks.value).None?)
  {
    hide ParseClientHello, ClientKeyShare, Negotiate, HandshakeKeys, ServerHelloMessage, HandshakeBytes;
  }

  /** What a client refuses in an answer. */
  lemma AnswerRefused(env: Env, m: Machine, payload: seq<byte>)
    requires m.isClient
    ensures var sh, ks := ParseServerHello(payload), ServerKeyShare(payload);
            (OnServerHello(env, m, payload).1.Some? <==>
               sh.None? || ks.None? || env.c.dh(env.priv, ks.value).None?)
  {
    hide ParseServerHello, ServerKeyShare, HandshakeKeys, HandshakeBytes;
  }

  /** Application data leave in records of 2^14 bytes, the last as long as what is left, each with
      outer type 23 and inner type 23. */
  lemma WriteMeans(env: Env, m: Machine, plain: seq<byte>, n: nat, i: nat)
    requires plain != [] && n <= |plain| && n <= 16384 && (n == 16384 || n == |plain|)
    requires m.write == Some(i) && i < |m.objs| && |m.objs[i].iv| >= 8 && m.objs[i].count < 0xffff_ffff_ffff_ffff
    ensures var s := Seal(env.c, m.objs[i], 23, plain[..n]).value;
            var m1 := m.(objs := m.objs[i := s.0], used := m.used + [Used(i, m.objs[i].count)]);
            var (m', rs, ok) := WriteApp(env, m1, plain[n..]);
            WriteApp(env, m, plain) == (m', [Record(23, 0x0303, s.1)] + rs, ok)
  {
    hide Nonce, AdditionalData;
  }

  /** Records in the clear have version 0x0303; a client starts with its hello, of type 1, in a
      record of type 22; an answer has type 2; the empty change of cipher is one byte. */
  lemma FirstRecords(env: Env, sessionId: seq<byte>, suite: nat)
    ensures var m := Start(env, NewMachine(true));
            var hello := HandshakeBytes(Handshake(1, ClientHelloBody(HelloOf(env), env.c.pub(env.priv))));
            m.out == [Record(22, 0x0303, hello)] && m.transcript == hello && m.phase == WaitServerHello
    ensures var pub := env.c.pub(env.priv);
            ServerHelloMessage(env, sessionId, suite)
              == HandshakeBytes(Handshake(2, ServerHelloBody(ServerHello(0x0303, env.random, sessionId, suite), pub)))
    ensures CCS == Record(20, 0x0303, [1])
  {
    hide ClientHelloBody, ServerHelloBody, HandshakeBytes;
    assert forall r: Record :: [] + [r] == [r];
    var hello := ClientHelloMessage(env);
    assert [] + hello == hello;
  }
}
