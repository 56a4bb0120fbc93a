/** Hello messages, their extensions, key shares and protocol lists (tls/handshake.go). */
module TlsHello {
  import opened Bytes

  const EXT_SERVER_NAME := 0
  const EXT_SUPPORTED_GROUPS := 10
  const EXT_SIGNATURE_ALGORITHMS := 13
  const EXT_ALPN := 16
  const EXT_SUPPORTED_VERSIONS := 43
  const EXT_KEY_SHARE := 51
  const X25519 := 0x1d

  /** A 16-bit number at the front. */
  function U16(b: seq<byte>): (n: nat)
    requires |b| >= 2
    ensures n < 0x1_0000
  {
    (b[0] as int) * 256 + b[1]
  }

  function Put16(n: nat): (s: seq<byte>)
    ensures |s| == 2 && (n < 0x1_0000 ==> U16(s) == n)
  {
    [n / 256 % 256, n % 256]
  }

  // ---- extensions ------------------------------------------------------------------------

  datatype Ext = Ext(typ: nat, data: seq<byte>)

  function ExtBytes(e: Ext): seq<byte> {
    Put16(e.typ) + Put16(|e.data|) + e.data
  }

  function ExtsBytes(es: seq<Ext>): seq<byte> {
    if es == [] then [] else ExtBytes(es[0]) + ExtsBytes(es[1..])
  }

  /** parseExtensions: what it calls back with, up to the first that is cut short. */
  function ParseExtensions(b: seq<byte>): seq<Ext>
    decreases |b|
  {
    if |b| < 4 then []
    else
      var length := U16(b[2..]);
      if 4 + length > |b| then [] else [Ext(U16(b), b[4..4 + length])] + ParseExtensions(b[4 + length..])
  }

  predicate Fits(e: Ext) {
    e.typ < 0x1_0000 && |e.data| < 0x1_0000
  }

  lemma {:induction false} ExtensionsRoundTrip(es: seq<Ext>)
    requires forall k :: 0 <= k < |es| ==> Fits(es[k])
    ensures ParseExtensions(ExtsBytes(es)) == es
    decreases |es|
  {
    if es != [] {
      ExtensionsRoundTrip(es[1..]);
      var e, later := es[0], ExtsBytes(es[1..]);
      var b := ExtsBytes(es);
      hide Put16, U16, ExtsBytes;
      assert b == Put16(e.typ) + Put16(|e.data|) + e.data + later;
      FrontNumbers(Put16(e.typ), Put16(|e.data|), e.data, later);
      assert es == [e] + es[1..];
    }
  }

  lemma FrontNumbers(a: seq<byte>, n: seq<byte>, data: seq<byte>, later: seq<byte>)
    requires |a| == |n| == 2
    ensures var b := a + n + data + later;
            && |b| >= 4 + |data| && U16(b) == U16(a) && U16(b[2..]) == U16(n)
            && b[4..4 + |data|] == data && b[4 + |data|..] == later
  {
  }

  // ---- lists of length-prefixed names -------------------------------------------------------------

  function NamesBytes(names: seq<seq<byte>>): seq<byte> {
    if names == [] then [] else [|names[0]| % 256] + names[0] + NamesBytes(names[1..])
  }

  /** The names a protocol list holds, up to the first that is cut short. */
  function ParseNames(b: seq<byte>): seq<seq<byte>>
    decreases |b|
  {
    if b == [] || 1 + b[0] as int > |b| then [] else [b[1..1 + b[0] as int]] + ParseNames(b[1 + b[0] as int..])
  }

  lemma {:induction false} NamesRoundTrip(names: seq<seq<byte>>)
    requires forall k :: 0 <= k < |names| ==> |names[k]| < 256
    ensures ParseNames(NamesBytes(names)) == names
    decreases |names|
  {
    if names != [] {
      NamesRoundTrip(names[1..]);
      var x, later := names[0], NamesBytes(names[1..]);
      var b := NamesBytes(names);
      assert b == [|x|] + x + later;
      assert b[1..1 + |x|] == x && b[1 + |x|..] == later;
      assert names == [x] + names[1..];
    }
  }

  /** appendALPNList: the names behind the length of all of them. */
  function AlpnList(names: seq<seq<byte>>): seq<byte> {
    Put16(|NamesBytes(names)|) + NamesBytes(names)
  }

  function ParseAlpnList(data: seq<byte>): seq<seq<byte>> {
    if |data| < 2 || 2 + U16(data) > |data| then [] else ParseNames(data[2..2 + U16(data)])
  }

  predicate AlpnOk(names: seq<seq<byte>>) {
    |NamesBytes(names)| < 0xfffe && forall k :: 0 <= k < |names| ==> |names[k]| < 256
  }

  lemma AlpnListRoundTrip(names: seq<seq<byte>>)
    requires AlpnOk(names)
    ensures ParseAlpnList(AlpnList(names)) == names
  {
    NamesRoundTrip(names);
    var inner := NamesBytes(names);
    var data := AlpnList(names);
    hide ParseNames, NamesBytes, Put16;
    assert data[2..2 + |inner|] == inner && U16(data) == U16(Put16(|inner|));
  }

  /** negotiateALPN: the server's first choice that the client offers; empty when there is none. */
  function Negotiate(client: seq<seq<byte>>, server: seq<seq<byte>>): (p: seq<byte>)
    ensures p == [] || (p in server && p in client)
  {
    if server == [] then [] else if server[0] in client then server[0] else Negotiate(client, server[1..])
  }

  method NegotiateAlpn(client: seq<seq<byte>>, server: seq<seq<byte>>) returns (p: seq<byte>)
    ensures p == Negotiate(client, server)
  {
    if |client| == 0 || |server| == 0 {
      NoneOffered(client, server);
      return [];
    }
    assert server[0..] == server;
    for i := 0 to |server|
      invariant Negotiate(client, server) == Negotiate(client, server[i..])
    {
      assert server[i..][1..] == server[i + 1..];
      for j := 0 to |client|
        invariant server[i] !in client[..j]
      {
        if server[i] == client[j] {
          return server[i];
        }
        assert client[..j + 1] == client[..j] + [client[j]];
      }
      assert client[..|client|] == client;
    }
    assert server[|server|..] == [];
    return [];
  }

  lemma {:induction false} NoneOffered(client: seq<seq<byte>>, server: seq<seq<byte>>)
    requires client == [] || server == []
    ensures Negotiate(client, server) == []
  {
    if server != [] { NoneOffered(client, server[1..]); }
  }

  /** The choice is the best one: nothing the server prefers to it is offered by the client,
      and an empty answer means that the two lists have nothing in common. */
  lemma {:induction false} NegotiateIsBest(client: seq<seq<byte>>, server: seq<seq<byte>>, k: nat)
    requires k < |server| && server[k] in client && [] !in server
    ensures Negotiate(client, server) != []
    ensures exists i :: 0 <= i <= k && server[i] == Negotiate(client, server)
  {
    if server[0] in client {
      assert server[0] == Negotiate(client, server);
    } else {
      NegotiateIsBest(client, server[1..], k - 1);
      var i :| 0 <= i <= k - 1 && server[1..][i] == Negotiate(client, server[1..]);
      assert server[i + 1] == Negotiate(client, server);
    }
  }

  /** The body of EncryptedExtensions: the one protocol that was chosen, if any. */
  function AlpnServerExtension(proto: seq<byte>): seq<byte> {
    var exts := if proto == [] then [] else ExtBytes(Ext(EXT_ALPN, AlpnList([proto])));
    Put16(|exts|) + exts
  }

  /** What one extension of EncryptedExtensions makes of the result so far. */
  function AlpnAnswer(got: seq<byte>, e: Ext): seq<byte> {
    if e.typ != EXT_ALPN || |e.data| < 2 then got
    else
      var n := U16(e.data);
      if 2 + n > |e.data| || n < 1 then got
      else
        var p := e.data[2..2 + n];
        if 1 + p[0] as int > |p| then got else p[1..1 + p[0] as int]
  }

  function AlpnAnswers(got: seq<byte>, es: seq<Ext>): seq<byte>
    decreases |es|
  {
    if es == [] then got else AlpnAnswers(AlpnAnswer(got, es[0]), es[1..])
  }

  function ParseAlpnServerExtension(body: seq<byte>): seq<byte> {
    if |body| < 2 || 2 + U16(body) > |body| then [] else AlpnAnswers([], ParseExtensions(body[2..2 + U16(body)]))
  }

  /** The client reads the protocol that the server chose. */
  lemma AlpnAnswerRoundTrip(proto: seq<byte>)
    requires |proto| < 256
    ensures ParseAlpnServerExtension(AlpnServerExtension(proto)) == proto
  {
    if proto == [] {
      EncryptedExtensions([]);
    } else {
      OneName(proto);
      var e := Ext(EXT_ALPN, AlpnList([proto]));
      OneExt(e);
      EncryptedExtensions([e]);
      hide AlpnAnswer, ExtBytes, AlpnList, ParseAlpnServerExtension, ExtsBytes;
      assert [e][1..] == [] && AlpnAnswers([], [e]) == AlpnAnswers(AlpnAnswer([], e), []);
    }
  }

  lemma OneExt(e: Ext)
    ensures ExtsBytes([e]) == ExtBytes(e)
  {
    assert [e][1..] == [] && ExtsBytes([]) == [];
    hide ExtBytes;
  }

  lemma EncryptedExtensions(es: seq<Ext>)
    requires (forall k :: 0 <= k < |es| ==> Fits(es[k])) && |ExtsBytes(es)| < 0x1_0000
    ensures ParseAlpnServerExtension(Put16(|ExtsBytes(es)|) + ExtsBytes(es)) == AlpnAnswers([], es)
  {
    var exts := ExtsBytes(es);
    ExtensionsRoundTrip(es);
    hide ParseExtensions, ExtsBytes, Put16, AlpnAnswers;
    var body := Put16(|exts|) + exts;
    assert body[2..2 + |exts|] == exts && U16(body) == U16(Put16(|exts|));
  }

  lemma OneName(proto: seq<byte>)
    requires 0 < |proto| < 256
    ensures var data := AlpnList([proto]);
            |data| == 3 + |proto| && (forall got :: AlpnAnswer(got, Ext(EXT_ALPN, data)) == proto)
            && |ExtBytes(Ext(EXT_ALPN, data))| == 7 + |proto|
  {
    assert NamesBytes([proto]) == [|proto|] + proto + NamesBytes([proto][1..]) && [proto][1..] == [];
    var data := AlpnList([proto]);
    assert data[2..] == [|proto|] + proto;
    var p := data[2..2 + U16(data)];
    assert p == [|proto|] + proto && p[1..1 + |proto|] == proto;
  }

  // ---- key shares (section 4.2.8 of RFC 8446) ------------------------------------------------------

  function KeyShareEntry(pub: seq<byte>): seq<byte> {
    Put16(X25519) + Put16(|pub|) + pub
  }

  /** The client's form: a list, with the length of all entries in front. */
  function KeyShareList(pub: seq<byte>): seq<byte> {
    Put16(|KeyShareEntry(pub)|) + KeyShareEntry(pub)
  }

  function ParseKeyShareEntry(data: seq<byte>): Option<seq<byte>> {
    if |data| < 4 || U16(data) != X25519 || 4 + U16(data[2..]) > |data| then None else Some(data[4..4 + U16(data[2..])])
  }

  function FirstShare(b: seq<byte>): Option<seq<byte>>
    decreases |b|
  {
    if |b| < 4 then None
    else
      var length := U16(b[2..]);
      if 4 + length > |b| then None
      else if U16(b) == X25519 then Some(b[4..4 + length])
      else FirstShare(b[4 + length..])
  }

  function ParseClientKeyShare(data: seq<byte>): Option<seq<byte>> {
    if |data| < 2 || 2 + U16(data) > |data| then None else FirstShare(data[2..2 + U16(data)])
  }

  /** The form of the server is tried first, whoever sent the message. */
  function ParseKeyShare(data: seq<byte>): Option<seq<byte>> {
    var one := ParseKeyShareEntry(data);
    if one.Some? then one else ParseClientKeyShare(data)
  }

  /** Trying the server's form first does no harm to a client's share of any length: where the
      list length looks like the group number, the entry is cut short. */
  lemma KeyShareRoundTrip(pub: seq<byte>)
    requires |pub| < 0xfffc
    ensures ParseKeyShare(KeyShareEntry(pub)) == Some(pub) && ParseKeyShare(KeyShareList(pub)) == Some(pub)
  {
    var e, l := KeyShareEntry(pub), KeyShareList(pub);
    FrontNumbers(Put16(X25519), Put16(|pub|), pub, []);
    assert e + [] == e && Put16(X25519) + Put16(|pub|) + pub + [] == e;
    assert l[2..2 + |e|] == e && U16(l) == |e|;
    assert U16(l[2..]) == X25519 by { assert l[2..] == e; }
    assert FirstShare(e) == Some(pub);
  }

  /** Of the extensions of a hello, the first key share counts. */
  function KeyShareOf(es: seq<Ext>): Option<seq<byte>> {
    if es == [] then None else if es[0].typ == EXT_KEY_SHARE then ParseKeyShare(es[0].data) else KeyShareOf(es[1..])
  }

  // ---- hellos ----------------------------------------------------------------------------------------

  datatype ClientHello = ClientHello(
    version: nat, random: seq<byte>, sessionId: seq<byte>, suites: seq<nat>, serverName: seq<byte>,
        alpn: seq<seq<byte>>)

  datatype ServerHello = ServerHello(version: nat, random: seq<byte>, sessionId: seq<byte>, suite: nat)

  function SuiteBytes(suites: seq<nat>): (s: seq<byte>)
    ensures |s| == 2 * |suites|
  {
    if suites == [] then [] else Put16(suites[0]) + SuiteBytes(suites[1..])
  }

  function ParseSuites(b: seq<byte>): seq<nat>
    decreases |b|
  {
    if |b| < 2 then [] else [U16(b)] + ParseSuites(b[2..])
  }

  lemma {:induction false} SuitesRoundTrip(suites: seq<nat>)
    requires forall k :: 0 <= k < |suites| ==> suites[k] < 0x1_0000
    ensures ParseSuites(SuiteBytes(suites)) == suites && |SuiteBytes(suites)| % 2 == 0
    decreases |suites|
  {
    if suites != [] {
      SuitesRoundTrip(suites[1..]);
      var b := SuiteBytes(suites);
      assert b[2..] == SuiteBytes(suites[1..]) && U16(b) == U16(Put16(suites[0]));
      assert suites == [suites[0]] + suites[1..];
    }
  }

  function ServerNameData(name: seq<byte>): seq<byte> {
    Put16(3 + |name|) + [0] + Put16(|name|) + name
  }

  const VERSIONS_EXT := Ext(EXT_SUPPORTED_VERSIONS, [2, 3, 4])

  function GroupsExt(): Ext {
    Ext(EXT_SUPPORTED_GROUPS, Put16(2) + Put16(X25519))
  }

  function AlgorithmsExt(): Ext {
    Ext(EXT_SIGNATURE_ALGORITHMS, Put16(6) + Put16(0x0804) + Put16(0x0403) + Put16(0x0807))
  }

  function NameExts(name: seq<byte>): seq<Ext> {
    if name == [] then [] else [Ext(EXT_SERVER_NAME, ServerNameData(name))]
  }

  function ProtocolExts(alpn: seq<seq<byte>>): seq<Ext> {
    if alpn == [] then [] else [Ext(EXT_ALPN, AlpnList(alpn))]
  }

  /** The four to six extensions of a ClientHello. */
  function ClientExts(ch: ClientHello, pub: seq<byte>): seq<Ext> {
    [VERSIONS_EXT] + ([GroupsExt()] + ([Ext(EXT_KEY_SHARE, KeyShareList(pub))]
    + ([AlgorithmsExt()] + (NameExts(ch.serverName) + ProtocolExts(ch.alpn)))))
  }

  /** The body that AppendClientHello wraps into a handshake message. */
  function ClientHelloBody(ch: ClientHello, pub: seq<byte>): seq<byte> {
    var exts := ExtsBytes(ClientExts(ch, pub));
    Put16(ch.version) + ch.random + [|ch.sessionId| % 256] + ch.sessionId
    + Put16(2 * |ch.suites|) + SuiteBytes(ch.suites) + [1, 0] + Put16(|exts|) + exts
  }

  function ServerExts(pub: seq<byte>): seq<Ext> {
    [Ext(EXT_SUPPORTED_VERSIONS, [3, 4]), Ext(EXT_KEY_SHARE, KeyShareEntry(pub))]
  }

  function ServerHelloBody(sh: ServerHello, pub: seq<byte>): seq<byte> {
    var exts := ExtsBytes(ServerExts(pub));
    Put16(sh.version) + sh.random + [|sh.sessionId| % 256] + sh.sessionId
    + Put16(sh.suite) + [0] + Put16(|exts|) + exts
  }

  /** A field with a one-byte length: its content and what follows it. */
  function Vec8(b: seq<byte>): (r: Option<(seq<byte>, seq<byte>)>)
    ensures r.Some? ==> |r.value.1| < |b|
  {
    if b == [] || 1 + b[0] as int > |b| then None else Some((b[1..1 + b[0] as int], b[1 + b[0] as int..]))
  }

  function Vec16(b: seq<byte>): (r: Option<(seq<byte>, seq<byte>)>) {
    if |b| < 2 || 2 + U16(b) > |b| then None else Some((b[2..2 + U16(b)], b[2 + U16(b)..]))
  }

  /** How one extension changes the hello that is being read. */
  function ReadExt(ch: ClientHello, e: Ext): ClientHello {
    if e.typ == EXT_SERVER_NAME then
      if |e.data| >= 5 && 5 + U16(e.data[3..]) <= |e.data| then ch.(serverName := e.data[5..5 + U16(e.data[3..])])
          else ch
    else if e.typ == EXT_ALPN then ch.(alpn := ch.alpn + ParseAlpnList(e.data))
    else ch
  }

  function ReadExts(ch: ClientHello, es: seq<Ext>): ClientHello
    decreases |es|
  {
    if es == [] then ch else ReadExts(ReadExt(ch, es[0]), es[1..])
  }

  /** Version, random and session number, with which both hellos begin, and the rest. */
  datatype Head = Head(version: nat, random: seq<byte>, sessionId: seq<byte>, rest: seq<byte>)

  function ReadHead(b: seq<byte>): Option<Head> {
    if |b| < 34 || Vec8(b[34..]).None? then None
    else Some(Head(U16(b), b[2..34], Vec8(b[34..]).value.0, Vec8(b[34..]).value.1))
  }

  /** The suites of a ClientHello, and what follows the compression methods. */
  function Suites(rest: seq<byte>): Option<(seq<byte>, seq<byte>)> {
    var cs := Vec16(rest);
    if cs.None? || Vec8(cs.value.1).None? then None else Some((cs.value.0, Vec8(cs.value.1).value.1))
  }

  /** ParseClientHello; a hello without extensions is accepted here. */
  function ParseClientHello(b: seq<byte>): Option<ClientHello> {
    var h := ReadHead(b);
    if h.None? then None
    else
      var s := Suites(h.value.rest);
      if s.None? || |s.value.0| % 2 != 0 then None
      else
        var ch := ClientHello(h.value.version, h.value.random, h.value.sessionId, ParseSuites(s.value.0), [], []);
        if |s.value.1| < 2 then Some(ch)
        else
          var exts := Vec16(s.value.1);
          if exts.None? then None else Some(ReadExts(ch, ParseExtensions(exts.value.0)))
  }

  function FindKeyShare(b: seq<byte>): Option<seq<byte>> {
    var exts := Vec16(b);
    if exts.None? then None else KeyShareOf(ParseExtensions(exts.value.0))
  }

  function ClientKeyShare(b: seq<byte>): Option<seq<byte>> {
    var h := ReadHead(b);
    if h.None? then None
    else
      var s := Suites(h.value.rest);
      if s.None? then None else FindKeyShare(s.value.1)
  }

  function ParseServerHello(b: seq<byte>): Option<ServerHello> {
    var h := ReadHead(b);
    if h.None? || |h.value.rest| < 2 then None
    else Some(ServerHello(h.value.version, h.value.random, h.value.sessionId, U16(h.value.rest)))
  }

  function ServerKeyShare(b: seq<byte>): Option<seq<byte>> {
    var h := ReadHead(b);
    if h.None? || |h.value.rest| < 3 then None else FindKeyShare(h.value.rest[3..])
  }

  // ---- the parsers undo the printers ------------------------------------------------------------------

  lemma Vec8Front(x: seq<byte>, later: seq<byte>)
    requires |x| < 256
    ensures Vec8([|x|] + x + later) == Some((x, later))
  {
    var b: seq<byte> := [|x|] + x + later;
    assert b[1..1 + |x|] == x && b[1 + |x|..] == later;
  }

  lemma Vec16Front(x: seq<byte>, later: seq<byte>)
    requires |x| < 0x1_0000
    ensures Vec16(Put16(|x|) + x + later) == Some((x, later))
  {
    var b := Put16(|x|) + x + later;
    assert U16(b) == U16(Put16(|x|));
    assert b[2..2 + |x|] == x && b[2 + |x|..] == later;
  }

  predicate HelloOk(ch: ClientHello, pub: seq<byte>) {
    && ch.version < 0x1_0000 && |ch.random| == 32 && |ch.sessionId| < 256
    && |ch.suites| < 0x8000 && (forall k :: 0 <= k < |ch.suites| ==> ch.suites[k] < 0x1_0000)
    && |ch.serverName| < 0xfff0 && AlpnOk(ch.alpn) && |pub| < 0xfffa
    && |ExtsBytes(ClientExts(ch, pub))| < 0x1_0000
  }

  lemma HeadRoundTrip(version: nat, random: seq<byte>, sid: seq<byte>, rest: seq<byte>)
    requires version < 0x1_0000 && |random| == 32 && |sid| < 256
    ensures ReadHead(Put16(version) + random + ([|sid|] + sid + rest)) == Some(Head(version, random, sid, rest))
  {
    var v, tail := Put16(version), [|sid|] + sid + rest;
    var b := v + random + tail;
    Vec8Front(sid, rest);
    hide Put16, Vec8;
    assert b[2..34] == random && b[34..] == tail && U16(b) == U16(v);
  }

  lemma SuitesFront(cs: seq<byte>, rest: seq<byte>)
    requires |cs| < 0x1_0000
    ensures Suites(Put16(|cs|) + cs + ([1, 0] + rest)) == Some((cs, rest))
  {
    Vec16Front(cs, [1, 0] + rest);
    Vec8Front([0], rest);
    assert [1] + [0] + rest == [1, 0] + rest;
    hide Put16, Vec16, Vec8;
  }

  lemma ExtsFront(exts: seq<byte>)
    requires |exts| < 0x1_0000
    ensures Vec16(Put16(|exts|) + exts) == Some((exts, []))
  {
    Vec16Front(exts, []);
    assert Put16(|exts|) + exts + [] == Put16(|exts|) + exts;
    hide Put16, Vec16;
  }

  /** What the fixed part of a ClientHello is cut into. */
  lemma ClientParts(ch: ClientHello, pub: seq<byte>)
    requires HelloOk(ch, pub)
    ensures var exts := ExtsBytes(ClientExts(ch, pub));
            var h := ReadHead(ClientHelloBody(ch, pub));
            && h.Some? && h.value == Head(ch.version, ch.random, ch.sessionId, h.value.rest)
            && Suites(h.value.rest) == Some((SuiteBytes(ch.suites), Put16(|exts|) + exts))
            && Vec16(Put16(|exts|) + exts) == Some((exts, []))
  {
    var exts, cs := ExtsBytes(ClientExts(ch, pub)), SuiteBytes(ch.suites);
    hide Put16, ExtsBytes, ClientExts, SuiteBytes, Vec16, ReadHead, Suites;
    var v, sid, tail := Put16(ch.version), ch.sessionId, Put16(|exts|) + exts;
    var rest := Put16(|cs|) + cs + ([1, 0] + tail);
    ClientJoin(v, ch.random, [|sid|], sid, Put16(|cs|), cs, Put16(|exts|), exts);
    assert ClientHelloBody(ch, pub) == v + ch.random + ([|sid|] + sid + rest);
    HeadRoundTrip(ch.version, ch.random, sid, rest);
    SuitesFront(cs, tail);
    ExtsFront(exts);
  }

  lemma ClientJoin(v: seq<byte>, r: seq<byte>, n: seq<byte>, sid: seq<byte>, m: seq<byte>, cs: seq<byte>, l: seq<byte>,
      exts: seq<byte>)
    ensures v + r + n + sid + m + cs + [1, 0] + l + exts == v + r + (n + sid + (m + cs + ([1, 0] + (l + exts))))
  {
  }

  lemma ClientExtsFit(ch: ClientHello, pub: seq<byte>)
    requires HelloOk(ch, pub)
    ensures forall k :: 0 <= k < |ClientExts(ch, pub)| ==> Fits(ClientExts(ch, pub)[k])
  {
    hide ExtsBytes, Put16;
  }

  lemma ServerNameRead(ch: ClientHello, name: seq<byte>)
    requires |name| < 0xfff0
    ensures ReadExt(ch, Ext(EXT_SERVER_NAME, ServerNameData(name))) == ch.(serverName := name)
  {
    var data := ServerNameData(name);
    assert data[3..] == Put16(|name|) + name && U16(data[3..]) == U16(Put16(|name|));
    assert data[5..5 + |name|] == name;
  }

  lemma ReadOne(ch: ClientHello, e: Ext, more: seq<Ext>)
    ensures ReadExts(ch, [e] + more) == ReadExts(ReadExt(ch, e), more)
  {
    assert ([e] + more)[1..] == more;
  }

  /** Reading the extensions of a hello finds its server name and its protocols. */
  lemma ClientExtsRead(ch: ClientHello, pub: seq<byte>, ch0: ClientHello)
    requires HelloOk(ch, pub) && ch0.serverName == [] && ch0.alpn == []
    ensures ReadExts(ch0, ClientExts(ch, pub)) == ch0.(serverName := ch.serverName, alpn := ch.alpn)
  {
    hide Put16, KeyShareList, ExtsBytes, AlpnList, ServerNameData, NameExts, ProtocolExts, AlpnOk;
    var more := NameExts(ch.serverName) + ProtocolExts(ch.alpn);
    var share := Ext(EXT_KEY_SHARE, KeyShareList(pub));
    hide ReadExts;
    ReadOne(ch0, VERSIONS_EXT, [GroupsExt()] + ([share] + ([AlgorithmsExt()] + more)));
    ReadOne(ch0, GroupsExt(), [share] + ([AlgorithmsExt()] + more));
    ReadOne(ch0, share, [AlgorithmsExt()] + more);
    ReadOne(ch0, AlgorithmsExt(), more);
    NamesThenProtocols(ch, ch0);
  }

  lemma NamesThenProtocols(ch: ClientHello, ch0: ClientHello)
    requires |ch.serverName| < 0xfff0 && AlpnOk(ch.alpn) && ch0.serverName == [] && ch0.alpn == []
    ensures ReadExts(ch0, NameExts(ch.serverName) + ProtocolExts(ch.alpn))
              == ch0.(serverName := ch.serverName, alpn := ch.alpn)
  {
    hide ServerNameData, AlpnList, ParseAlpnList;
    var names, protos := NameExts(ch.serverName), ProtocolExts(ch.alpn);
    var ch1 := ch0.(serverName := ch.serverName);
    if ch.serverName == [] {
      assert names + protos == protos;
    } else {
      ServerNameRead(ch0, ch.serverName);
      ReadOne(ch0, names[0], protos);
      assert names + protos == [names[0]] + protos;
    }
    if ch.alpn != [] {
      AlpnListRoundTrip(ch.alpn);
      assert [] + ch.alpn == ch.alpn;
      ReadOne(ch1, protos[0], []);
      assert protos == [protos[0]] + [];
    }
  }

  lemma ShareSkip(e: Ext, more: seq<Ext>)
    ensures KeyShareOf([e] + more) == if e.typ == EXT_KEY_SHARE then ParseKeyShare(e.data) else KeyShareOf(more)
  {
    assert ([e] + more)[1..] == more;
  }

  lemma ClientShareFound(ch: ClientHello, pub: seq<byte>)
    requires |pub| < 0xfffa
    ensures KeyShareOf(ClientExts(ch, pub)) == Some(pub)
  {
    KeyShareRoundTrip(pub);
    hide Put16, KeyShareList, ParseKeyShare, KeyShareOf, NameExts, ProtocolExts;
    var more := [AlgorithmsExt()] + (NameExts(ch.serverName) + ProtocolExts(ch.alpn));
    var share := Ext(EXT_KEY_SHARE, KeyShareList(pub));
    ShareSkip(VERSIONS_EXT, [GroupsExt()] + ([share] + more));
    ShareSkip(GroupsExt(), [share] + more);
    ShareSkip(share, more);
  }

  /** The server reads every field of the hello, and the key share, back. */
  lemma ClientHelloRoundTrip(ch: ClientHello, pub: seq<byte>)
    requires HelloOk(ch, pub)
    ensures ParseClientHello(ClientHelloBody(ch, pub)) == Some(ch)
    ensures ClientKeyShare(ClientHelloBody(ch, pub)) == Some(pub)
  {
    var ch0 := ClientHello(ch.version, ch.random, ch.sessionId, ch.suites, [], []);
    assert (forall k :: 0 <= k < |ch.suites| ==> ch.suites[k] < 0x1_0000) && |pub| < 0xfffa;
    hide *;
    ClientParts(ch, pub);
    ClientExtsFit(ch, pub);
    ExtensionsRoundTrip(ClientExts(ch, pub));
    SuitesRoundTrip(ch.suites);
    ClientExtsRead(ch, pub, ch0);
    ClientShareFound(ch, pub);
    ClientHelloFrom(ClientHelloBody(ch, pub), ch, pub);
  }

  lemma ClientHelloFrom(b: seq<byte>, ch: ClientHello, pub: seq<byte>)
    requires var exts := ExtsBytes(ClientExts(ch, pub));
             && ReadHead(b).Some? && ReadHead(b).value
                  == Head(ch.version, ch.random, ch.sessionId, ReadHead(b).value.rest)
             && Suites(ReadHead(b).value.rest) == Some((SuiteBytes(ch.suites), Put16(|exts|) + exts))
             && Vec16(Put16(|exts|) + exts) == Some((exts, []))
    requires ParseExtensions(ExtsBytes(ClientExts(ch, pub))) == ClientExts(ch, pub)
    requires ParseSuites(SuiteBytes(ch.suites)) == ch.suites && |SuiteBytes(ch.suites)| % 2 == 0
    requires ReadExts(ClientHello(ch.version, ch.random, ch.sessionId, ch.suites, [], []), ClientExts(ch, pub)) == ch
    requires KeyShareOf(ClientExts(ch, pub)) == Some(pub)
    ensures ParseClientHello(b) == Some(ch) && ClientKeyShare(b) == Some(pub)
  {
    hide ReadHead, Suites, Vec16, Put16, ExtsBytes, ClientExts, SuiteBytes, ParseSuites, ParseExtensions, ReadExts,
        KeyShareOf;
  }

  predicate AnswerOk(sh: ServerHello, pub: seq<byte>) {
    sh.version < 0x1_0000 && |sh.random| == 32 && |sh.sessionId| < 256 && sh.suite < 0x1_0000 && |pub| < 0xf000
  }

  lemma ServerHelloRoundTrip(sh: ServerHello, pub: seq<byte>)
    requires AnswerOk(sh, pub)
    ensures ParseServerHello(ServerHelloBody(sh, pub)) == Some(sh)
    ensures ServerKeyShare(ServerHelloBody(sh, pub)) == Some(pub)
  {
    assert sh.version < 0x1_0000 && |sh.random| == 32 && |sh.sessionId| < 256 && sh.suite < 0x1_0000 && |pub| < 0xf000;
    hide *;
    var es := ServerExts(pub);
    var exts := ExtsBytes(es);
    var rest := Put16(sh.suite) + [0] + (Put16(|exts|) + exts);
    ServerExtsFit(pub);
    ExtensionsRoundTrip(es);
    ServerShareFound(pub);
    ServerBody(sh, pub);
    HeadRoundTrip(sh.version, sh.random, sh.sessionId, rest);
    ExtsFront(exts);
    SuiteFits(sh.suite);
    RestAt(Put16(sh.suite), Put16(|exts|) + exts);
    ServerHelloFrom(ServerHelloBody(sh, pub), rest, exts, sh, pub);
  }

  lemma ServerBody(sh: ServerHello, pub: seq<byte>)
    requires |sh.sessionId| < 256
    ensures var exts := ExtsBytes(ServerExts(pub));
            ServerHelloBody(sh, pub) ==
              Put16(sh.version) + sh.random
                  + ([|sh.sessionId|] + sh.sessionId + (Put16(sh.suite) + [0] + (Put16(|exts|) + exts)))
  {
    var exts := ExtsBytes(ServerExts(pub));
    hide ExtsBytes, ServerExts, Put16;
    ServerJoin(Put16(sh.version), sh.random, [|sh.sessionId|], sh.sessionId, Put16(sh.suite), Put16(|exts|), exts);
  }

  lemma RestAt(suite: seq<byte>, tail: seq<byte>)
    requires |suite| == 2
    ensures var rest := suite + [0] + tail; |rest| >= 3 && rest[3..] == tail && U16(rest) == U16(suite)
  {
  }

  lemma ServerHelloFrom(b: seq<byte>, rest: seq<byte>, exts: seq<byte>, sh: ServerHello, pub: seq<byte>)
    requires ReadHead(b) == Some(Head(sh.version, sh.random, sh.sessionId, rest))
    requires |rest| >= 3 && U16(rest) == sh.suite && Vec16(rest[3..]) == Some((exts, []))
    requires KeyShareOf(ParseExtensions(exts)) == Some(pub)
    ensures ParseServerHello(b) == Some(sh) && ServerKeyShare(b) == Some(pub)
  {
    hide ReadHead, Vec16, KeyShareOf, ParseExtensions, U16;
  }

  lemma SuiteFits(suite: nat)
    requires suite < 0x1_0000
    ensures U16(Put16(suite)) == suite && |Put16(suite)| == 2
  {
  }

  lemma ServerJoin(v: seq<byte>, r: seq<byte>, n: seq<byte>, sid: seq<byte>, suite: seq<byte>, l: seq<byte>,
      exts: seq<byte>)
    ensures v + r + n + sid + suite + [0] + l + exts == v + r + (n + sid + (suite + [0] + (l + exts)))
  {
  }

  lemma ServerExtsFit(pub: seq<byte>)
    requires |pub| < 0xf000
    ensures forall k :: 0 <= k < |ServerExts(pub)| ==> Fits(ServerExts(pub)[k])
    ensures |ExtsBytes(ServerExts(pub))| < 0x1_0000
  {
    var es := ServerExts(pub);
    assert es[1..] == [es[1]] && [es[1]][1..] == [];
    assert |ExtsBytes(es)| == |ExtBytes(es[0])| + |ExtsBytes(es[1..])|;
  }

  lemma ServerShareFound(pub: seq<byte>)
    requires |pub| < 0xf000
    ensures KeyShareOf(ServerExts(pub)) == Some(pub)
  {
    KeyShareRoundTrip(pub);
    var es := ServerExts(pub);
    assert es[1..][0] == es[1];
    hide KeyShareEntry, ParseKeyShare;
    assert KeyShareOf(es) == KeyShareOf(es[1..]);
  }
}
