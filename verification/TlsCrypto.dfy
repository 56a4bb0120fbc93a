/** Keys and protected records of TLS 1.3 (tls/keyschedule.go, tls/aead.go). */
module TlsCrypto {
  import opened Bytes

  // ---- primitives ------------------------------------------------------------------------

  /** The primitives, as functions of which only the laws below are known. */
  datatype Crypto = Crypto(
    hash: seq<byte> -> seq<byte>,
    hmac: (seq<byte>, seq<byte>) -> seq<byte>,
    expand: (seq<byte>, seq<byte>, nat) -> seq<byte>,
    pub: seq<byte> -> seq<byte>,
    dh: (seq<byte>, seq<byte>) -> Option<seq<byte>>,
    aeadSeal: (seq<byte>, seq<byte>, seq<byte>, seq<byte>) -> seq<byte>,
    aeadOpen: (seq<byte>, seq<byte>, seq<byte>, seq<byte>) -> Option<seq<byte>>)

  const HASH_SIZE := 32
  const PUB_SIZE := 32
  const TAG_SIZE := 16
  const IV_SIZE := 12

  ghost predicate Sound(c: Crypto) {
    && (forall x: seq<byte> :: |c.hash(x)| == HASH_SIZE)
    && (forall k: seq<byte>, x: seq<byte> :: |c.hmac(k, x)| == HASH_SIZE)
    && (forall k: seq<byte>, x: seq<byte>, n: nat :: |c.expand(k, x, n)| == n)
    && (forall a: seq<byte> :: |c.pub(a)| == PUB_SIZE)
    && (forall a: seq<byte>, b: seq<byte> {:trigger c.dh(a, c.pub(b))} :: c.dh(a, c.pub(b)).Some?
         && c.dh(a, c.pub(b)) == c.dh(b, c.pub(a)))
    && (forall k: seq<byte>, n: seq<byte>, x: seq<byte>, ad: seq<byte> {:trigger c.aeadSeal(k, n, x, ad)} ::
          |c.aeadSeal(k, n, x, ad)| == |x| + TAG_SIZE && c.aeadOpen(k, n, c.aeadSeal(k, n, x, ad), ad) == Some(x))
  }

  // ---- key schedule (section 7.1 of RFC 8446) ------------------------------------------------

  function Ascii(s: string): seq<byte> {
    if s == "" then [] else [(s[0] as int) % 256] + Ascii(s[1..])
  }

  function Zeros(n: nat): seq<byte> {
    if n == 0 then [] else [0] + Zeros(n - 1)
  }

  function ExpandLabel(c: Crypto, secret: seq<byte>, name: string, context: seq<byte>, n: nat): seq<byte> {
    var full := Ascii("tls13 ") + Ascii(name);
    c.expand(secret, ToBE(n, 2) + ToBE(|full|, 1) + full + ToBE(|context|, 1) + context, n)
  }

  function DeriveSecret(c: Crypto, secret: seq<byte>, name: string, transcriptHash: seq<byte>): seq<byte> {
    ExpandLabel(c, secret, name, transcriptHash, HASH_SIZE)
  }

  function EarlySecret(c: Crypto): seq<byte> {
    c.hmac(Zeros(HASH_SIZE), Zeros(HASH_SIZE))
  }

  function HandshakeSecret(c: Crypto, shared: seq<byte>): seq<byte> {
    c.hmac(DeriveSecret(c, EarlySecret(c), "derived", c.hash([])), shared)
  }

  function MasterSecret(c: Crypto, handshakeSecret: seq<byte>): seq<byte> {
    c.hmac(DeriveSecret(c, handshakeSecret, "derived", c.hash([])), Zeros(HASH_SIZE))
  }

  function FinishedData(c: Crypto, baseSecret: seq<byte>, transcriptHash: seq<byte>): seq<byte> {
    c.hmac(ExpandLabel(c, baseSecret, "finished", [], HASH_SIZE), transcriptHash)
  }

  // ---- record protection (sections 5.2 and 5.3 of RFC 8446) -------------------------------------

  const SEQ_LIMIT := 0xffff_ffff_ffff_ffff
  const APPLICATION_DATA: byte := 23

  datatype Protector = Protector(key: seq<byte>, iv: seq<byte>, count: nat)

  function NewProtector(c: Crypto, secret: seq<byte>): Protector {
    Protector(ExpandLabel(c, secret, "key", [], 16), ExpandLabel(c, secret, "iv", [], IV_SIZE), 0)
  }

  function XorAll(a: seq<byte>, b: seq<byte>): (r: seq<byte>)
    requires |a| == |b|
    ensures |r| == |a|
  {
    if a == [] then [] else [Xor(a[0], b[0])] + XorAll(a[1..], b[1..])
  }

  /** The record number, exclusive-ored into the last eight bytes of the iv. */
  function Nonce(iv: seq<byte>, count: nat): (n: seq<byte>)
    requires |iv| >= 8
    ensures |n| == |iv|
  {
    iv[..|iv| - 8] + XorAll(iv[|iv| - 8..], ToBE(count, 8))
  }

  lemma {:induction false} XorAllAt(a: seq<byte>, b: seq<byte>, k: nat)
    requires |a| == |b| && k < |a|
    ensures XorAll(a, b)[k] == Xor(a[k], b[k])
  {
    hide Xor;
    if k > 0 { XorAllAt(a[1..], b[1..], k - 1); }
  }

  method NonceBytes(iv: seq<byte>, count: nat) returns (n: array<byte>)
    requires |iv| >= 8
    ensures fresh(n) && n[..] == Nonce(iv, count)
  {
    hide Xor;
    n := new byte[|iv|](i requires 0 <= i < |iv| => iv[i]);
    var number := ToBE(count, 8);
    var off := |iv| - 8;
    for i := 0 to 8
      invariant forall k :: 0 <= k < off ==> n[k] == iv[k]
      invariant forall k :: off <= k < off + i ==> n[k] == Xor(iv[k], number[k - off])
      invariant forall k :: off + i <= k < |iv| ==> n[k] == iv[k]
    {
      n[off + i] := Xor(n[off + i], number[i]);
    }
    forall k | off <= k < |iv|
        ensures n[k] == XorAll(iv[off..], number)[k - off] { XorAllAt(iv[off..], number, k - off); }
    assert n[..] == iv[..off] + XorAll(iv[off..], number);
  }

  /** Different record numbers give different nonces. */
  lemma NonceInjective(iv: seq<byte>, i: nat, j: nat)
    requires |iv| >= 8 && i < SEQ_LIMIT && j < SEQ_LIMIT && Nonce(iv, i) == Nonce(iv, j)
    ensures i == j
  {
    hide Xor;
    var last := iv[|iv| - 8..];
    assert Nonce(iv, i)[|iv| - 8..] == XorAll(last, ToBE(i, 8)) && Nonce(iv, j)[|iv| - 8..] == XorAll(last, ToBE(j, 8));
    XorAllInjective(last, ToBE(i, 8), ToBE(j, 8));
    Powers();
    FromTo(i, 8);
    FromTo(j, 8);
  }

  lemma {:induction false} XorAllInjective(a: seq<byte>, b: seq<byte>, b': seq<byte>)
    requires |a| == |b| == |b'| && XorAll(a, b) == XorAll(a, b')
    ensures b == b'
  {
    hide Xor;
    if a != [] {
      XorSame(a[0], b[0], b'[0]);
      assert XorAll(a, b)[1..] == XorAll(a[1..], b[1..]) && XorAll(a, b')[1..] == XorAll(a[1..], b'[1..]);
      XorAllInjective(a[1..], b[1..], b'[1..]);
      assert b == [b[0]] + b[1..] && b' == [b'[0]] + b'[1..];
    }
  }

  lemma XorSame(a: byte, b: byte, b': byte)
    ensures Xor(a, b) == Xor(a, b') ==> b == b'
  {
    hide Xor;
    XorCommutes(a, b);
    XorCommutes(a, b');
    XorTwice(b, a);
    XorTwice(b', a);
  }

  /** The record header, with the outer type and the length of the protected record. */
  function AdditionalData(n: nat): seq<byte> {
    [APPLICATION_DATA] + ToBE(0x0303, 2) + ToBE(n, 2)
  }

  /** seal: the real type goes behind the content; `None` when the numbers are used up. */
  function Seal(c: Crypto, p: Protector, innerType: byte, content: seq<byte>): Option<(Protector, seq<byte>)>
    requires |p.iv| >= 8
  {
    if p.count >= SEQ_LIMIT then None
    else
      var inner := content + [innerType];
      Some((p.(count := p.count + 1),
          c.aeadSeal(p.key, Nonce(p.iv, p.count), inner, AdditionalData(|inner| + TAG_SIZE))))
  }

  /** The record is long enough, and the AEAD accepts it under the number that comes next. */
  predicate Authentic(c: Crypto, p: Protector, ct: seq<byte>)
    requires |p.iv| >= 8
  {
    |ct| >= TAG_SIZE && c.aeadOpen(p.key, Nonce(p.iv, p.count), ct, AdditionalData(|ct|)).Some?
  }

  /** A record that is authentic and hollow, without even a type, is refused, but its number is
      used up. */
  datatype Opened = Opened(p: Protector, content: seq<byte>, innerType: byte) | Hollow(p: Protector) | Unopened

  function Open(c: Crypto, p: Protector, ct: seq<byte>): Opened
    requires |p.iv| >= 8
  {
    if |ct| < TAG_SIZE then Unopened
    else
      var inner := c.aeadOpen(p.key, Nonce(p.iv, p.count), ct, AdditionalData(|ct|));
      if inner.None? then Unopened
      else if inner.value == [] then Hollow(p.(count := p.count + 1))
      else
        var x := inner.value;
        Opened(p.(count := p.count + 1), x[..|x| - 1], x[|x| - 1])
  }

  /** A record opens to what was sealed when both sides hold the same key and number; then
      their numbers agree again. */
  lemma OpenUndoesSeal(c: Crypto, p: Protector, innerType: byte, content: seq<byte>)
    requires Sound(c) && |p.iv| >= 8 && p.count < SEQ_LIMIT
    ensures var s := Seal(c, p, innerType, content).value;
            && |s.1| == |content| + 1 + TAG_SIZE
            && Open(c, p, s.1) == Opened(s.0, content, innerType)
  {
    hide Nonce, AdditionalData;
    var inner := content + [innerType];
    assert inner[..|inner| - 1] == content && inner[|inner| - 1] == innerType;
  }

  /** A peer may put zeros behind the type, as padding (section 5.4 of RFC 8446). They are not
      taken off: the record is read as it was meant exactly when there are none. */
  lemma PaddingIsNotTakenOff(c: Crypto, p: Protector, innerType: byte, content: seq<byte>, padding: nat)
    requires Sound(c) && |p.iv| >= 8 && innerType != 0
    ensures var inner := content + [innerType] + seq(padding, _ => 0);
            var ct := c.aeadSeal(p.key, Nonce(p.iv, p.count), inner, AdditionalData(|inner| + TAG_SIZE));
            && Open(c, p, ct).Opened?
            && (Open(c, p, ct).content == content && Open(c, p, ct).innerType == innerType <==> padding == 0)
  {
    var inner := content + [innerType] + seq(padding, _ => 0);
    hide Nonce, AdditionalData;
    assert inner != [];
    if padding == 0 {
      assert inner[..|inner| - 1] == content && inner[|inner| - 1] == innerType;
    } else {
      assert inner[|inner| - 1] == 0;
    }
  }

  /** The object: its number moves with every record sealed or opened. */
  class RecordProtector {
    const c: Crypto
    const key: seq<byte>
    const iv: seq<byte>
    var count: nat

    constructor (c: Crypto, secret: seq<byte>)
      requires Sound(c)
      ensures State() == NewProtector(c, secret) && this.c == c && |iv| == IV_SIZE
    {
      this.c := c;
      key := ExpandLabel(c, secret, "key", [], 16);
      iv := ExpandLabel(c, secret, "iv", [], IV_SIZE);
      count := 0;
    }

    ghost function State(): Protector
      reads this
    {
      Protector(key, iv, count)
    }

    method SealRecord(innerType: byte, plaintext: seq<byte>) returns (out: Option<seq<byte>>)
      requires |iv| >= 8
      modifies this
      ensures match Seal(c, old(State()), innerType, plaintext)
              case None => out.None? && State() == old(State())
              case Some(r) => out == Some(r.1) && State() == r.0
    {
      if count >= SEQ_LIMIT {
        return None;
      }
      var inner := plaintext + [innerType];
      var nonce := NonceBytes(iv, count);
      out := Some(c.aeadSeal(key, nonce[..], inner, AdditionalData(|inner| + TAG_SIZE)));
      count := count + 1;
    }

    /** The number moves as soon as the record is authentic, even if its content is empty. */
    method OpenRecord(ciphertext: seq<byte>) returns (content: seq<byte>, innerType: byte, ok: bool)
      requires |iv| >= 8
      modifies this
      ensures Open(c, old(State()), ciphertext) ==
                if ok then Opened(State(), content, innerType) else if State() != old(State()) then Hollow(State())
                    else Unopened
      ensures count == old(count) + (if Authentic(c, old(State()), ciphertext) then 1 else 0)
    {
      if |ciphertext| < TAG_SIZE {
        return [], 0, false;
      }
      var nonce := NonceBytes(iv, count);
      var inner := c.aeadOpen(key, nonce[..], ciphertext, AdditionalData(|ciphertext|));
      if inner.None? {
        return [], 0, false;
      }
      count := count + 1;
      var x := inner.value;
      if |x| == 0 {
        return [], 0, false;
      }
      return x[..|x| - 1], x[|x| - 1], true;
    }
  }
}
