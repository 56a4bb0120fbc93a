/** Bytes, big-endian numbers and exclusive or, as the wire formats use them. */
module Bytes {

  type byte = x: int | 0 <= x < 256

  datatype Option<+T> = None | Some(value: T)

  lemma Assoc<T>(a: seq<T>, b: seq<T>, c: seq<T>)
    ensures a + (b + c) == a + b + c
  {
  }

  function Pow256(n: nat): (p: nat)
    ensures p >= 1
  {
    if n == 0 then 1 else 256 * Pow256(n - 1)
  }

  /** The low `n` bytes of `v`, most significant first. */
  function ToBE(v: nat, n: nat): (s: seq<byte>)
    ensures |s| == n
  {
    if n == 0 then [] else ToBE(v / 256, n - 1) + [v % 256]
  }

  function FromBE(s: seq<byte>): (v: nat)
    ensures v < Pow256(|s|)
  {
    if s == [] then 0 else FromBE(s[..|s| - 1]) * 256 + s[|s| - 1]
  }

  /** Reading back `n` bytes of a number that fits them. */
  lemma {:induction false} FromTo(v: nat, n: nat)
    requires v < Pow256(n)
    ensures FromBE(ToBE(v, n)) == v
  {
    if n > 0 {
      FromTo(v / 256, n - 1);
      var s := ToBE(v, n);
      assert s[..n - 1] == ToBE(v / 256, n - 1) && s[n - 1] == v % 256;
    }
  }

  lemma LastByte(v: nat, n: nat)
    requires n > 0
    ensures ToBE(v, n) == ToBE(v / 256, n - 1) + [v % 256] && ToBE(v, 0) == []
  {
  }

  /** Most significant byte first, for the widths that the formats use. */
  lemma BigEndian(v: nat)
    ensures ToBE(v, 1) == [v % 256] && ToBE(v, 2) == [v / 0x100 % 256, v % 256]
    ensures ToBE(v, 3) == [v / 0x1_0000 % 256, v / 0x100 % 256, v % 256]
    ensures ToBE(v, 4) == [v / 0x100_0000 % 256, v / 0x1_0000 % 256, v / 0x100 % 256, v % 256]
  {
    hide ToBE;
    var a, b, c := v / 256, v / 0x1_0000, v / 0x100_0000;
    assert a / 256 == b && b / 256 == c;
    Widths(v, a, b, c);
  }

  lemma Widths(v: nat, a: nat, b: nat, c: nat)
    requires v / 256 == a && a / 256 == b && b / 256 == c
    ensures ToBE(v, 1) == [v % 256] && ToBE(v, 2) == [a % 256, v % 256]
    ensures ToBE(v, 3) == [b % 256, a % 256, v % 256] && ToBE(v, 4) == [c % 256, b % 256, a % 256, v % 256]
  {
    hide ToBE;
    LastByte(c, 1);
    LastByte(b, 1);
    LastByte(b, 2);
    LastByte(a, 1);
    LastByte(a, 2);
    LastByte(a, 3);
    LastByte(v, 1);
    LastByte(v, 2);
    LastByte(v, 3);
    LastByte(v, 4);
    LastByte(c / 256, 1);
  }

  /** Eight bytes are the upper four and the lower four. */
  lemma BigEndian8(v: nat)
    ensures ToBE(v, 8) == ToBE(v / 0x1_0000_0000, 4) + ToBE(v, 4)
  {
    hide ToBE;
    var a, b, c, d := v / 0x100, v / 0x1_0000, v / 0x100_0000, v / 0x1_0000_0000;
    assert a / 256 == b && b / 256 == c && c / 256 == d;
    Widths(v, a, b, c);
    LastByte(v, 8);
    LastByte(a, 7);
    LastByte(b, 6);
    LastByte(c, 5);
  }

  lemma ReadBigEndian(a: byte, b: byte, c: byte, d: byte)
    ensures FromBE([a]) == a && FromBE([a, b]) == 0x100 * a + b && FromBE([a, b, c]) == 0x1_0000 * a + 0x100 * b + c
    ensures FromBE([a, b, c, d]) == 0x100_0000 * a + 0x1_0000 * b + 0x100 * c + d
  {
    var s: seq<byte> := [a, b, c, d];
    assert s[..3] == [a, b, c] && s[..3][..2] == [a, b] && s[..3][..2][..1] == [a] && s[..1][..0] == [];
    assert FromBE(s[..1]) == a by { assert s[..1][..0] == [] && s[..1] == [a]; }
    assert FromBE([a, b]) == FromBE([a, b][..1]) * 256 + b && [a, b][..1] == [a];
    assert FromBE([a, b, c]) == FromBE([a, b, c][..2]) * 256 + c && [a, b, c][..2] == [a, b];
    assert FromBE(s) == FromBE(s[..3]) * 256 + d;
  }

  /** Numbers that fill their field, or less. */
  lemma Within3(v: nat)
    requires v < 0x100_0000
    ensures ToBE(v, 3) == [v / 0x1_0000, v / 0x100 % 256, v % 256]
  {
    BigEndian(v);
    hide ToBE;
    assert v / 0x1_0000 < 256;
  }

  lemma Within4(v: nat)
    requires v < 0x1_0000_0000
    ensures ToBE(v, 4) == [v / 0x100_0000, v / 0x1_0000 % 256, v / 0x100 % 256, v % 256]
  {
    BigEndian(v);
    hide ToBE;
    assert v / 0x100_0000 < 256;
  }

  lemma Digits2(v: nat, a: byte, b: byte)
    requires v == 0x100 * (a as int) + b
    ensures ToBE(v, 2) == [a, b]
  {
    BigEndian(v);
    hide ToBE;
  }

  lemma Digits4(v: nat, a: byte, b: byte, c: byte, d: byte)
    requires v == 0x100_0000 * (a as int) + 0x1_0000 * (b as int) + 0x100 * (c as int) + d
    ensures ToBE(v, 4) == [a, b, c, d]
  {
    hide ToBE;
    var z: nat := a as int;
    var y := 256 * z + b;
    var x := 256 * y + c;
    assert v == 256 * x + d;
    assert v / 256 == x && x / 256 == y && y / 256 == z;
    Widths(v, x, y, z);
  }

  /** Bytes in front count for the bytes behind them. */
  lemma {:induction false} ReadBoth(a: seq<byte>, b: seq<byte>)
    ensures FromBE(a + b) == FromBE(a) * Pow256(|b|) + FromBE(b)
    decreases |b|
  {
    if b == [] {
      assert a + b == a;
    } else {
      var b', x := b[..|b| - 1], b[|b| - 1] as int;
      assert (a + b)[..|a + b| - 1] == a + b' && (a + b)[|a + b| - 1] == b[|b| - 1];
      ReadBoth(a, b');
      Shifted(FromBE(a), Pow256(|b'|), FromBE(b'), x);
    }
  }

  lemma Shifted(u: nat, p: nat, v: nat, x: nat)
    ensures (u * p + v) * 256 + x == u * (256 * p) + (v * 256 + x)
  {
    assert (u * p) * 256 == u * (256 * p);
  }

  lemma ReadHalves(a: seq<byte>, b: seq<byte>)
    requires |a| == |b| == 4
    ensures FromBE(a + b) == 0x1_0000_0000 * FromBE(a) + FromBE(b)
  {
    hide FromBE;
    ReadBoth(a, b);
    Powers();
  }

  lemma Powers()
    ensures Pow256(1) == 0x100 && Pow256(2) == 0x1_0000 && Pow256(3) == 0x100_0000 && Pow256(4) == 0x1_0000_0000
    ensures Pow256(7) == 0x100_0000_0000_0000 && Pow256(8) == 0x1_0000_0000_0000_0000
  {
    assert Pow256(5) == 0x100_0000_0000 && Pow256(6) == 0x1_0000_0000_0000 by {
      assert Pow256(4) == 256 * 256 * 256 * 256;
    }
  }

  /** Exclusive or of the low `n` bits. */
  function XorBits(a: nat, b: nat, n: nat): (r: nat) {
    if n == 0 then 0 else 2 * XorBits(a / 2, b / 2, n - 1) + (a % 2 + b % 2) % 2
  }

  function Pow2(n: nat): (p: nat)
    ensures p >= 1
  {
    if n == 0 then 1 else 2 * Pow2(n - 1)
  }

  lemma {:induction false} XorFits(a: nat, b: nat, n: nat)
    ensures XorBits(a, b, n) < Pow2(n)
  {
    if n > 0 { XorFits(a / 2, b / 2, n - 1); }
  }

  lemma {:induction false} XorUndoes(a: nat, b: nat, n: nat)
    requires a < Pow2(n)
    ensures XorBits(XorBits(a, b, n), b, n) == a
  {
    if n > 0 {
      XorUndoes(a / 2, b / 2, n - 1);
      var x := XorBits(a, b, n);
      XorLow(a, b, n);
      XorLow(x, b, n);
      Parity(a % 2, b % 2);
      hide XorBits;
      assert XorBits(x, b, n) / 2 == a / 2 && XorBits(x, b, n) % 2 == a % 2;
    }
  }

  lemma Parity(a: nat, b: nat)
    requires a < 2 && b < 2
    ensures ((a + b) % 2 + b) % 2 == a
  {
    if a == b { assert (a + b) % 2 == 0; } else { assert (a + b) % 2 == 1; }
  }

  /** The lowest bit of the result, and the others. */
  lemma XorLow(a: nat, b: nat, n: nat)
    requires n > 0
    ensures XorBits(a, b, n) % 2 == (a % 2 + b % 2) % 2 && XorBits(a, b, n) / 2 == XorBits(a / 2, b / 2, n - 1)
  {
  }

  function Xor(a: byte, b: byte): (r: byte) {
    XorFits(a, b, 8);
    assert Pow2(8) == 256 by { assert Pow2(4) == 16; }
    XorBits(a, b, 8)
  }

  /** Bit `k` of a number; bit 0 is the lowest. */
  function Bit(x: nat, k: nat): nat {
    if k == 0 then x % 2 else Bit(x / 2, k - 1)
  }

  /** Each bit of the result is the sum of the two bits, without carry. */
  lemma {:induction false} XorBitwise(a: nat, b: nat, n: nat, k: nat)
    requires k < n
    ensures Bit(XorBits(a, b, n), k) == (Bit(a, k) + Bit(b, k)) % 2
  {
    XorLow(a, b, n);
    hide XorBits;
    if k > 0 { XorBitwise(a / 2, b / 2, n - 1, k - 1); }
  }

  lemma {:induction false} XorBitsCommute(a: nat, b: nat, n: nat)
    ensures XorBits(a, b, n) == XorBits(b, a, n)
  {
    if n > 0 { XorBitsCommute(a / 2, b / 2, n - 1); }
  }

  lemma XorCommutes(a: byte, b: byte)
    ensures Xor(a, b) == Xor(b, a)
  {
    XorBitsCommute(a, b, 8);
  }

  lemma XorTwice(a: byte, b: byte)
    ensures Xor(Xor(a, b), b) == a
  {
    assert Pow2(8) == 256 by { assert Pow2(4) == 16; }
    XorUndoes(a, b, 8);
  }
}
