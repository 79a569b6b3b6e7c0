/** Bytes as the small integers they are, exclusive or on them bit by bit, and
    the two byte orders the repository uses. */
module Bytes {
  type byte = x: int | 0 <= x < 256

  datatype Option<+T> = None | Some(value: T)

  /** Exclusive or of the `bits` low bits of two numbers, least significant bit first. */
  function XorBits(a: nat, b: nat, bits: nat): (r: nat)
    ensures r < Pow2(bits)
  {
    if bits == 0 then 0
    else (if a % 2 == b % 2 then 0 else 1) + 2 * XorBits(a / 2, b / 2, bits - 1)
  }

  function Pow2(n: nat): (r: nat)
    ensures r >= 1
  {
    if n == 0 then 1 else 2 * Pow2(n - 1)
  }

  function Xor(a: byte, b: byte): byte {
    var r := XorBits(a, b, 8);
    assert Pow2(8) == 256 by { assert Pow2(4) == 16; }
    r
  }

  /** Bit `i` of a number; bit 0 is the least significant. */
  predicate Bit(n: nat, i: nat) {
    if i == 0 then n % 2 == 1 else Bit(n / 2, i - 1)
  }

  /** Each of the eight bits of `c` is set if it is set in exactly one of `a` and `b`. */
  predicate IsExclusiveOr(c: byte, a: byte, b: byte) {
    forall i: nat :: i < 8 ==> Bit(c, i) == (Bit(a, i) != Bit(b, i))
  }

  lemma {:induction false} XorBit(a: nat, b: nat, bits: nat, i: nat)
    requires i < bits
    ensures Bit(XorBits(a, b, bits), i) == (Bit(a, i) != Bit(b, i))
  {
    var r := XorBits(a, b, bits);
    assert r / 2 == XorBits(a / 2, b / 2, bits - 1) && (r % 2 == 0 <==> a % 2 == b % 2);
    if i > 0 {
      XorBit(a / 2, b / 2, bits - 1, i - 1);
    }
  }

  lemma {:induction false} SameBits(c: nat, d: nat, bits: nat)
    requires c < Pow2(bits) && d < Pow2(bits) && forall i: nat :: i < bits ==> Bit(c, i) == Bit(d, i)
    ensures c == d
  {
    if bits > 0 {
      assert Bit(c, 0) == Bit(d, 0);
      forall i: nat | i < bits - 1 ensures Bit(c / 2, i) == Bit(d / 2, i) {
        assert Bit(c, i + 1) == Bit(d, i + 1);
      }
      SameBits(c / 2, d / 2, bits - 1);
    }
  }

  /** The exclusive or of two bytes is the one byte whose bits say so. */
  lemma XorIsExclusiveOr(c: byte, a: byte, b: byte)
    ensures c == Xor(a, b) <==> IsExclusiveOr(c, a, b)
  {
    hide XorBits, Bit;
    forall i: nat | i < 8 ensures Bit(Xor(a, b), i) == (Bit(a, i) != Bit(b, i)) {
      XorBit(a, b, 8, i);
    }
    if IsExclusiveOr(c, a, b) {
      assert Pow2(8) == 256 by { assert Pow2(4) == 16; }
      SameBits(c, Xor(a, b), 8);
    }
  }

  lemma {:induction false} XorBitsTwice(a: nat, b: nat, bits: nat)
    requires a < Pow2(bits)
    ensures XorBits(XorBits(a, b, bits), b, bits) == a
  {
    if bits == 0 {
    } else {
      XorBitsTwice(a / 2, b / 2, bits - 1);
      var c := XorBits(a / 2, b / 2, bits - 1);
      var r := XorBits(a, b, bits);
      assert r / 2 == c && (r % 2 == 0 <==> a % 2 == b % 2);
      assert XorBits(r, b, bits) == (if r % 2 == b % 2 then 0 else 1) + 2 * XorBits(c, b / 2, bits - 1);
    }
  }

  lemma {:induction false} XorBitsZero(a: nat, bits: nat)
    requires a < Pow2(bits)
    ensures XorBits(a, 0, bits) == a
  {
    if bits == 0 {
    } else {
      XorBitsZero(a / 2, bits - 1);
    }
  }

  /** Masking twice with the same byte gives the byte back. */
  lemma XorTwice(a: byte, b: byte)
    ensures Xor(Xor(a, b), b) == a
  {
    assert Pow2(8) == 256 by { assert Pow2(4) == 16; }
    XorBitsTwice(a, b, 8);
  }

  lemma {:induction false} XorBitsSame(a: nat, b: nat, c: nat, bits: nat)
    requires b < Pow2(bits) && c < Pow2(bits) && XorBits(a, b, bits) == XorBits(a, c, bits)
    ensures b == c
  {
    if bits != 0 {
      assert XorBits(a, b, bits) % 2 == 0 <==> a % 2 == b % 2;
      assert XorBits(a, c, bits) % 2 == 0 <==> a % 2 == c % 2;
      XorBitsSame(a / 2, b / 2, c / 2, bits - 1);
    }
  }

  lemma XorSame(a: byte, b: byte, c: byte)
    ensures Xor(a, b) == Xor(a, c) <==> b == c
  {
    assert Pow2(8) == 256 by { assert Pow2(4) == 16; }
    if Xor(a, b) == Xor(a, c) {
      XorBitsSame(a, b, c, 8);
    }
  }

  lemma XorZero(a: byte)
    ensures Xor(a, 0) == a
  {
    assert Pow2(8) == 256 by { assert Pow2(4) == 16; }
    XorBitsZero(a, 8);
  }

  function Min(a: int, b: int): int {
    if a < b then a else b
  }

  /** The number a sequence of bytes denotes, most significant byte first. */
  function BigEndian(s: seq<byte>): nat {
    if s == [] then 0 else BigEndian(s[..|s| - 1]) * 256 + s[|s| - 1]
  }

  /** The number a sequence of bytes denotes, least significant byte first. */
  function LittleEndian(s: seq<byte>): nat {
    if s == [] then 0 else s[0] + 256 * LittleEndian(s[1..])
  }

  lemma BigEndian2(s: seq<byte>)
    requires |s| == 2
    ensures BigEndian(s) == s[0] as int * 256 + s[1] as int
  {
    var one := s[..1];
    assert one[..0] == [];
    assert BigEndian(one) == one[0] as int;
  }

  lemma BigEndian4(s: seq<byte>)
    requires |s| == 4
    ensures BigEndian(s) == ((s[0] as int * 256 + s[1] as int) * 256 + s[2] as int) * 256 + s[3] as int
  {
    BigEndian2(s[..2]);
    assert s[..3][..2] == s[..2];
  }

  lemma BigEndian8(s: seq<byte>)
    requires |s| == 8
    ensures BigEndian(s) == BigEndian(s[..4]) * 0x1_0000_0000 + BigEndian(s[4..])
  {
    BigEndian4(s[4..]);
    assert s[..7][..6] == s[..6];
    assert s[..6][..5] == s[..5];
    assert s[..5][..4] == s[..4];
  }

  /** The `width` low bytes of a number, most significant first. */
  function BigEndianBytes(n: nat, width: nat): (r: seq<byte>)
    ensures |r| == width
  {
    if width == 0 then [] else BigEndianBytes(n / 256, width - 1) + [n % 256]
  }

  function Power256(n: nat): nat {
    if n == 0 then 1 else 256 * Power256(n - 1)
  }

  lemma {:induction false} BigEndianRoundTrip(n: nat, width: nat)
    ensures n < Power256(width) ==> BigEndian(BigEndianBytes(n, width)) == n
  {
    if width == 0 {
    } else {
      BigEndianRoundTrip(n / 256, width - 1);
      var r := BigEndianBytes(n, width);
      assert r[..|r| - 1] == BigEndianBytes(n / 256, width - 1);
    }
  }

  lemma {:induction false} BigEndianBound(s: seq<byte>)
    ensures BigEndian(s) < Power256(|s|)
  {
    if s != [] {
      BigEndianBound(s[..|s| - 1]);
    }
  }

  lemma WidthBounds()
    ensures Power256(2) == 0x1_0000 && Power256(4) == 0x1_0000_0000 && Power256(8) == 0x1_0000_0000 * 0x1_0000_0000
  {
    assert Power256(3) == 256 * Power256(2);
    assert Power256(5) == 256 * Power256(4);
    assert Power256(6) == 256 * Power256(5);
    assert Power256(7) == 256 * Power256(6);
  }

  /** A 32-bit unsigned value held in an int. */
  function Signed32(n: nat): int {
    if n >= 0x8000_0000 then n - 0x1_0000_0000 else n
  }

  // memcpy to position `pos`
  method Put(out: array<byte>, pos: nat, p: seq<byte>)
    requires pos + |p| <= out.Length
    modifies out
    ensures out[..pos + |p|] == old(out[..pos]) + p
  {
    forall i | 0 <= i < |p| {
      out[pos + i] := p[i];
    }
  }

  /** `d` with the bytes `p` written over it from `off` on. */
  function Overwrite(d: seq<byte>, off: nat, p: seq<byte>): (r: seq<byte>)
    requires off + |p| <= |d|
    ensures |r| == |d|
  {
    d[..off] + p + d[off + |p|..]
  }

  lemma OverwriteNothing(d: seq<byte>, off: nat)
    requires off <= |d|
    ensures Overwrite(d, off, []) == d
  {
  }

  /** Two adjacent writes are one. */
  lemma OverwriteTwice(d: seq<byte>, off: nat, s: seq<byte>, n: nat, m: nat)
    requires n + m <= |s| && off + n + m <= |d|
    ensures Overwrite(Overwrite(d, off, s[..n]), off + n, s[n..][..m]) == Overwrite(d, off, s[..n + m])
    ensures s[n..][m..] == s[n + m..]
  {
    assert s[..n + m] == s[..n] + s[n..][..m];
  }
}
