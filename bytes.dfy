/** Bytes and the fixed-width integer layouts of Python's `struct` module
    (big-endian `>B`, `>h`, `>H`, `>i`, `>I`, `>q`, `>Q`), plus the zero
    padding TTLV puts after a value. */
module Bytes {

  type byte = b: int | 0 <= b < 256

  /** 256 to the power n: the number of distinct n-byte strings. */
  function Pow256(n: nat): (r: nat)
    ensures r > 0
  {
    if n == 0 then 1 else 256 * Pow256(n - 1)
  }

  lemma Pow256Values()
    ensures Pow256(1) == 0x100 && Pow256(2) == 0x1_0000
    ensures Pow256(4) == 0x1_0000_0000
    ensures Pow256(8) == 0x1_0000_0000_0000_0000
  {
    assert Pow256(1) == 256 * Pow256(0);
    assert Pow256(2) == 256 * Pow256(1);
    assert Pow256(3) == 256 * Pow256(2);
    assert Pow256(4) == 256 * Pow256(3);
    assert Pow256(5) == 256 * Pow256(4);
    assert Pow256(6) == 256 * Pow256(5);
    assert Pow256(7) == 256 * Pow256(6);
    assert Pow256(8) == 256 * Pow256(7);
  }

  /** Unsigned range of a `width`-byte field. */
  predicate InUnsigned(n: int, width: nat) {
    0 <= n < Pow256(width)
  }

  /** Two's-complement range of a `width`-byte field. */
  predicate InSigned(n: int, width: nat) {
    -(Pow256(width) as int) <= 2 * n < Pow256(width)
  }

  /** `n` written as `width` big-endian bytes. */
  function BigEndian(n: nat, width: nat): (r: seq<byte>)
    requires n < Pow256(width)
    ensures |r| == width
  {
    if width == 0 then [] else BigEndian(n / 256, width - 1) + [n % 256]
  }

  /** The unsigned number a big-endian byte string denotes. */
  function FromBigEndian(s: seq<byte>): (n: nat)
    ensures n < Pow256(|s|)
  {
    if s == [] then 0 else FromBigEndian(s[..|s| - 1]) * 256 + s[|s| - 1]
  }

  lemma {:induction false} FromBigEndianInverse(n: nat, width: nat)
    requires n < Pow256(width)
    ensures FromBigEndian(BigEndian(n, width)) == n
  {
    if width > 0 {
      var s := BigEndian(n, width);
      assert s[..|s| - 1] == BigEndian(n / 256, width - 1);
      FromBigEndianInverse(n / 256, width - 1);
    }
  }

  lemma {:induction false} BigEndianInverse(s: seq<byte>)
    ensures BigEndian(FromBigEndian(s), |s|) == s
  {
    if s != [] {
      var n := FromBigEndian(s);
      assert n / 256 == FromBigEndian(s[..|s| - 1]);
      BigEndianInverse(s[..|s| - 1]);
      assert s == s[..|s| - 1] + [s[|s| - 1]];
    }
  }

  /** `n` written as `width` bytes in two's complement, big-endian. */
  function SignedBigEndian(n: int, width: nat): (r: seq<byte>)
    requires InSigned(n, width)
    ensures |r| == width
  {
    BigEndian(if n < 0 then n + Pow256(width) else n, width)
  }

  /** The signed number a big-endian two's-complement byte string denotes. */
  function FromSignedBigEndian(s: seq<byte>): (n: int)
    ensures InSigned(n, |s|)
  {
    var u := FromBigEndian(s);
    if 2 * u >= Pow256(|s|) then u - Pow256(|s|) else u
  }

  lemma FromSignedBigEndianInverse(n: int, width: nat)
    requires InSigned(n, width)
    ensures FromSignedBigEndian(SignedBigEndian(n, width)) == n
  {
    FromBigEndianInverse(if n < 0 then n + Pow256(width) else n, width);
  }

  /** A non-negative value below half the range reads the same signed and unsigned. */
  lemma SignedIsUnsignedWhenSmall(n: nat, width: nat)
    requires 2 * n < Pow256(width)
    ensures SignedBigEndian(n, width) == BigEndian(n, width)
    ensures FromSignedBigEndian(BigEndian(n, width)) == n
  {
    FromBigEndianInverse(n, width);
  }

  function Zeros(k: nat): (r: seq<byte>)
    ensures |r| == k && forall i :: 0 <= i < k ==> r[i] == 0
  {
    seq(k, _ => 0)
  }

  /** Number of zero bytes that bring `n` value bytes to a multiple of 8:
      Python's `(8 - n % 8) % 8`. */
  function PadLength(n: nat): (p: nat)
    ensures p < 8 && (n + p) % 8 == 0
    ensures n % 8 == 0 ==> p == 0
  {
    (8 - n % 8) % 8
  }

  /** The value bytes followed by their zero padding. */
  function Padded(s: seq<byte>): (r: seq<byte>)
    ensures |r| == |s| + PadLength(|s|) && |r| % 8 == 0
    ensures r[..|s|] == s && r[|s|..] == Zeros(PadLength(|s|))
  {
    s + Zeros(PadLength(|s|))
  }
}
