/** Byte strings, big-endian integers and an abstract digest function. */
module Bytes {

  type byte = x: int | 0 <= x < 256

  type bytes = seq<byte>

  newtype u32 = x: int | 0 <= x < 0x1_0000_0000

  newtype u64 = x: int | 0 <= x < 0x1_0000_0000_0000_0000

  datatype Option<+T> = None | Some(value: T)

  type digest = d: bytes | |d| == 32 witness seq(32, _ => 0)

  /** A digest function is any total function to 32 bytes. No result assumes that it is injective. */
  type Hash = bytes -> digest

  const ZERO_DIGEST: digest :=
    [0, 0, 0, 0, 0, 0, 0, 0, 0, 0, 0, 0, 0, 0, 0, 0, 0, 0, 0, 0, 0, 0, 0, 0, 0, 0, 0, 0, 0, 0, 0, 0]

  function Pow256(n: nat): (r: nat)
    ensures r > 0
  {
    if n == 0 then 1 else 256 * Pow256(n - 1)
  }

  /** The width-byte big-endian encoding of n, dropping any higher bytes. */
  function EncodeBE(n: nat, width: nat): (r: bytes)
    ensures |r| == width
  {
    if width == 0 then [] else EncodeBE(n / 256, width - 1) + [n % 256]
  }

  function DecodeBE(s: bytes): (n: nat)
    ensures n < Pow256(|s|)
  {
    if s == [] then 0 else 256 * DecodeBE(s[..|s| - 1]) + s[|s| - 1]
  }

  lemma {:induction false} DecodeEncodeBE(n: nat, width: nat)
    requires n < Pow256(width)
    ensures DecodeBE(EncodeBE(n, width)) == n
  {
    if width > 0 {
      DecodeEncodeBE(n / 256, width - 1);
      var e := EncodeBE(n, width);
      assert e[..width - 1] == EncodeBE(n / 256, width - 1);
    }
  }

  lemma {:induction false} EncodeDecodeBE(s: bytes)
    ensures EncodeBE(DecodeBE(s), |s|) == s
  {
    if s != [] {
      EncodeDecodeBE(s[..|s| - 1]);
      assert s == s[..|s| - 1] + [s[|s| - 1]];
    }
  }

  lemma Widths()
    ensures Pow256(1) == 0x100
    ensures Pow256(2) == 0x1_0000
    ensures Pow256(4) == 0x1_0000_0000
    ensures Pow256(8) == 0x1_0000_0000_0000_0000
  {
    assert Pow256(3) == 0x100_0000;
    assert Pow256(6) == 0x1_0000_0000_0000;
  }

  /** The lower-case hexadecimal digit for n. */
  function HexDigit(n: nat): byte
    requires n < 16
  {
    if n < 10 then 48 + n else 87 + n
  }

  /** A digest written as 64 lower-case hexadecimal digits. */
  predicate HexDigest(d: bytes) {
    |d| == 64 && forall i :: 0 <= i < |d| ==> 48 <= d[i] <= 57 || 97 <= d[i] <= 102
  }

  predicate HasPrefix(s: bytes, prefix: bytes) {
    |prefix| <= |s| && s[..|prefix|] == prefix
  }
}
