/** The byte-level helpers of utils.go: the fixed-width big-endian encoding
    of an int64, and the slicing that turns a decoded address into a
    public-key hash. */
module Utils {
  import opened Wrappers

  type byte = x: int | 0 <= x < 256

  /** 2^63: one past the largest int64. */
  const Int64Bound: int := 0x8000_0000_0000_0000
  /** 2^64: the number of 64-bit patterns. */
  const Word64: int := 0x1_0000_0000_0000_0000

  /** Go's int64. */
  type int64 = x: int | -Int64Bound <= x < Int64Bound

  function Pow256(n: nat): (r: nat)
    ensures r > 0
  {
    if n == 0 then 1 else 256 * Pow256(n - 1)
  }

  lemma Pow256Values()
    ensures Pow256(7) == 0x100_0000_0000_0000
    ensures Pow256(8) == Word64
  {
  }

  /** The `n` low-order base-256 digits of `u`, most significant first. */
  function ToBigEndian(u: nat, n: nat): (r: seq<byte>)
    ensures |r| == n
  {
    if n == 0 then [] else ToBigEndian(u / 256, n - 1) + [u % 256]
  }

  /** The unsigned number a big-endian byte string denotes: the last byte
      weighs 1, the one before it 256, and so on. */
  function FromBigEndian(s: seq<byte>): (r: nat)
    ensures r < Pow256(|s|)
  {
    if |s| == 0 then 0 else FromBigEndian(s[..|s| - 1]) * 256 + s[|s| - 1]
  }

  /** Every number below 256^n survives an n-byte encoding. */
  lemma {:induction false} FromToBigEndian(u: nat, n: nat)
    requires u < Pow256(n)
    ensures FromBigEndian(ToBigEndian(u, n)) == u
  {
    if n > 0 {
      var s := ToBigEndian(u, n);
      assert s[..n - 1] == ToBigEndian(u / 256, n - 1);
      FromToBigEndian(u / 256, n - 1);
    }
  }

  /** Every byte string is the encoding of the number it denotes. */
  lemma {:induction false} ToFromBigEndian(s: seq<byte>)
    ensures ToBigEndian(FromBigEndian(s), |s|) == s
  {
    if |s| > 0 {
      var n := |s|;
      var init := s[..n - 1];
      var v := FromBigEndian(s);
      assert v == FromBigEndian(init) * 256 + s[n - 1];
      assert v / 256 == FromBigEndian(init);
      assert v % 256 == s[n - 1];
      ToFromBigEndian(init);
      assert s == init + [s[n - 1]];
    }
  }

  /** The first byte is the most significant one: it carries weight
      256^(|s|-1) and the remaining bytes are read the same way. */
  lemma {:induction false} BigEndianHead(s: seq<byte>)
    requires |s| > 0
    ensures FromBigEndian(s) == s[0] * Pow256(|s| - 1) + FromBigEndian(s[1..])
  {
    var n := |s|;
    if n > 1 {
      var init := s[..n - 1];
      BigEndianHead(init);
      assert init[1..] == s[1..][..n - 2];
      assert s[0] * Pow256(n - 1) == s[0] * Pow256(n - 2) * 256;
    }
  }

  /** An encoding of zero is all zero bytes. */
  lemma {:induction false} ZeroBigEndian(n: nat)
    ensures ToBigEndian(0, n) == seq(n, _ => 0)
  {
    if n > 0 {
      ZeroBigEndian(n - 1);
    }
  }

  /** The 64-bit two's-complement pattern of `num`, read as an unsigned number. */
  function TwosComplement(num: int64): (u: nat)
    ensures u < Word64
    ensures num >= 0 ==> u == num
    ensures num < 0 ==> u >= Int64Bound
  {
    if num < 0 then num + Word64 else num
  }

  /** binary.Read of eight big-endian bytes into an int64: the decoder that
      IntToHex is meant to be read back with. */
  function Int64FromBytes(s: seq<byte>): int64
    requires |s| == 8
  {
    Pow256Values();
    var u := FromBigEndian(s);
    if u >= Int64Bound then u - Word64 else u
  }

  /** IntToHex: `binary.Write(buff, binary.BigEndian, num)`, eight bytes,
      most significant first, two's complement for negative numbers. */
  function IntToHex(num: int64): (r: seq<byte>)
    ensures |r| == 8
    ensures Int64FromBytes(r) == num
  {
    Pow256Values();
    FromToBigEndian(TwosComplement(num), 8);
    ToBigEndian(TwosComplement(num), 8)
  }

  /** Distinct numbers have distinct encodings. */
  lemma IntToHexInjective(a: int64, b: int64)
    requires IntToHex(a) == IntToHex(b)
    ensures a == b
  {
    assert Int64FromBytes(IntToHex(a)) == a;
  }

  /** Every eight-byte string is the encoding of some int64: decoding and
      re-encoding gives the bytes back. */
  lemma IntToHexOnto(s: seq<byte>)
    requires |s| == 8
    ensures IntToHex(Int64FromBytes(s)) == s
  {
    Pow256Values();
    ToFromBigEndian(s);
    var u := FromBigEndian(s);
    assert TwosComplement(Int64FromBytes(s)) == u;
  }

  /** The sign lives in the top bit of the first byte, as two's complement
      big-endian demands. */
  lemma IntToHexSign(num: int64)
    ensures num < 0 <==> IntToHex(num)[0] >= 128
  {
    var r := IntToHex(num);
    Pow256Values();
    BigEndianHead(r);
    FromToBigEndian(TwosComplement(num), 8);
    var rest := FromBigEndian(r[1..]);
    assert rest < 0x100_0000_0000_0000;
  }

  /** A small non-negative number occupies only the last byte. */
  lemma IntToHexSmall(num: int64)
    requires 0 <= num < 256
    ensures IntToHex(num) == [0, 0, 0, 0, 0, 0, 0, num]
  {
    ZeroBigEndian(7);
    assert num / 256 == 0;
  }

  /** DecodeAddressToPubKeyHash: given the base58-decoded address, drop the
      leading version byte and the trailing `checksumLen` checksum bytes.
      The Go slice panics when the address is shorter than
      1 + checksumLen bytes; that is `None` here. */
  function DecodeAddressToPubKeyHash(decoded: seq<byte>, checksumLen: nat): (r: Option<seq<byte>>)
    ensures r.Some? <==> |decoded| >= 1 + checksumLen
    ensures r.Some? ==> |r.value| == |decoded| - 1 - checksumLen
    ensures r.Some? ==> decoded == decoded[..1] + r.value + decoded[|decoded| - checksumLen..]
  {
    if |decoded| < 1 + checksumLen then None
    else Some(decoded[1..|decoded| - checksumLen])
  }
}
