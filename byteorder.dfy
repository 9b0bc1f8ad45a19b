/**
 * Little-endian integer encoding. On disk every multi-byte integer is little-endian;
 * on a little-endian host, where the `letoh*` / `htole*` conversions are identities,
 * the bytes written for a value are its little-endian encoding. This module states
 * that encoding directly.
 */
module ByteOrder {
  import opened Fabric

  /** 256^n, the number of values n bytes can hold. */
  function Pow256(n: nat): (r: nat)
    ensures r > 0
  {
    if n == 0 then 1 else 256 * Pow256(n - 1)
  }

  /** The unsigned value of the little-endian bytes `b` (least significant byte first). */
  function LeDecode(b: seq<byte>): (r: nat)
    ensures r < Pow256(|b|)
    ensures |b| > 0 ==> r % 256 == b[0] as nat
  {
    if |b| == 0 then 0
    else
      var rest := LeDecode(b[1..]);
      assert b[0] as nat + 256 * rest <= 255 + 256 * (Pow256(|b| - 1) - 1);
      b[0] as nat + 256 * rest
  }

  /** The n little-endian bytes of `x`, keeping only x mod 256^n (a truncating store). */
  function LeEncode(x: nat, n: nat): (r: seq<byte>)
    ensures |r| == n
    ensures n > 0 ==> r[0] as nat == x % 256
  {
    if n == 0 then [] else [(x % 256) as byte] + LeEncode(x / 256, n - 1)
  }

  /** Decoding the encoding gives back the value reduced mod 256^n. */
  lemma {:induction false} DecodeEncodeMod(x: nat, n: nat)
    ensures LeDecode(LeEncode(x, n)) == x % Pow256(n)
  {
    if n > 0 {
      var e := LeEncode(x, n);
      assert e[1..] == LeEncode(x / 256, n - 1);
      DecodeEncodeMod(x / 256, n - 1);
      DivModStep(x, Pow256(n - 1));
    }
  }

  /** x mod 256p == x mod 256 + 256 * ((x / 256) mod p). */
  lemma DivModStep(x: nat, p: nat)
    requires p > 0
    ensures x % (256 * p) == x % 256 + 256 * ((x / 256) % p)
  {
    var q := x / 256;
    var r := x % 256;
    var q2 := q / p;
    var r2 := q % p;
    assert x == 256 * p * q2 + (r + 256 * r2);
    assert 0 <= r + 256 * r2 < 256 * p;
    DivModUnique(x, 256 * p, q2, r + 256 * r2);
  }

  /** Decoding the n-byte encoding of a value below 256^n gives the value back. */
  lemma DecodeEncode(x: nat, n: nat)
    requires x < Pow256(n)
    ensures LeDecode(LeEncode(x, n)) == x
  {
    DecodeEncodeMod(x, n);
  }

  /** Encoding the decoded value of b in |b| bytes gives b back. */
  lemma {:induction false} EncodeDecode(b: seq<byte>)
    ensures LeEncode(LeDecode(b), |b|) == b
  {
    if |b| > 0 {
      var v := LeDecode(b);
      var rest := LeDecode(b[1..]);
      assert v == b[0] as nat + 256 * rest;
      assert v % 256 == b[0] as nat && v / 256 == rest by {
        DivModUnique(v, 256, rest, b[0] as nat);
      }
      EncodeDecode(b[1..]);
      assert LeEncode(v, |b|) == [b[0]] + b[1..];
    }
  }

  /** `letohu16` of bytes 0..2 of `b`. */
  function LeU16(b: seq<byte>): (r: u16)
    requires |b| >= 2
    ensures r % 256 == b[0] as nat
  {
    LeDecode(b[..2])
  }

  /** `letohu32` of bytes 0..4 of `b`. */
  function LeU32(b: seq<byte>): (r: u32)
    requires |b| >= 4
    ensures r % 256 == b[0] as nat
  {
    LeDecode(b[..4])
  }

  /** `letohu64` of bytes 0..8 of `b`. */
  function LeU64(b: seq<byte>): (r: u64)
    requires |b| >= 8
    ensures r % 256 == b[0] as nat
  {
    assert Pow256(8) == 0x1_0000_0000_0000_0000;
    LeDecode(b[..8])
  }

  /** `htoleu16`: the 2 bytes stored for a `uint16_t`. */
  function U16Le(x: u16): (r: seq<byte>)
    ensures |r| == 2
    ensures r[0] as nat == x % 256
  {
    LeEncode(x, 2)
  }

  /** `htoleu32`: the 4 bytes stored for a `uint32_t`. */
  function U32Le(x: u32): (r: seq<byte>)
    ensures |r| == 4
    ensures r[0] as nat == x % 256
  {
    LeEncode(x, 4)
  }

  /** `htoleu64`: the 8 bytes stored for a `uint64_t`. */
  function U64Le(x: u64): (r: seq<byte>)
    ensures |r| == 8
    ensures r[0] as nat == x % 256
  {
    LeEncode(x, 8)
  }

  /** Reading back a stored u16, u32 or u64 gives the value. */
  lemma U16RoundTrip(x: u16)
    ensures LeU16(U16Le(x)) == x
  {
    assert U16Le(x)[..2] == U16Le(x);
    DecodeEncode(x, 2);
  }

  lemma U32RoundTrip(x: u32)
    ensures LeU32(U32Le(x)) == x
  {
    assert U32Le(x)[..4] == U32Le(x);
    DecodeEncode(x, 4);
  }

  lemma U64RoundTrip(x: u64)
    ensures LeU64(U64Le(x)) == x
  {
    assert U64Le(x)[..8] == U64Le(x);
    DecodeEncode(x, 8);
  }

  /** Storing a decoded u16, u32 or u64 reproduces the bytes it was read from. */
  lemma U16BytesRoundTrip(b: seq<byte>)
    requires |b| >= 2
    ensures U16Le(LeU16(b)) == b[..2]
  {
    EncodeDecode(b[..2]);
  }

  lemma U32BytesRoundTrip(b: seq<byte>)
    requires |b| >= 4
    ensures U32Le(LeU32(b)) == b[..4]
  {
    EncodeDecode(b[..4]);
  }

  lemma U64BytesRoundTrip(b: seq<byte>)
    requires |b| >= 8
    ensures U64Le(LeU64(b)) == b[..8]
  {
    EncodeDecode(b[..8]);
  }

  /** A u16 stored at `off` reads back from `off`. */
  lemma ReadU16At(b: seq<byte>, off: nat, x: u16)
    requires off + 2 <= |b| && b[off..off + 2] == U16Le(x)
    ensures LeU16(b[off..]) == x
  {
    assert b[off..][..2] == U16Le(x)[..2];
    U16RoundTrip(x);
  }

  /** A u32 stored at `off` reads back from `off`. */
  lemma ReadU32At(b: seq<byte>, off: nat, x: u32)
    requires off + 4 <= |b| && b[off..off + 4] == U32Le(x)
    ensures LeU32(b[off..]) == x
  {
    assert b[off..][..4] == U32Le(x)[..4];
    U32RoundTrip(x);
  }

  /** Two's-complement reading of an unsigned 32-bit or 64-bit pattern (`(int32_t)`, `(int64_t)`). */
  function AsI32(x: u32): (r: i32)
    ensures r % 0x1_0000_0000 == x
  {
    if x < 0x8000_0000 then x else x - 0x1_0000_0000
  }

  function AsI64(x: u64): (r: i64)
    ensures r % 0x1_0000_0000_0000_0000 == x
  {
    if x < 0x8000_0000_0000_0000 then x else x - 0x1_0000_0000_0000_0000
  }

  /** `htolei32` / `htolei64`: the bytes stored for a signed value. */
  function I32Le(x: i32): (r: seq<byte>)
    ensures |r| == 4
  {
    U32Le(x % 0x1_0000_0000)
  }

  function I64Le(x: i64): (r: seq<byte>)
    ensures |r| == 8
  {
    U64Le(x % 0x1_0000_0000_0000_0000)
  }

  /** `letohi32` / `letohi64` read back what `htolei32` / `htolei64` stored. */
  lemma I32RoundTrip(x: i32)
    ensures AsI32(LeU32(I32Le(x))) == x
  {
    U32RoundTrip(x % 0x1_0000_0000);
  }

  lemma I64RoundTrip(x: i64)
    ensures AsI64(LeU64(I64Le(x))) == x
  {
    U64RoundTrip(x % 0x1_0000_0000_0000_0000);
  }
}
