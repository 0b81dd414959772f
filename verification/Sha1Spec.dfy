/** SHA-1 as FIPS 180-4 defines it, and HMAC as RFC 2104 builds it from a hash. */
module Sha1Spec {
  import opened Words

  datatype Five = Five(a: Word, b: Word, c: Word, d: Word, e: Word)

  function Rol1(x: Word): Word { (x << 1) | (x >> 31) }

  function Rol5(x: Word): Word { (x << 5) | (x >> 27) }

  function Rol30(x: Word): Word { (x << 30) | (x >> 2) }

  function Ch(x: Word, y: Word, z: Word): Word { (x & y) ^ ((0xFFFF_FFFF ^ x) & z) }

  function Parity(x: Word, y: Word, z: Word): Word { x ^ y ^ z }

  function Maj(x: Word, y: Word, z: Word): Word { (x & y) ^ (x & z) ^ (y & z) }

  /** Section 4.1.1. */
  function F(t: nat, x: Word, y: Word, z: Word): Word {
    if t < 20 then Ch(x, y, z) else if t < 40 then Parity(x, y, z) else if t < 60 then Maj(x, y, z) else Parity(x, y, z)
  }

  /** Section 4.2.1. */
  function K(t: nat): Word {
    if t < 20 then 0x5A827999 else if t < 40 then 0x6ED9EBA1 else if t < 60 then 0x8F1BBCDC else 0xCA62C1D6
  }

  type Block = m: seq<Word> | |m| == 16 witness seq(16, _ => 0)

  /** The message schedule of section 6.1.2, step 1. */
  ghost function W(m: Block, t: nat): Word {
    if t < 16 then m[t] else Rol1(W(m, t - 3) ^ W(m, t - 8) ^ W(m, t - 14) ^ W(m, t - 16))
  }

  /** The T of step 3. */
  function Temp(t: nat, v: Five, w: Word): Word { Add5(Rol5(v.a), F(t, v.b, v.c, v.d), v.e, K(t), w) }

  function Add5(v: Word, f: Word, e: Word, k: Word, w: Word): Word { v + f + e + k + w }

  /** Step 3, once. */
  function Round(t: nat, v: Five, w: Word): Five { Five(Temp(t, v, w), v.a, Rol30(v.b), v.c, v.d) }

  ghost function Rounds(m: Block, h: Five, t: nat): Five {
    if t == 0 then h else Round(t - 1, Rounds(m, h, t - 1), W(m, t - 1))
  }

  /** Steps 1 to 4 for one block. */
  ghost function Compress(h: Five, m: Block): Five {
    Plus(h, Rounds(m, h, 80))
  }

  function Plus(h: Five, v: Five): Five { Five(h.a + v.a, h.b + v.b, h.c + v.c, h.d + v.d, h.e + v.e) }

  type Bytes = seq<Byte>

  /** Sixteen big-endian words. */
  ghost function Parse(s: Bytes): Block
    requires |s| == 64
  {
    seq(16, i requires 0 <= i < 16 => Get(s[4 * i], s[4 * i + 1], s[4 * i + 2], s[4 * i + 3]))
  }

  const H0 := Five(0x67452301, 0xEFCDAB89, 0x98BADCFE, 0x10325476, 0xC3D2E1F0)

  /** The hash value after all blocks of s. */
  ghost function Chain(s: Bytes): Five
    requires |s| % 64 == 0
  {
    if s == [] then H0 else Compress(Chain(s[..|s| - 64]), Parse(s[|s| - 64..]))
  }

  /** A number of up to n bytes, most significant first, reduced to n bytes. */
  function BigEndian(x: nat, n: nat): (r: Bytes)
    ensures |r| == n
  {
    if n == 0 then [] else BigEndian(x / 256, n - 1) + [ToByte(x)]
  }

  /** The low eight bits. */
  function ToByte(x: nat): Byte { (x % 256) as Byte }

  function Zeros(n: nat): (r: Bytes)
    ensures |r| == n && forall k :: 0 <= k < n ==> r[k] == 0
  {
    seq(n, _ => 0)
  }

  /** Section 5.1.1: a one bit, zero bits up to 448 modulo 512, and the length in bits. */
  ghost function Pad(m: Bytes): (r: Bytes)
    ensures |r| % 64 == 0
  {
    WholeBlocks(|m|);
    m + [0x80] + Zeros((119 - |m| % 64) % 64) + BigEndian(8 * |m|, 8)
  }

  lemma WholeBlocks(n: nat)
    ensures (n + 1 + (119 - n % 64) % 64 + 8) % 64 == 0
  {
  }

  ghost function Digest(h: Five): (r: Bytes)
    ensures |r| == 20
  {
    Put(h.a) + Put(h.b) + Put(h.c) + Put(h.d) + Put(h.e)
  }

  ghost function Sha1(m: Bytes): Bytes { Digest(Chain(Pad(m))) }

  /** XOR of a string with a repeated byte. */
  ghost function Xored(s: Bytes, b: Byte): (r: Bytes)
    ensures |r| == |s|
  {
    seq(|s|, i requires 0 <= i < |s| => Xor(s[i], b))
  }

  function Xor(a: Byte, b: Byte): Byte { a ^ b }

  /** Section 2 of RFC 2104: keys longer than a block are hashed, shorter ones filled with zeros. */
  ghost function BlockKey(key: Bytes): (r: Bytes)
    ensures |r| == 64
  {
    if |key| > 64 then Sha1(key) + Zeros(44) else key + Zeros(64 - |key|)
  }

  ghost function Hmac(key: Bytes, text: Bytes): Bytes {
    var k := BlockKey(key);
    Sha1(Xored(k, 0x5c) + Sha1(Xored(k, 0x36) + text))
  }
}
