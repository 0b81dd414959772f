/** The streaming SHA-1 of lsha1.c: a circular 16-word schedule, registers that change roles instead of
    being moved, a buffered Update and the padding Final, and HMAC on top. */
module Sha1 {
  import opened Words
  import opened Sha1Spec
  import opened Arith

  // ------------------------------------------------------------ the code's forms of FIPS functions

  /** A word loaded from memory on a little-endian machine. */
  function Load(a: Byte, b: Byte, c: Byte, d: Byte): Word { Get(d, c, b, a) }

  /** blk0: bytes back in order. */
  function Swap(l: Word): Word {
    (((l << 24) | (l >> 8)) & 0xFF00FF00) | (((l << 8) | (l >> 24)) & 0x00FF00FF)
  }

  lemma SwapLoads(a: Byte, b: Byte, c: Byte, d: Byte)
    ensures Swap(Load(a, b, c, d)) == Get(a, b, c, d)
  {
  }

  /** The boolean functions of R0 to R4. */
  function Choose(w: Word, x: Word, y: Word): Word { (w & (x ^ y)) ^ y }

  function Majority(w: Word, x: Word, y: Word): Word { ((w | x) & y) | (w & x) }

  lemma ChoiceBits(w: Word, x: Word, y: Word)
    ensures (w & (x ^ y)) ^ y == (w & x) ^ ((0xFFFF_FFFF ^ w) & y)
  {
  }

  lemma MajorityBits(w: Word, x: Word, y: Word)
    ensures ((w | x) & y) | (w & x) == (w & x) ^ (w & y) ^ (x & y)
  {
  }

  lemma SameChoice(w: Word, x: Word, y: Word)
    ensures Choose(w, x, y) == Ch(w, x, y)
  {
    ChoiceBits(w, x, y);
  }

  lemma SameMajority(w: Word, x: Word, y: Word)
    ensures Majority(w, x, y) == Maj(w, x, y)
  {
    MajorityBits(w, x, y);
  }

  function Mix(t: nat, w: Word, x: Word, y: Word): Word {
    if t < 20 then Choose(w, x, y) else if t < 40 then Parity(w, x, y) else if t < 60 then Majority(w, x, y) else Parity(w, x, y)
  }

  lemma SameMix(t: nat, w: Word, x: Word, y: Word)
    ensures Mix(t, w, x, y) == F(t, w, x, y)
  {
    hide Choose, Majority, Ch, Maj, Parity;
    SameChoice(w, x, y);
    SameMajority(w, x, y);
  }

  /** The sum of R0 to R4, in the order the macros add. */
  function SumUp(z: Word, f: Word, blk: Word, k: Word, v: Word): Word { z + (f + blk + k + v) }

  lemma SumOrder(z: Word, f: Word, blk: Word, k: Word, v: Word)
    ensures SumUp(z, f, blk, k, v) == Add5(v, f, z, k, blk)
  {
  }

  // ------------------------------------------------------------ one block

  /** block.l holds the last sixteen words of the schedule, word k at index k mod 16. */
  ghost predicate Window(block: seq<Word>, raw: seq<Word>, m: Block, t: nat) {
    && |block| == |raw| == 16
    && (forall k :: 0 <= k < t && t - 16 <= k ==> block[k % 16] == W(m, k))
    && (forall k :: t <= k < 16 ==> block[k] == raw[k])
  }

  lemma WindowMoves(block: seq<Word>, raw: seq<Word>, m: Block, t: nat)
    requires Window(block, raw, m, t)
    ensures Window(block[t % 16 := W(m, t)], raw, m, t + 1)
  {
    hide W;
    var block' := block[t % 16 := W(m, t)];
    forall k | 0 <= k < t + 1 && t + 1 - 16 <= k
      ensures block'[k % 16] == W(m, k)
    {
      if k < t {
        assert k % 16 != t % 16;
      }
    }
  }

  /** blk(i) for a later round. */
  function Blk(block: seq<Word>, t: nat): Word
    requires |block| == 16
  {
    Rol1(block[(t + 13) % 16] ^ block[(t + 8) % 16] ^ block[(t + 2) % 16] ^ block[t % 16])
  }

  lemma BlkIsW(block: seq<Word>, raw: seq<Word>, m: Block, t: nat)
    requires Window(block, raw, m, t) && t >= 16
    ensures Blk(block, t) == W(m, t)
  {
    hide Rol1;
    Sixteen(t - 3);
    Sixteen(t - 8);
    Sixteen(t - 14);
    Sixteen(t - 16);
    assert block[(t - 3) % 16] == W(m, t - 3) && block[(t - 8) % 16] == W(m, t - 8);
    assert block[(t - 14) % 16] == W(m, t - 14) && block[(t - 16) % 16] == W(m, t - 16);
  }

  lemma Sixteen(x: nat)
    ensures (x + 16) % 16 == x % 16
  {
  }

  /** The registers, with the roles they have in round t: a is at index -t mod 5, b after it, and so on. */
  ghost predicate Roles(r: seq<Word>, t: nat, v: Five) {
    && |r| == 5 && r[4 * t % 5] == v.a && r[(4 * t + 1) % 5] == v.b && r[(4 * t + 2) % 5] == v.c
    && r[(4 * t + 3) % 5] == v.d && r[(4 * t + 4) % 5] == v.e
  }

  /** The new value of the last register. */
  function Sum(t: nat, v: Word, w: Word, x: Word, y: Word, z: Word, blk: Word): Word {
    SumUp(z, Mix(t, w, x, y), blk, K(t), Rol5(v))
  }

  lemma SumIsTemp(t: nat, v: Five, blk: Word)
    ensures Sum(t, v.a, v.b, v.c, v.d, v.e, blk) == Temp(t, v, blk)
  {
    hide Mix, F, K, Rol5, SumUp, Add5;
    SameMix(t, v.b, v.c, v.d);
    SumOrder(v.e, F(t, v.b, v.c, v.d), blk, K(t), Rol5(v.a));
  }

  /** R0 to R4. */
  function Step(r: seq<Word>, t: nat, blk: Word): (r': seq<Word>)
    requires |r| == 5
    ensures |r'| == 5
  {
    var v, w, x, y, z := 4 * t % 5, (4 * t + 1) % 5, (4 * t + 2) % 5, (4 * t + 3) % 5, (4 * t + 4) % 5;
    r[z := Sum(t, r[v], r[w], r[x], r[y], r[z], blk)][w := Rol30(r[w])]
  }

  lemma RolesMove(r: seq<Word>, t: nat, v: Five, blk: Word)
    requires Roles(r, t, v)
    ensures Roles(Step(r, t, blk), t + 1, Round(t, v, blk))
  {
    hide Sum, Temp, Rol30;
    SumIsTemp(t, v, blk);
    Turn(t);
  }

  lemma Turn(t: nat)
    ensures 4 * (t + 1) % 5 == (4 * t + 4) % 5 && (4 * (t + 1) + 1) % 5 == 4 * t % 5 && (4 * (t + 1) + 2) % 5 == (4 * t + 1) % 5
    ensures (4 * (t + 1) + 3) % 5 == (4 * t + 2) % 5 && (4 * (t + 1) + 4) % 5 == (4 * t + 3) % 5
    ensures var v, w, x, y, z := 4 * t % 5, (4 * t + 1) % 5, (4 * t + 2) % 5, (4 * t + 3) % 5, (4 * t + 4) % 5;
      v != w && v != x && v != y && v != z && w != x && w != y && w != z && x != y && x != z && y != z
  {
    Fifth(4 * t, 0);
    Fifth(4 * t, 1);
    Fifth(4 * t, 2);
    Fifth(4 * t, 3);
    Fifth(4 * t, 4);
    Fifth(4 * t, 5);
    Fifth(4 * t, 6);
    Fifth(4 * t, 7);
    Fifth(4 * t, 8);
  }

  lemma Fifth(x: nat, i: nat)
    requires i < 10
    ensures (x + i) % 5 == if x % 5 + i < 5 then x % 5 + i else if x % 5 + i < 10 then x % 5 + i - 5 else x % 5 + i - 10
  {
  }

  /** SHA1_Transform, its eighty rounds written as a loop. */
  method Transform(h: Five, bytes: Bytes) returns (h': Five)
    requires |bytes| == 64
    ensures h' == Compress(h, Parse(bytes))
  {
    hide *;
    var block: seq<Word> := LoadAll(bytes);
    ghost var raw, m := block, Parse(bytes);
    var r: seq<Word> := [h.a, h.b, h.c, h.d, h.e];
    Begins(raw, m, h, r);
    for t := 0 to 80
      invariant Window(block, raw, m, t) && Roles(r, t, Rounds(m, h, t))
    {
      var word;
      Sizes(block, raw, m, r, t, Rounds(m, h, t));
      if t < 16 {
        word := Swap(block[t]);
        EarlyWord(bytes, block, t);
      } else {
        word := Blk(block, t);
        BlkIsW(block, raw, m, t);
      }
      WindowMoves(block, raw, m, t);
      RolesMove(r, t, Rounds(m, h, t), word);
      OneMore(m, h, t);
      block, r := block[t % 16 := word], Step(r, t, word);
    }
    Ends(m, h, r);
    h' := Plus(h, Five(r[0], r[1], r[2], r[3], r[4]));
  }

  /** memcpy of the block. */
  function LoadAll(bytes: Bytes): (r: seq<Word>)
    requires |bytes| == 64
    ensures |r| == 16
  {
    seq(16, i requires 0 <= i < 16 => Load(bytes[4 * i], bytes[4 * i + 1], bytes[4 * i + 2], bytes[4 * i + 3]))
  }

  lemma Begins(raw: seq<Word>, m: Block, h: Five, r: seq<Word>)
    requires |raw| == 16 && r == [h.a, h.b, h.c, h.d, h.e]
    ensures Window(raw, raw, m, 0) && Roles(r, 0, Rounds(m, h, 0))
  {
  }

  lemma Sizes(block: seq<Word>, raw: seq<Word>, m: Block, r: seq<Word>, t: nat, v: Five)
    requires Window(block, raw, m, t) && Roles(r, t, v)
    ensures |block| == 16 && |r| == 5 && (t < 16 ==> block[t] == raw[t])
  {
  }

  lemma EarlyWord(bytes: Bytes, block: seq<Word>, t: nat)
    requires |bytes| == 64 && t < 16 == |block| && block[t] == LoadAll(bytes)[t]
    ensures Swap(block[t]) == W(Parse(bytes), t)
  {
    hide Swap, Load, Get;
    SwapLoads(bytes[4 * t], bytes[4 * t + 1], bytes[4 * t + 2], bytes[4 * t + 3]);
  }

  lemma OneMore(m: Block, h: Five, t: nat)
    ensures Rounds(m, h, t + 1) == Round(t, Rounds(m, h, t), W(m, t))
  {
  }

  lemma Ends(m: Block, h: Five, r: seq<Word>)
    requires Roles(r, 80, Rounds(m, h, 80))
    ensures |r| == 5 && Compress(h, m) == Plus(h, Five(r[0], r[1], r[2], r[3], r[4]))
  {
    hide Rounds, Plus;
  }

  // ------------------------------------------------------------ the bit count

  const W32 := 0x1_0000_0000
  const W64 := 0x1_0000_0000_0000_0000

  datatype Count = Count(lo: nat, hi: nat) {
    ghost predicate Ok() { lo < W32 && hi < W32 }
    ghost function Bits(): nat { hi * W32 + lo }
  }

  /** The first lines of sat_SHA1_Update, with a 64-bit length and two 32-bit counters. */
  function CountUp(c: Count, len: nat): Count {
    var bits := 8 * len % W64;
    var lo := (c.lo + bits) % W32;
    Count(lo, (c.hi + (if lo < bits then 1 else 0) + len / 0x2000_0000) % W32)
  }

  lemma LowPart(c: Count, len: nat)
    requires c.Ok()
    ensures CountUp(c, len).Ok()
    ensures CountUp(c, len).lo == (c.lo + 8 * len) % W32
  {
    var x := 8 * len;
    Reduce(c.lo, x, x / W64);
  }

  /** Multiples of 2^64 do not matter modulo 2^32. */
  lemma Reduce(a: nat, x: nat, q: nat)
    requires q == x / W64
    ensures (a + x % W64) % W32 == (a + x) % W32
  {
  }

  /** The counter is right after data of this length exactly when it is shorter than 2^29 bytes, or the
      low half really overflows. */
  lemma CountIsRight(c: Count, len: nat)
    requires c.Ok() && len < 0x2000_0000_0000_0000
    ensures CountUp(c, len).Bits() == (c.Bits() + 8 * len) % W64 <==> len < 0x2000_0000 || c.lo + 8 * len % W32 >= W32
  {
    var high, low := 8 * len / W32, 8 * len % W32;
    assert 8 * len == high * W32 + low && high == len / 0x2000_0000;
    var carry := if c.lo + low >= W32 then 1 else 0;
    DivModUnique(c.lo + 8 * len, W32, high + carry, c.lo + low - carry * W32);
    var hi := c.hi + high + carry;
    var lo := c.lo + low - carry * W32;
    assert c.Bits() + 8 * len == hi * W32 + lo;
    Halves(hi, lo);
    var d := CountUp(c, len);
    assert d.lo == lo;
    Wrong(c.hi + high, carry, if lo < 8 * len then 1 else 0);
  }

  /** A first chunk of 2^29 bytes is counted with a carry that there is not. */
  lemma FirstChunkMiscounted()
    ensures CountUp(Count(0, 0), 0x2000_0000).Bits() != 8 * 0x2000_0000
  {
    CountIsRight(Count(0, 0), 0x2000_0000);
  }

  lemma Halves(hi: nat, lo: nat)
    requires lo < W32
    ensures (hi * W32 + lo) % W64 == hi % W32 * W32 + lo
  {
  }

  lemma Wrong(a: nat, x: nat, y: nat)
    requires x <= 1 && y <= 1
    ensures (a + x) % W32 == (a + y) % W32 <==> x == y
  {
  }

  // ------------------------------------------------------------ streaming

  /** The length of the whole blocks of n bytes. */
  function Full(n: nat): nat { n - n % 64 }

  lemma ChainNext(s: Bytes, n: nat)
    requires n % 64 == 0 && n + 64 <= |s|
    ensures Chain(s[..n + 64]) == Compress(Chain(s[..n]), Parse(s[n..n + 64]))
  {
    hide Compress, Parse;
    var t := s[..n + 64];
    assert t[..|t| - 64] == s[..n] && t[|t| - 64..] == s[n..n + 64];
  }

  lemma IndexIs(n: nat)
    ensures 8 * n % W32 / 8 % 64 == n % 64
  {
  }

  /** What has been hashed of the message, and what is waiting in the buffer. */
  ghost predicate Streams(state: Five, lo: nat, buffer: Bytes, msg: Bytes) {
    && |buffer| == 64 && lo == 8 * |msg| % W32
    && state == Chain(msg[..Full(|msg|)]) && buffer[..|msg| % 64] == msg[Full(|msg|)..]
  }

  /** The buffer filled up is the next block of the message. */
  lemma FirstBlock(state: Five, lo: nat, buffer: Bytes, msg: Bytes, data: Bytes, j: nat)
    requires Streams(state, lo, buffer, msg) && j == |msg| % 64 && j + |data| > 63
    ensures var n, all := Full(|msg|), msg + data;
      && |buffer| == 64 && n + j == |msg| && n % 64 == 0 && n + 64 <= |all| && state == Chain(all[..n])
      && buffer[..j] + data[..64 - j] == all[n..n + 64]
  {
    hide Chain;
    var n, all := Full(|msg|), msg + data;
    DivModUnique(n, 64, |msg| / 64, 0);
    assert all[..n] == msg[..n];
    assert all[n..n + 64] == msg[n..] + data[..64 - j];
  }

  lemma Shifted(msg: Bytes, data: Bytes, i: nat)
    requires i + 64 <= |data|
    ensures data[i..i + 64] == (msg + data)[|msg| + i..|msg| + i + 64]
  {
  }

  class Context {
    var state: Five
    var count: Count
    var buffer: Bytes
    ghost var msg: Bytes    // everything passed to Update so far

    ghost predicate Valid()
      reads this
    {
      count.Ok() && Streams(state, count.lo, buffer, msg)
    }

    /** Both halves of the counter are right. */
    ghost predicate Counted()
      reads this
    {
      count.Bits() == 8 * |msg| % W64
    }

    /** sat_SHA1_Init; the buffer is not initialised. */
    constructor (buffer: Bytes)
      requires |buffer| == 64
      ensures Valid() && Counted() && msg == []
    {
      state, count, this.buffer, msg := H0, Count(0, 0), buffer, [];
    }

    /** The blocks that data completes: the buffer filled up, then data itself in steps of 64 bytes. */
    method Absorb(j: nat, data: Bytes) returns (i: nat)
      requires Valid() && j == |msg| % 64 && j + |data| > 63
      modifies this`state, this`buffer
      ensures |buffer| == 64 && i <= |data| < i + 64 && (|msg| + i) % 64 == 0
      ensures state == Chain((msg + data)[..|msg| + i])
    {
      hide Chain, Compress, Parse, Streams, Full;
      ghost var all, n := msg + data, Full(|msg|);
      i := 64 - j;
      FirstBlock(state, count.lo, buffer, msg, data, j);
      buffer := buffer[..j] + data[..i];
      ChainNext(all, n);
      state := Transform(state, buffer);
      while i + 63 < |data|
        invariant i <= |data| && (|msg| + i) % 64 == 0 && |buffer| == 64
        invariant state == Chain(all[..|msg| + i])
      {
        Shifted(msg, data, i);
        ChainNext(all, |msg| + i);
        state := Transform(state, data[i..i + 64]);
        i := i + 64;
      }
    }

    /** sat_SHA1_Update, for data of any length. */
    method Update(data: Bytes)
      requires Valid()
      modifies this
      ensures Valid() && msg == old(msg) + data
      ensures old(Counted()) && |data| < 0x2000_0000 ==> Counted()
    {
      hide Chain;
      var j := count.lo / 8 % 64;
      IndexIs(|msg|);
      Recount(data);
      var i := 0;
      if j + |data| > 63 {
        i := Absorb(j, data);
        Rest(msg, data, i, j);
        j := 0;
      } else {
        Short(msg, data, j);
      }
      buffer := buffer[..j] + data[i..] + buffer[j + |data| - i..];
      count := CountUp(count, |data|);
      msg := msg + data;
    }

    lemma Recount(data: Bytes)
      requires Valid()
      ensures CountUp(count, |data|).Ok() && CountUp(count, |data|).lo == 8 * |msg + data| % W32
      ensures Counted() && |data| < 0x2000_0000 ==> CountUp(count, |data|).Bits() == 8 * |msg + data| % W64
    {
      hide Streams, CountUp;
      assert count.lo == 8 * |msg| % W32 by { LoOf(); }
      LowPart(count, |data|);
      AddMod(8 * |msg|, 8 * |data|, W32);
      if Counted() && |data| < 0x2000_0000 {
        CountIsRight(count, |data|);
        AddMod(8 * |msg|, 8 * |data|, W64);
      }
    }

    /** The zero bytes of sat_SHA1_Final. */
    method AddZeros(ghost m: Bytes)
      requires Valid() && msg == m + [0x80]
      modifies this
      ensures Valid() && msg == m + [0x80] + Zeros((119 - |m| % 64) % 64)
    {
      hide Streams, Zeros;
      NoZeros(m);
      ghost var zeros := 0;
      IndexNow();
      while count.lo / 8 % 64 != 56
        invariant Valid() && msg == m + [0x80] + Zeros(zeros) && count.lo / 8 % 64 == |msg| % 64
        invariant zeros <= (119 - |m| % 64) % 64
        decreases (119 - |m| % 64) % 64 - zeros
      {
        Toward(m, zeros);
        OneMoreZero(m, zeros);
        Update([0]);
        zeros := zeros + 1;
        IndexNow();
      }
      Toward(m, zeros);
    }

    lemma IndexNow()
      requires Valid()
      ensures count.lo / 8 % 64 == |msg| % 64
    {
      IndexIs(|msg|);
    }

    /** sat_SHA1_Final, up to the wiping of the context. */
    method Final() returns (digest: Bytes)
      requires Valid()
      modifies this
      ensures |digest| == 20
      ensures old(Counted()) ==> digest == Sha1Spec.Sha1(old(msg))
    {
      hide Chain, Streams, BigEndian, Zeros, Pad;
      ghost var m := msg;
      var length := FinalCount();
      Update([0x80]);
      AddZeros(m);
      Update(length);
      Finished(m, length);
      digest := Put(state.a) + Put(state.b) + Put(state.c) + Put(state.d) + Put(state.e);
    }

    /** The length in bits, before padding, as eight bytes. */
    method FinalCount() returns (bytes: Bytes)
      requires Valid()
      ensures |bytes| == 8 && (Counted() ==> bytes == BigEndian(8 * |msg|, 8))
    {
      hide BigEndian, Streams, ByteOf;
      bytes := [];
      for i := 0 to 8
        invariant |bytes| == i
        invariant forall k :: 0 <= k < i ==> bytes[k] == ByteOf(if k >= 4 then count.lo else count.hi, 3 - k % 4)
      {
        bytes := bytes + [ByteOf(if i >= 4 then count.lo else count.hi, 3 - i % 4)];
      }
      if Counted() {
        EightBytes(count, 8 * |msg|);
        assert bytes == FourBytes(count.hi) + FourBytes(count.lo);
      }
    }

    /** The message is padded and every block of it has been hashed. */
    lemma Finished(m: Bytes, length: Bytes)
      requires Valid() && msg == m + [0x80] + Zeros((119 - |m| % 64) % 64) + length && |length| == 8
      ensures |msg| % 64 == 0 && state == Chain(msg)
      ensures length == BigEndian(8 * |m|, 8) ==> msg == Pad(m)
    {
      hide BigEndian, Chain, Zeros, Streams;
      Toward(m, (119 - |m| % 64) % 64);
      BlockEnd(m + [0x80] + Zeros((119 - |m| % 64) % 64), length);
      AtBlockEnd();
    }

    lemma AtBlockEnd()
      requires Valid() && |msg| % 64 == 0
      ensures state == Chain(msg)
    {
      hide Chain;
      assert msg[..|msg|] == msg;
    }

    lemma LoOf()
      requires Valid()
      ensures count.lo == 8 * |msg| % W32
    {
    }
  }

  lemma AddMod(a: nat, b: nat, n: nat)
    requires n > 0
    ensures (a % n + b) % n == (a + b) % n
  {
    var y := a % n + b;
    assert a + b == (a / n + y / n) * n + y % n by {
      assert a == a / n * n + a % n && y == y / n * n + y % n;
      assert (a / n + y / n) * n == a / n * n + y / n * n;
    }
    DivModUnique(a + b, n, a / n + y / n, y % n);
  }

  /** After whole blocks up to i have been absorbed, the rest of data is what is waiting. */
  lemma Rest(msg: Bytes, data: Bytes, i: nat, j: nat)
    requires i <= |data| < i + 64 && (|msg| + i) % 64 == 0
    ensures var all := msg + data; |all| % 64 == |data| - i && Full(|all|) == |msg| + i && all[Full(|all|)..] == data[i..]
  {
  }

  /** Too little for a block. */
  lemma Short(msg: Bytes, data: Bytes, j: nat)
    requires j == |msg| % 64 && j + |data| <= 63
    ensures var all := msg + data;
      && |all| % 64 == j + |data| && Full(|all|) == Full(|msg|)
      && all[..Full(|all|)] == msg[..Full(|msg|)] && all[Full(|all|)..] == msg[Full(|msg|)..] + data
  {
  }

  /** The k-th byte of a 32-bit number, 0 being the least significant. */
  function ByteOf(x: nat, k: nat): Byte {
    ToByte(if k == 0 then x else if k == 1 then x / 0x100 else if k == 2 then x / 0x1_0000 else x / 0x100_0000)
  }

  ghost function FourBytes(x: nat): Bytes { [ByteOf(x, 3), ByteOf(x, 2), ByteOf(x, 1), ByteOf(x, 0)] }

  lemma EightBytes(c: Count, x: nat)
    requires c.Ok() && c.Bits() == x % W64
    ensures BigEndian(x, 8) == FourBytes(c.hi) + FourBytes(c.lo)
  {
    hide BigEndian, LastFour, FourBytes;
    var y := x / 256 / 256 / 256 / 256;
    assert y == x / W32;
    Upper(c, x);
    BigFour(x, 8);
    BigFour(y, 4);
    NoBytes(y / 256 / 256 / 256 / 256);
    SameBytes(x, c.lo);
    SameBytes(y, c.hi);
  }

  lemma Upper(c: Count, x: nat)
    requires c.Ok() && c.Bits() == x % W64
    ensures x / W32 % W32 == c.hi && x % W32 == c.lo
  {
  }

  lemma NoBytes(x: nat)
    ensures BigEndian(x, 0) == []
  {
  }

  ghost function LastFour(x: nat): Bytes {
    [ToByte(x / 256 / 256 / 256), ToByte(x / 256 / 256), ToByte(x / 256), ToByte(x)]
  }

  /** The last four of n bytes. */
  lemma BigFour(x: nat, n: nat)
    requires n >= 4
    ensures BigEndian(x, n) == BigEndian(x / 256 / 256 / 256 / 256, n - 4) + LastFour(x)
  {
    hide ToByte;
    var a := x / 256;
    var b := a / 256;
    var c := b / 256;
    assert BigEndian(x, n) == BigEndian(a, n - 1) + [ToByte(x)];
    assert BigEndian(a, n - 1) == BigEndian(b, n - 2) + [ToByte(a)];
    assert BigEndian(b, n - 2) == BigEndian(c, n - 3) + [ToByte(b)];
    assert BigEndian(c, n - 3) == BigEndian(c / 256, n - 4) + [ToByte(c)];
  }

  lemma SameByte(x: nat, y: nat)
    requires x % 256 == y % 256
    ensures ToByte(x) == ToByte(y)
  {
  }

  /** The low four bytes depend on the low 32 bits only. */
  lemma SameBytes(x: nat, lo: nat)
    requires lo == x % W32
    ensures LastFour(x) == FourBytes(lo)
  {
    hide ToByte;
    var q := x / W32;
    LowBytes(x, q, lo);
    SameByte(x, lo);
    SameByte(x / 256, lo / 256);
    SameByte(x / 256 / 256, lo / 0x1_0000);
    SameByte(x / 256 / 256 / 256, lo / 0x100_0000);
  }

  lemma LowBytes(x: nat, q: nat, lo: nat)
    requires lo < W32 && x == q * W32 + lo
    ensures x % 256 == lo % 256 && x / 256 % 256 == lo / 256 % 256
    ensures x / 256 / 256 % 256 == lo / 0x1_0000 % 256 && x / 256 / 256 / 256 % 256 == lo / 0x100_0000 % 256
  {
    assert x / 256 == q * 0x100_0000 + lo / 256;
    assert x / 256 / 256 == q * 0x1_0000 + lo / 0x1_0000;
    assert x / 256 / 256 / 256 == q * 0x100 + lo / 0x100_0000;
  }

  lemma NoZeros(m: Bytes)
    ensures m + [0x80] == m + [0x80] + Zeros(0)
  {
  }

  lemma OneMoreZero(m: Bytes, k: nat)
    ensures m + [0x80] + Zeros(k) + [0] == m + [0x80] + Zeros(k + 1)
  {
  }

  lemma BlockEnd(front: Bytes, length: Bytes)
    requires |front| % 64 == 56 && |length| == 8
    ensures |front + length| % 64 == 0
  {
  }

  /** How many zero bytes are still missing. */
  lemma Toward(m: Bytes, k: nat)
    requires k <= (119 - |m| % 64) % 64
    ensures |m + [0x80] + Zeros(k)| % 64 == 56 <==> k == (119 - |m| % 64) % 64
  {
  }

  /** lsha1. */
  method HashOf(m: Bytes, junk: Bytes) returns (digest: Bytes)
    requires |junk| == 64
    ensures |digest| == 20 && (|m| < 0x2000_0000 ==> digest == Sha1Spec.Sha1(m))
  {
    var ctx := new Context(junk);
    ctx.Update(m);
    assert [] + m == m;
    digest := ctx.Final();
  }

  /** xor_key: four bytes at a time. */
  method XorKey(key: Bytes, b: Byte) returns (r: Bytes)
    requires |key| == 64
    ensures r == Xored(key, b)
  {
    hide Xor;
    r := key;
    var i := 0;
    while i < 64
      invariant 0 <= i <= 64 && i % 4 == 0 && |r| == 64
      invariant forall k :: 0 <= k < 64 ==> r[k] == if k < i then Xor(key[k], b) else key[k]
    {
      r := r[i := Xor(r[i], b)][i + 1 := Xor(r[i + 1], b)][i + 2 := Xor(r[i + 2], b)][i + 3 := Xor(r[i + 3], b)];
      i := i + 4;
    }
  }

  lemma XorAgain(k: Bytes)
    ensures Xored(Xored(k, 0x5c), 0x5c ^ 0x36) == Xored(k, 0x36)
  {
  }

  /** lhmac_sha1. */
  method HmacOf(key: Bytes, text: Bytes, junk: Bytes) returns (digest: Bytes)
    requires |junk| == 64
    ensures |digest| == 20 && (|key| < 0x2000_0000 && |text| < 0x2000_0000 ==> digest == Hmac(key, text))
  {
    hide Xored, Sha1Spec.Sha1, Zeros, BlockKey;
    var rkey := PrepareKey(key, junk);
    var outer := XorKey(rkey, 0x5c);
    var ctx1 := new Context(junk);
    ctx1.Update(outer);
    var inner := XorKey(outer, 0x5c ^ 0x36);
    XorAgain(rkey);
    var digest2 := TwoPart(inner, text, junk);
    assert [] + outer == outer;
    ctx1.Update(digest2);
    digest := ctx1.Final();
  }

  method PrepareKey(key: Bytes, junk: Bytes) returns (rkey: Bytes)
    requires |junk| == 64
    ensures |rkey| == 64 && (|key| < 0x2000_0000 ==> rkey == BlockKey(key))
  {
    hide Sha1Spec.Sha1;
    rkey := Zeros(64);
    if |key| > 64 {
      var hashed := HashOf(key, junk);
      assert rkey[20..] == Zeros(44);
      rkey := hashed + rkey[20..];
    } else {
      assert rkey[|key|..] == Zeros(64 - |key|);
      rkey := key + rkey[|key|..];
    }
  }

  /** The inner hash, of two updates. */
  method TwoPart(first: Bytes, second: Bytes, junk: Bytes) returns (digest: Bytes)
    requires |junk| == 64
    ensures |digest| == 20 && (|first| < 0x2000_0000 && |second| < 0x2000_0000 ==> digest == Sha1Spec.Sha1(first + second))
  {
    hide Sha1Spec.Sha1;
    var ctx := new Context(junk);
    ctx.Update(first);
    assert [] + first == first;
    ctx.Update(second);
    digest := ctx.Final();
  }
}
