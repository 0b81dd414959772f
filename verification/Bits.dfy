/** Bit patterns of 32-bit words. */
module Masks {
  import opened Words

  function Right6(w: Word): Word { w >> 6 }

  function Right8(w: Word): Word { w >> 8 }

  function And(w: Word, mask: Word): Word { w & mask }

  /** Five bits of a below 26 bits of b: `a | b << 5`. */
  function Join(a: Word, b: Word): Word { a | (b << 5) }

  function Right5(w: Word): Word { w >> 5 }

  lemma Parts(a: Word, b: Word)
    requires And(a, 0xFFFF_FFE0) == 0 && And(b, 0xFC00_0000) == 0
    ensures And(Join(a, b), 31) == a && Right5(Join(a, b)) == b && And(Join(a, b), 0x8000_0000) == 0
  {
    LowPart(a, b);
    HighPart(a, b);
    NoSign(a, b);
    hide *;
  }

  lemma LowPart(a: Word, b: Word)
    requires And(a, 0xFFFF_FFE0) == 0
    ensures And(Join(a, b), 31) == a
  {
  }

  lemma HighPart(a: Word, b: Word)
    requires And(a, 0xFFFF_FFE0) == 0 && And(b, 0xFC00_0000) == 0
    ensures Right5(Join(a, b)) == b
  {
  }

  lemma NoSign(a: Word, b: Word)
    requires And(a, 0xFFFF_FFE0) == 0 && And(b, 0xFC00_0000) == 0
    ensures And(Join(a, b), 0x8000_0000) == 0
  {
  }

  /** The bits below those of mask set: `w | (mask - 1)`. */
  function Fill(w: Word, mask: Word): Word { w | (mask - 1) }

  /** Do two words differ at most in those bits? */
  predicate Alike(a: Word, b: Word, mask: Word) { Fill(a, mask) == Fill(b, mask) }

  function Refill8(w: Word): Word { (w << 8) | (0x100 - 1) }

  lemma Fill8(w: Word)
    ensures Right8(Fill(w, 0x100)) == Right8(w) && Refill8(Right8(w)) == Fill(w, 0x100)
  {
  }

  lemma Alike8(a: Word, b: Word)
    ensures Alike(a, b, 0x100) <==> Right8(a) == Right8(b)
  {
    Fill8(a);
    Fill8(b);
    hide Fill, Refill8, Right6, Right8;
  }

  function Refill14(w: Word): Word { (w << 14) | (0x4000 - 1) }

  lemma Fill14(w: Word)
    ensures Right6(Right8(Fill(w, 0x4000))) == Right6(Right8(w)) && Refill14(Right6(Right8(w))) == Fill(w, 0x4000)
  {
  }

  lemma Alike14(a: Word, b: Word)
    ensures Alike(a, b, 0x4000) <==> Right6(Right8(a)) == Right6(Right8(b))
  {
    Fill14(a);
    Fill14(b);
    hide Fill, Refill14, Right6, Right8;
  }

  function Refill20(w: Word): Word { (w << 20) | (0x10_0000 - 1) }

  lemma Fill20(w: Word)
    ensures Right6(Right6(Right8(Fill(w, 0x10_0000)))) == Right6(Right6(Right8(w))) && Refill20(Right6(Right6(Right8(w)))) == Fill(w, 0x10_0000)
  {
  }

  lemma Alike20(a: Word, b: Word)
    ensures Alike(a, b, 0x10_0000) <==> Right6(Right6(Right8(a))) == Right6(Right6(Right8(b)))
  {
    Fill20(a);
    Fill20(b);
    hide Fill, Refill20, Right6, Right8;
  }

  function Refill26(w: Word): Word { (w << 26) | (0x400_0000 - 1) }

  lemma Fill26(w: Word)
    ensures Right6(Right6(Right6(Right8(Fill(w, 0x400_0000))))) == Right6(Right6(Right6(Right8(w)))) && Refill26(Right6(Right6(Right6(Right8(w))))) == Fill(w, 0x400_0000)
  {
  }

  lemma Alike26(a: Word, b: Word)
    ensures Alike(a, b, 0x400_0000) <==> Right6(Right6(Right6(Right8(a)))) == Right6(Right6(Right6(Right8(b))))
  {
    Fill26(a);
    Fill26(b);
    hide Fill, Refill26, Right6, Right8;
  }
}

/** 32-bit words as numbers: shifting is dividing, masking is taking a remainder. */
module Bits {
  import Arith
  import opened Masks
  import opened Words

  type Natural32 = x: nat | x < 0x1_0000_0000

  /** The number of a word, bit by bit. */
  function NumberOf(w: Word): nat
    decreases w
  {
    if w == 0 then 0 else 2 * NumberOf(w >> 1) + Bit(w)
  }

  function Bit(w: Word): nat { if w & 1 == 1 then 1 else 0 }

  /** One bit more at the end. */
  function Append(w: Word, one: bool): Word { (w << 1) | (if one then 1 else 0) }

  /** The word of a number. */
  function WordOf(x: nat): Word {
    if x == 0 then 0 else Append(WordOf(x / 2), x % 2 == 1)
  }

  lemma Half(w: Word)
    ensures NumberOf(w) == 2 * NumberOf(w >> 1) + Bit(w)
  {
    if w == 0 {
      assert w >> 1 == 0;
    }
  }

  /** limit is a power of two, and all bits of h are worth that much at least. */
  ghost predicate Above(limit: nat, h: Word) {
    limit == 1 || (limit > 0 && limit % 2 == 0 && h & 1 == 0 && Above(limit / 2, h >> 1))
  }

  lemma Doubles(limit: nat, h: Word)
    requires Above(limit, h) && h & 0x8000_0000 == 0
    ensures Above(2 * limit, h << 1)
  {
    assert (h << 1) >> 1 == h && (h << 1) & 1 == 0;
    assert limit > 0;
  }

  function Left1(h: Word): Word { h << 1 }

  lemma FourDoubles(limit: nat, h: Word)
    requires Above(limit, h) && h & 0xF000_0000 == 0
    ensures Above(16 * limit, h << 4)
  {
    FourShifts(h);
    hide Above, Left1;
    DoublesLeft(limit, h);
    DoublesLeft(2 * limit, Left1(h));
    DoublesLeft(4 * limit, Left1(Left1(h)));
    DoublesLeft(8 * limit, Left1(Left1(Left1(h))));
  }

  predicate NoTop(h: Word) { h & 0x8000_0000 == 0 }

  lemma DoublesLeft(limit: nat, h: Word)
    requires Above(limit, h) && NoTop(h)
    ensures Above(2 * limit, Left1(h))
  {
    hide Above;
    Doubles(limit, h);
  }

  lemma FourShifts(h: Word)
    requires h & 0xF000_0000 == 0
    ensures NoTop(h) && NoTop(Left1(h)) && NoTop(Left1(Left1(h))) && NoTop(Left1(Left1(Left1(h))))
    ensures Left1(Left1(Left1(Left1(h)))) == h << 4
  {
  }

  lemma TopIsAbove()
    ensures Above(0x8000_0000, 0x8000_0000)
  {
    assert Above(1, 1);
    hide Above;
    FourDoubles(1, 1);
    FourDoubles(0x10, 0x10);
    FourDoubles(0x100, 0x100);
    FourDoubles(0x1000, 0x1000);
    FourDoubles(0x1_0000, 0x1_0000);
    FourDoubles(0x10_0000, 0x10_0000);
    FourDoubles(0x100_0000, 0x100_0000);
    Doubles(0x1000_0000, 0x1000_0000);
    Doubles(0x2000_0000, 0x2000_0000);
    Doubles(0x4000_0000, 0x4000_0000);
  }

  lemma AppendMasked(w: Word, one: bool, h: Word)
    requires w & (h >> 1) == 0 && h & 1 == 0
    ensures Append(w, one) & h == 0
  {
  }

  lemma NoBits(h: Word)
    ensures 0 & h == 0
  {
  }

  /** A number has no bits worth more than it. */
  lemma {:induction false} NoHighBits(x: nat, limit: nat, h: Word)
    requires x < limit && Above(limit, h)
    ensures WordOf(x) & h == 0
  {
    hide Append;
    if x == 0 {
      NoBits(h);
    } else {
      NoHighBits(x / 2, limit / 2, h >> 1);
      AppendMasked(WordOf(x / 2), x % 2 == 1, h);
    }
  }

  lemma TopBit(x: nat)
    requires x < 0x8000_0000
    ensures WordOf(x) & 0x8000_0000 == 0
  {
    hide WordOf, Above;
    TopIsAbove();
    NoHighBits(x, 0x8000_0000, 0x8000_0000);
  }

  lemma Below32(x: nat)
    requires x < 32
    ensures And(WordOf(x), 0xFFFF_FFE0) == 0
  {
    assert Above(1, 0x07FF_FFFF);
    hide WordOf, Above;
    FourDoubles(1, 0x07FF_FFFF);
    Doubles(16, 0x7FFF_FFF0);
    NoHighBits(x, 32, 0xFFFF_FFE0);
  }

  lemma Below26Bits(x: nat)
    requires x < 0x400_0000
    ensures And(WordOf(x), 0xFC00_0000) == 0
  {
    assert Above(1, 0x3F);
    hide WordOf, Above;
    FourDoubles(1, 0x3F);
    FourDoubles(0x10, 0x3F0);
    FourDoubles(0x100, 0x3F00);
    FourDoubles(0x1000, 0x3_F000);
    FourDoubles(0x1_0000, 0x3F_0000);
    FourDoubles(0x10_0000, 0x3F0_0000);
    Doubles(0x100_0000, 0x3F00_0000);
    Doubles(0x200_0000, 0x7E00_0000);
    NoHighBits(x, 0x400_0000, 0xFC00_0000);
  }

  lemma AppendBack(w: Word, one: bool)
    requires w & 0x8000_0000 == 0
    ensures Append(w, one) >> 1 == w && Bit(Append(w, one)) == if one then 1 else 0
  {
  }

  lemma WordStep(x: nat)
    requires x > 0
    ensures WordOf(x) == Append(WordOf(x / 2), x % 2 == 1)
  {
  }

  lemma Zero()
    ensures NumberOf(0) == 0 && WordOf(0) == 0
  {
  }

  /** The word of a number stands for it. */
  lemma {:induction false} NumberBack(x: Natural32)
    ensures NumberOf(WordOf(x)) == x
  {
    hide *;
    Zero();
    if x > 0 {
      NumberBack(x / 2);
      TopBit(x / 2);
      WordStep(x);
      AppendBack(WordOf(x / 2), x % 2 == 1);
      Half(WordOf(x));
    }
  }

  lemma SameBits(v: Word, w: Word)
    requires v >> 1 == w >> 1 && Bit(v) == Bit(w)
    ensures v == w
  {
  }

  lemma {:induction false} NumbersDiffer(v: Word, w: Word)
    ensures NumberOf(v) == NumberOf(w) <==> v == w
    decreases NumberOf(v)
  {
    hide *;
    Half(v);
    Half(w);
    BitBound(v);
    BitBound(w);
    ZeroOnly(v);
    ZeroOnly(w);
    if NumberOf(v) == NumberOf(w) > 0 {
      NumbersDiffer(v >> 1, w >> 1);
      SameBits(v, w);
    }
  }

  lemma BitBound(w: Word)
    ensures Bit(w) < 2
  {
  }

  lemma {:induction false} ZeroOnly(w: Word)
    ensures NumberOf(w) == 0 <==> w == 0
    decreases w
  {
    if w != 0 {
      ZeroOnly(w >> 1);
      if w >> 1 == 0 {
        assert w == 1;
      }
    }
  }

  // ------------------------------------------------------------ shifts are divisions, masks are remainders

  function Right1(w: Word): Word { w >> 1 }

  lemma Shift1(w: Word)
    ensures NumberOf(Right1(w)) == NumberOf(w) / 2
  {
    Half(w);
    BitBound(w);
    hide NumberOf, Bit;
  }

  function Right2(w: Word): Word { Right1(Right1(w)) }

  lemma ShiftsAdd(w: Word)
    ensures Right2(Right2(Right2(w))) == Right6(w) && Right2(Right6(w)) == Right8(w)
  {
  }

  lemma Shift2(w: Word)
    ensures NumberOf(Right2(w)) == NumberOf(w) / 4
  {
    hide NumberOf, Right1;
    Shift1(w);
    Shift1(Right1(w));
  }

  lemma Shift6(w: Word)
    ensures NumberOf(Right6(w)) == NumberOf(w) / 64
  {
    hide *;
    ShiftsAdd(w);
    Shift2(w);
    Shift2(Right2(w));
    Shift2(Right2(Right2(w)));
  }

  lemma Shift8(w: Word)
    ensures NumberOf(Right8(w)) == NumberOf(w) / 0x100
  {
    hide *;
    ShiftsAdd(w);
    Shift6(w);
    Shift2(Right6(w));
  }

  /** The bits of `mask` are the low ones, worth less than limit. */
  ghost predicate Low(limit: nat, mask: Word) {
    if limit == 1 then mask == 0 else limit > 0 && limit % 2 == 0 && mask & 1 == 1 && Low(limit / 2, mask >> 1)
  }

  lemma MaskStep(w: Word, mask: Word)
    requires mask & 1 == 1
    ensures (w & mask) >> 1 == (w >> 1) & (mask >> 1) && Bit(w & mask) == Bit(w)
  {
  }

  lemma NoMask(w: Word)
    ensures w & 0 == 0
  {
  }

  lemma HalfRemainder(n: nat, m: nat, bit: nat, limit: nat, half: nat)
    requires n == 2 * m + bit && bit < 2 && limit == 2 * half > 0
    ensures n % limit == 2 * (m % half) + bit
  {
    var q, r := m / half, m % half;
    assert m == q * half + r;
    Arith.MulAssoc(q, 2, half);
    assert q * 2 * half == 2 * (q * half) by { Arith.MulAssoc(2, q, half); }
    Arith.DivModUnique(n, limit, q, 2 * r + bit);
  }

  lemma {:induction false} Masked(w: Word, limit: nat, mask: Word)
    requires Low(limit, mask)
    ensures limit > 0 && NumberOf(And(w, mask)) == NumberOf(w) % limit
    decreases limit
  {
    hide NumberOf, Bit;
    if limit == 1 {
      NoMask(w);
      Zero();
    } else {
      var half := limit / 2;
      Masked(w >> 1, half, mask >> 1);
      MaskStep(w, mask);
      Half(w);
      Half(w & mask);
      BitBound(w);
      HalfRemainder(NumberOf(w), NumberOf(w >> 1), Bit(w), limit, half);
    }
  }

  lemma LowMasks()
    ensures Low(32, 31) && Low(64, 63) && Low(256, 255)
  {
    assert (1 as Word) >> 1 == 0 && (3 as Word) >> 1 == 1 && (7 as Word) >> 1 == 3 && (15 as Word) >> 1 == 7;
    assert (31 as Word) >> 1 == 15 && (63 as Word) >> 1 == 31 && (127 as Word) >> 1 == 63 && (255 as Word) >> 1 == 127;
    assert Low(1, 0);
    assert Low(2, 1) && Low(4, 3) && Low(8, 7) && Low(16, 15);
  }
}
