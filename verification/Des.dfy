/** DES as lua-crypt.c uses it: the block function, its padding, and why decoding undoes encoding.

    The S-boxes and the key schedule are parameters: nothing below depends on which they are. */
module Des {
  import opened Words

  datatype Pair = Pair(x: Word, y: Word)

  // ------------------------------------------------------------ the permutations

  function Swap4(p: Pair): Pair {
    var t := ((p.x >> 4) ^ p.y) & 0x0F0F0F0F;
    Pair(p.x ^ (t << 4), p.y ^ t)
  }

  function Swap16(p: Pair): Pair {
    var t := ((p.x >> 16) ^ p.y) & 0x0000FFFF;
    Pair(p.x ^ (t << 16), p.y ^ t)
  }

  function Swap2(p: Pair): Pair {
    var t := ((p.y >> 2) ^ p.x) & 0x33333333;
    Pair(p.x ^ t, p.y ^ (t << 2))
  }

  function Swap8(p: Pair): Pair {
    var t := ((p.y >> 8) ^ p.x) & 0x00FF00FF;
    Pair(p.x ^ t, p.y ^ (t << 8))
  }

  function Swap1(p: Pair): Pair {
    var t := (p.x ^ p.y) & 0xAAAAAAAA;
    Pair(p.x ^ t, p.y ^ t)
  }

  function RotateLeft(n: Word): Word { (n << 1) | (n >> 31) }

  function RotateRight(n: Word): Word { (n << 31) | (n >> 1) }

  /** DES_IP. */
  function InitialPermutation(p: Pair): Pair {
    var q := Swap8(Swap2(Swap16(Swap4(p))));
    var r := Swap1(Pair(q.x, RotateLeft(q.y)));
    Pair(RotateLeft(r.x), r.y)
  }

  /** DES_FP. */
  function FinalPermutation(p: Pair): Pair {
    var q := Swap1(Pair(RotateRight(p.x), p.y));
    Swap4(Swap16(Swap2(Swap8(Pair(q.x, RotateRight(q.y))))))
  }

  lemma Swap4Twice(p: Pair)
    ensures Swap4(Swap4(p)) == p
  {
  }

  lemma Swap16Twice(p: Pair)
    ensures Swap16(Swap16(p)) == p
  {
  }

  lemma Swap2Twice(p: Pair)
    ensures Swap2(Swap2(p)) == p
  {
  }

  lemma Swap8Twice(p: Pair)
    ensures Swap8(Swap8(p)) == p
  {
  }

  lemma Swap1Twice(p: Pair)
    ensures Swap1(Swap1(p)) == p
  {
  }

  lemma Rotations(n: Word)
    ensures RotateRight(RotateLeft(n)) == n && RotateLeft(RotateRight(n)) == n
  {
  }

  /** DES_FP undoes DES_IP, and the other way round. */
  lemma PermutationsInvert(p: Pair)
    ensures FinalPermutation(InitialPermutation(p)) == p && InitialPermutation(FinalPermutation(p)) == p
  {
    hide Swap1, Swap2, Swap4, Swap8, Swap16, RotateLeft, RotateRight;
    Forth(p);
    Back(p);
  }

  lemma Forth(p: Pair)
    ensures FinalPermutation(InitialPermutation(p)) == p
  {
    hide Swap1, Swap2, Swap4, Swap8, Swap16, RotateLeft, RotateRight;
    var a := Swap4(p);
    var b := Swap16(a);
    var c := Swap2(b);
    var q := Swap8(c);
    var r := Swap1(Pair(q.x, RotateLeft(q.y)));
    Rotations(r.x);
    Swap1Twice(Pair(q.x, RotateLeft(q.y)));
    Rotations(q.y);
    Swap8Twice(c);
    Swap2Twice(b);
    Swap16Twice(a);
    Swap4Twice(p);
  }

  lemma Back(p: Pair)
    ensures InitialPermutation(FinalPermutation(p)) == p
  {
  }

  /** One bit of each byte of the block, the one c places from the right, from the last byte to the first. */
  function Column(p: Pair, c: bv5): Word
    requires c < 8
  {
    (((p.y >> c) & 1) << 7) | (((p.y >> (8 + c)) & 1) << 6) | (((p.y >> (16 + c)) & 1) << 5) | (((p.y >> (24 + c)) & 1) << 4)
    | (((p.x >> c) & 1) << 3) | (((p.x >> (8 + c)) & 1) << 2) | (((p.x >> (16 + c)) & 1) << 1) | ((p.x >> (24 + c)) & 1)
  }

  function Rows(a: Word, b: Word, c: Word, d: Word): Word { (a << 24) | (b << 16) | (c << 8) | d }

  /** The initial permutation of FIPS 46-3: bits 58 50 42 34 26 18 10 2, 60 52 ... 4, 62 54 ... 6, 64 56 ... 8
      are the left half and 57 49 ... 1, 59 51 ... 3, 61 53 ... 5, 63 55 ... 7 the right one. */
  function StandardPermutation(p: Pair): Pair {
    Pair(Rows(Column(p, 6), Column(p, 4), Column(p, 2), Column(p, 0)), Rows(Column(p, 7), Column(p, 5), Column(p, 3), Column(p, 1)))
  }

  /** DES_IP is the initial permutation of the standard, but for a rotation of both halves. */
  lemma InitialIsStandard(p: Pair)
    ensures InitialPermutation(p) == Pair(RotateLeft(StandardPermutation(p).x), RotateLeft(StandardPermutation(p).y))
  {
  }

  // ------------------------------------------------------------ rounds

  /** SB1 to SB8, looked up with six bits. */
  datatype Boxes = Boxes(sb1: Word -> Word, sb2: Word -> Word, sb3: Word -> Word, sb4: Word -> Word,
                         sb5: Word -> Word, sb6: Word -> Word, sb7: Word -> Word, sb8: Word -> Word)

  type Subkeys = sk: seq<Word> | |sk| == 32 witness seq(32, _ => 0)

  function Xor(a: Word, b: Word): Word { a ^ b }

  function Four(a: Word, b: Word, c: Word, d: Word): Word { a ^ b ^ c ^ d }

  /** Six bits of a word, s places from the right. */
  function Part(t: Word, s: bv5): Word { (t >> s) & 0x3F }

  /** The even S-boxes of DES_ROUND, for subkey k. */
  function Even(b: Boxes, k: Word, x: Word): Word {
    var t := Xor(k, x);
    Four(b.sb8(Part(t, 0)), b.sb6(Part(t, 8)), b.sb4(Part(t, 16)), b.sb2(Part(t, 24)))
  }

  /** The odd ones, for subkey k. */
  function Odd(b: Boxes, k: Word, x: Word): Word {
    var t := Xor(k, (x << 28) | (x >> 4));
    Four(b.sb7(Part(t, 0)), b.sb5(Part(t, 8)), b.sb3(Part(t, 16)), b.sb1(Part(t, 24)))
  }

  /** DES_ROUND(x, y): the new y. */
  function Mix(b: Boxes, k: Word, l: Word, x: Word, y: Word): Word {
    Xor(Xor(y, Even(b, k, x)), Odd(b, l, x))
  }

  lemma MixTwice(b: Boxes, k: Word, l: Word, x: Word, y: Word)
    ensures Mix(b, k, l, x, Mix(b, k, l, x, y)) == y
  {
  }

  /** Six bits of a word, given by their places from the right. */
  function Six(w: Word, a: bv5, b: bv5, c: bv5, d: bv5, e: bv5, f: bv5): Word {
    (((w >> a) & 1) << 5) | (((w >> b) & 1) << 4) | (((w >> c) & 1) << 3) | (((w >> d) & 1) << 2) | (((w >> e) & 1) << 1) | ((w >> f) & 1)
  }

  /** Eight groups of six bits. */
  datatype Groups = Groups(g1: Word, g2: Word, g3: Word, g4: Word, g5: Word, g6: Word, g7: Word, g8: Word)

  /** The selection table E of FIPS 46-3: bits 32 1 2 3 4 5, 4 5 6 7 8 9, ..., 28 29 30 31 32 1. */
  function Expanded(r: Word): Groups {
    Groups(Six(r, 0, 31, 30, 29, 28, 27), Six(r, 28, 27, 26, 25, 24, 23), Six(r, 24, 23, 22, 21, 20, 19), Six(r, 20, 19, 18, 17, 16, 15),
           Six(r, 16, 15, 14, 13, 12, 11), Six(r, 12, 11, 10, 9, 8, 7), Six(r, 8, 7, 6, 5, 4, 3), Six(r, 4, 3, 2, 1, 0, 31))
  }

  /** The groups of a round key: the even ones are in k, the odd ones in l. */
  function KeyGroups(k: Word, l: Word): Groups {
    Groups(Part(l, 24), Part(k, 24), Part(l, 16), Part(k, 16), Part(l, 8), Part(k, 8), Part(l, 0), Part(k, 0))
  }

  lemma PartOfXor(k: Word, x: Word, s: bv5)
    requires s == 0 || s == 8 || s == 16 || s == 24
    ensures Part(Xor(k, x), s) == Xor(Part(k, s), Part(x, s))
  {
    if s == 0 {
      assert Part(Xor(k, x), 0) == Xor(Part(k, 0), Part(x, 0));
    } else if s == 8 {
      assert Part(Xor(k, x), 8) == Xor(Part(k, 8), Part(x, 8));
    } else if s == 16 {
      assert Part(Xor(k, x), 16) == Xor(Part(k, 16), Part(x, 16));
    } else {
      assert Part(Xor(k, x), 24) == Xor(Part(k, 24), Part(x, 24));
    }
  }

  lemma PartsOfXor(k: Word, x: Word)
    ensures Part(Xor(k, x), 24) == Xor(Part(k, 24), Part(x, 24)) && Part(Xor(k, x), 16) == Xor(Part(k, 16), Part(x, 16))
    ensures Part(Xor(k, x), 8) == Xor(Part(k, 8), Part(x, 8)) && Part(Xor(k, x), 0) == Xor(Part(k, 0), Part(x, 0))
  {
    hide Part, Xor;
    PartOfXor(k, x, 0);
    PartOfXor(k, x, 8);
    PartOfXor(k, x, 16);
    PartOfXor(k, x, 24);
  }

  lemma EvenParts(x: Word)
    ensures var r := RotateRight(x);
      && Part(x, 24) == Six(r, 28, 27, 26, 25, 24, 23)
      && Part(x, 16) == Six(r, 20, 19, 18, 17, 16, 15)
      && Part(x, 8) == Six(r, 12, 11, 10, 9, 8, 7)
      && Part(x, 0) == Six(r, 4, 3, 2, 1, 0, 31)
  {
  }

  lemma OddParts(x: Word)
    ensures var r, x' := RotateRight(x), (x << 28) | (x >> 4);
      && Part(x', 24) == Six(r, 0, 31, 30, 29, 28, 27)
      && Part(x', 16) == Six(r, 24, 23, 22, 21, 20, 19)
      && Part(x', 8) == Six(r, 16, 15, 14, 13, 12, 11)
      && Part(x', 0) == Six(r, 8, 7, 6, 5, 4, 3)
  {
  }

  lemma EvenIs(b: Boxes, k: Word, l: Word, x: Word)
    ensures var e, g := Expanded(RotateRight(x)), KeyGroups(k, l);
      Even(b, k, x) == Four(b.sb8(Xor(g.g8, e.g8)), b.sb6(Xor(g.g6, e.g6)), b.sb4(Xor(g.g4, e.g4)), b.sb2(Xor(g.g2, e.g2)))
  {
    hide Six, RotateRight, Part, Xor, Four;
    EvenParts(x);
    PartsOfXor(k, x);
  }

  lemma OddIs(b: Boxes, k: Word, l: Word, x: Word)
    ensures var e, g := Expanded(RotateRight(x)), KeyGroups(k, l);
      Odd(b, l, x) == Four(b.sb7(Xor(g.g7, e.g7)), b.sb5(Xor(g.g5, e.g5)), b.sb3(Xor(g.g3, e.g3)), b.sb1(Xor(g.g1, e.g1)))
  {
    hide Six, RotateRight, Part, Xor, Four;
    OddParts(x);
    var x' := (x << 28) | (x >> 4);
    PartsOfXor(l, x');
  }

  /** What the S-boxes of the standard make of E(R) and the round key; their outputs are xored. */
  function Cipher(b: Boxes, e: Groups, g: Groups): Word {
    Xor(Four(b.sb8(Xor(g.g8, e.g8)), b.sb6(Xor(g.g6, e.g6)), b.sb4(Xor(g.g4, e.g4)), b.sb2(Xor(g.g2, e.g2))),
        Four(b.sb7(Xor(g.g7, e.g7)), b.sb5(Xor(g.g5, e.g5)), b.sb3(Xor(g.g3, e.g3)), b.sb1(Xor(g.g1, e.g1))))
  }

  lemma XorAssoc(a: Word, b: Word, c: Word)
    ensures Xor(Xor(a, b), c) == Xor(a, Xor(b, c))
  {
  }

  /** DES_ROUND is the round of the standard: each S-box gets its group of E(R), xored with its part of the round
      key; R is kept rotated by one, as DES_IP leaves it. */
  lemma MixIsStandard(b: Boxes, k: Word, l: Word, x: Word, y: Word)
    ensures Mix(b, k, l, x, y) == Xor(y, Cipher(b, Expanded(RotateRight(x)), KeyGroups(k, l)))
  {
    hide Expanded, KeyGroups, Even, Odd, RotateRight, Xor, Four;
    EvenIs(b, k, l, x);
    OddIs(b, k, l, x);
    XorAssoc(y, Even(b, k, x), Odd(b, l, x));
  }

  /** The i-th round: DES_ROUND(Y, X) and DES_ROUND(X, Y) in turn. */
  function Round(b: Boxes, sk: Subkeys, i: nat, p: Pair): Pair
    requires i < 16
  {
    if i % 2 == 0 then Pair(Mix(b, sk[2 * i], sk[2 * i + 1], p.y, p.x), p.y)
    else Pair(p.x, Mix(b, sk[2 * i], sk[2 * i + 1], p.x, p.y))
  }

  function Rounds(b: Boxes, sk: Subkeys, n: nat, p: Pair): Pair
    requires n <= 16
  {
    if n == 0 then p else Round(b, sk, n - 1, Rounds(b, sk, n - 1, p))
  }

  function Flip(p: Pair): Pair { Pair(p.y, p.x) }

  /** The rounds as the standard has them: the right half moves to the left, and the new right half is the old
      left one xored with the cipher function of the old right one. */
  function Feistel(b: Boxes, sk: Subkeys, n: nat, p: Pair): Pair
    requires n <= 16
  {
    if n == 0 then p else StandardRound(b, sk, n - 1, Feistel(b, sk, n - 1, p))
  }

  function StandardRound(b: Boxes, sk: Subkeys, i: nat, q: Pair): Pair
    requires i < 16
  {
    Pair(q.y, Xor(q.x, Cipher(b, Expanded(RotateRight(q.y)), KeyGroups(sk[2 * i], sk[2 * i + 1]))))
  }

  lemma RoundIsStandard(b: Boxes, sk: Subkeys, i: nat, q: Pair)
    requires i < 16
    ensures if i % 2 == 0 then Round(b, sk, i, q) == Flip(StandardRound(b, sk, i, q))
            else Round(b, sk, i, Flip(q)) == StandardRound(b, sk, i, q)
  {
    hide Mix, Xor, Cipher, Expanded, RotateRight, KeyGroups;
    MixIsStandard(b, sk[2 * i], sk[2 * i + 1], q.y, q.x);
  }

  /** The alternating rounds of des_crypt leave the halves where they are, and compute the same. */
  lemma {:induction false} RoundsAreStandard(b: Boxes, sk: Subkeys, n: nat, p: Pair)
    requires n <= 16
    ensures Rounds(b, sk, n, p) == if n % 2 == 0 then Feistel(b, sk, n, p) else Flip(Feistel(b, sk, n, p))
  {
    hide Round, StandardRound;
    if n > 0 {
      RoundsAreStandard(b, sk, n - 1, p);
      RoundIsStandard(b, sk, n - 1, Feistel(b, sk, n - 1, p));
    }
  }

  /** The subkeys ldesdecode uses: the pairs in reverse order. */
  ghost predicate Reversed(sk: Subkeys, rev: Subkeys) {
    forall i :: 0 <= i < 16 ==> rev[2 * i] == sk[30 - 2 * i] && rev[2 * i + 1] == sk[31 - 2 * i]
  }

  lemma RoundTwice(b: Boxes, sk: Subkeys, rev: Subkeys, j: nat, p: Pair)
    requires Reversed(sk, rev) && j < 16
    ensures Round(b, rev, j, Flip(Round(b, sk, 15 - j, p))) == Flip(p)
  {
    hide Mix;
    var i := 15 - j;
    var k, l := sk[2 * i], sk[2 * i + 1];
    assert rev[2 * j] == k && rev[2 * j + 1] == l;
    MixTwice(b, k, l, p.y, p.x);
    MixTwice(b, k, l, p.x, p.y);
  }

  /** Running the rounds backwards, with the halves exchanged, undoes them one by one. */
  lemma {:induction false} RoundsUndo(b: Boxes, sk: Subkeys, rev: Subkeys, j: nat, p: Pair)
    requires Reversed(sk, rev) && j <= 16
    ensures Rounds(b, rev, j, Flip(Rounds(b, sk, 16, p))) == Flip(Rounds(b, sk, 16 - j, p))
  {
    if j > 0 {
      RoundsUndo(b, sk, rev, j - 1, p);
      hide Round, Flip;
      RoundTwice(b, sk, rev, j - 1, Rounds(b, sk, 16 - j, p));
    }
  }

  // ------------------------------------------------------------ blocks

  type Block = s: seq<Byte> | |s| == 8 witness seq(8, _ => 0)

  ghost function Load(s: Block): Pair {
    Pair(Get(s[0], s[1], s[2], s[3]), Get(s[4], s[5], s[6], s[7]))
  }

  ghost function Store(p: Pair): (r: Block) { Put(p.x) + Put(p.y) }

  lemma LoadStore(p: Pair)
    ensures Load(Store(p)) == p
  {
    hide Get, Put;
    GetPut(p.x);
    GetPut(p.y);
  }

  lemma StoreLoad(s: Block)
    ensures Store(Load(s)) == s
  {
  }

  /** What des_crypt computes. */
  ghost function Crypted(b: Boxes, sk: Subkeys, s: Block): Block {
    Store(FinalPermutation(Flip(Rounds(b, sk, 16, InitialPermutation(Load(s))))))
  }

  /** One block is enciphered as the standard says: initial permutation, sixteen rounds, the halves exchanged, and
      the inverse permutation.  Both halves are kept rotated by one in between. */
  lemma CryptedIsStandard(b: Boxes, sk: Subkeys, s: Block)
    ensures var p := StandardPermutation(Load(s)); var rotated := Pair(RotateLeft(p.x), RotateLeft(p.y));
      Crypted(b, sk, s) == Store(FinalPermutation(Flip(Feistel(b, sk, 16, rotated))))
  {
    hide Load, Store, FinalPermutation, InitialPermutation, StandardPermutation, RotateLeft, Rounds, Feistel;
    InitialIsStandard(Load(s));
    RoundsAreStandard(b, sk, 16, InitialPermutation(Load(s)));
  }

  lemma CryptedTwice(b: Boxes, sk: Subkeys, rev: Subkeys, s: Block)
    requires Reversed(sk, rev)
    ensures Crypted(b, rev, Crypted(b, sk, s)) == s
  {
    hide Load, Store, FinalPermutation, InitialPermutation, Rounds;
    var p := InitialPermutation(Load(s));
    var c := Rounds(b, sk, 16, p);
    LoadStore(FinalPermutation(Flip(c)));
    PermutationsInvert(Flip(c));
    RoundsUndo(b, sk, rev, 16, p);
    NoRounds(b, sk, p);
    PermutationsInvert(Load(s));
    StoreLoad(s);
  }

  lemma NoRounds(b: Boxes, sk: Subkeys, p: Pair)
    ensures Rounds(b, sk, 0, p) == p
  {
  }

  /** des_crypt. */
  method Crypt(b: Boxes, sk: Subkeys, input: Block) returns (output: Block)
    ensures output == Crypted(b, sk, input)
  {
    var p := Pair(Get(input[0], input[1], input[2], input[3]), Get(input[4], input[5], input[6], input[7]));
    p := InitialPermutation(p);
    ghost var start := p;
    for i := 0 to 16
      invariant p == Rounds(b, sk, i, start)
    {
      p := Round(b, sk, i, p);
    }
    var q := FinalPermutation(Pair(p.y, p.x));
    output := Put(q.x) + Put(q.y);
  }

  // ------------------------------------------------------------ texts

  ghost function CryptedAll(b: Boxes, sk: Subkeys, s: seq<Byte>): (r: seq<Byte>)
    requires |s| % 8 == 0
    ensures |r| == |s|
  {
    if s == [] then [] else CryptedAll(b, sk, s[..|s| - 8]) + Crypted(b, sk, s[|s| - 8..])
  }

  lemma CryptedAppend(b: Boxes, sk: Subkeys, s: seq<Byte>, last: Block)
    requires |s| % 8 == 0
    ensures CryptedAll(b, sk, s + last) == CryptedAll(b, sk, s) + Crypted(b, sk, last)
  {
  }

  lemma {:induction false} CryptedAllTwice(b: Boxes, sk: Subkeys, rev: Subkeys, s: seq<Byte>)
    requires Reversed(sk, rev) && |s| % 8 == 0
    ensures CryptedAll(b, rev, CryptedAll(b, sk, s)) == s
  {
    hide Crypted;
    if s != [] {
      var front, last := s[..|s| - 8], s[|s| - 8..];
      CryptedAllTwice(b, sk, rev, front);
      CryptedTwice(b, sk, rev, last);
      CryptedAppend(b, rev, CryptedAll(b, sk, front), Crypted(b, sk, last));
      assert s == front + last;
    }
  }

  function Zeros(n: nat): (r: seq<Byte>)
    ensures |r| == n && forall k :: 0 <= k < n ==> r[k] == 0
  {
    seq(n, _ => 0)
  }

  /** plain, a byte 0x80 and fewer than eight zero bytes. */
  ghost predicate Padded(s: seq<Byte>, plain: seq<Byte>) {
    exists n :: 0 <= n < 8 && s == plain + [0x80] + Zeros(n)
  }

  lemma PaddedOnce(s: seq<Byte>, plain: seq<Byte>, other: seq<Byte>)
    requires Padded(s, plain) && Padded(s, other)
    ensures plain == other
  {
    var n :| 0 <= n < 8 && s == plain + [0x80] + Zeros(n);
    var m :| 0 <= m < 8 && s == other + [0x80] + Zeros(m);
    assert s[|plain|] == 0x80 && s[|other|] == 0x80;
    assert plain == s[..|plain|] && other == s[..|other|];
  }

  lemma MarkIsLast(s: seq<Byte>, plain: seq<Byte>, n: nat)
    requires s == plain + [0x80] + Zeros(n)
    ensures s[|s| - n - 1] == 0x80 && forall k :: |s| - n <= k < |s| ==> s[k] == 0
  {
  }

  datatype Result = Ok(text: seq<Byte>) | Error

  /** des_crypt on every whole block of a text. */
  method CryptBlocks(b: Boxes, sk: Subkeys, text: seq<Byte>) returns (r: seq<Byte>, i: nat)
    ensures i == |text| / 8 * 8 && r == CryptedAll(b, sk, text[..i])
  {
    hide Crypted;
    r, i := [], 0;
    while i < |text| - 7
      invariant 0 <= i <= |text| && i % 8 == 0 && r == CryptedAll(b, sk, text[..i])
    {
      var c := Crypt(b, sk, text[i..i + 8]);
      assert text[..i + 8] == text[..i] + text[i..i + 8];
      CryptedAppend(b, sk, text[..i], text[i..i + 8]);
      r := r + c;
      i := i + 8;
    }
  }

  /** The last block of ldesencode. */
  method Tail(bytes: seq<Byte>) returns (tail: Block)
    requires |bytes| < 8
    ensures tail == bytes + [0x80] + Zeros(7 - |bytes|)
  {
    var t := [];
    for j := 0 to 8
      invariant |t| == j
      invariant forall k :: 0 <= k < j ==> t[k] == if k < |bytes| then bytes[k] else if k == |bytes| then 0x80 else 0
    {
      t := t + [if j < |bytes| then bytes[j] else if j == |bytes| then 0x80 else 0];
    }
    tail := t;
  }

  /** cipher is a padding of plain, encrypted. */
  ghost predicate Encrypts(b: Boxes, sk: Subkeys, cipher: seq<Byte>, plain: seq<Byte>) {
    exists padded :: |padded| % 8 == 0 && Padded(padded, plain) && cipher == CryptedAll(b, sk, padded)
  }

  /** The blocks of a text and the padded last one. */
  method EncodeWith(b: Boxes, sk: Subkeys, text: seq<Byte>) returns (r: seq<Byte>)
    ensures |r| == |text| / 8 * 8 + 8 && Encrypts(b, sk, r, text)
  {
    hide Crypted, CryptedAll, Padded, Encrypts;
    var i;
    r, i := CryptBlocks(b, sk, text);
    var tail := Tail(text[i..]);
    var last := Crypt(b, sk, tail);
    CryptedAppend(b, sk, text[..i], tail);
    TailPads(text, i, tail);
    EncryptsPadded(b, sk, text[..i] + tail, text);
    r := r + last;
  }

  /** ldesencode; ks is des_main_ks. */
  method Encode(b: Boxes, ks: Block -> Subkeys, key: seq<Byte>, text: seq<Byte>) returns (r: Result)
    ensures r.Error? <==> |key| != 8
    ensures r.Ok? ==> |r.text| == |text| / 8 * 8 + 8 && Encrypts(b, ks(key), r.text, text)
  {
    if |key| != 8 {
      return Error;
    }
    var c := EncodeWith(b, ks(key), text);
    r := Ok(c);
  }

  lemma TailPads(text: seq<Byte>, i: nat, tail: Block)
    requires i <= |text| < i + 8 && tail == text[i..] + [0x80] + Zeros(7 - |text[i..]|)
    ensures Padded(text[..i] + tail, text)
  {
    assert text[..i] + tail == text + [0x80] + Zeros(7 - |text[i..]|);
  }

  lemma EncryptsPadded(b: Boxes, sk: Subkeys, padded: seq<Byte>, text: seq<Byte>)
    requires |padded| % 8 == 0 && Padded(padded, text)
    ensures Encrypts(b, sk, CryptedAll(b, sk, padded), text)
  {
  }

  /** The loop of ldesdecode that reverses the subkeys. */
  method Reverse(esk: Subkeys) returns (sk: Subkeys)
    ensures Reversed(esk, sk)
  {
    sk := esk;
    var i := 0;
    while i < 32
      invariant 0 <= i <= 32 && i % 2 == 0
      invariant forall j :: 0 <= j < i / 2 ==> sk[2 * j] == esk[30 - 2 * j] && sk[2 * j + 1] == esk[31 - 2 * j]
    {
      sk := sk[i := esk[30 - i]][i + 1 := esk[31 - i]];
      i := i + 2;
    }
  }

  /** The length of the padding at the end of a text, more than 8 when there is none. */
  method Padding(s: seq<Byte>) returns (ok: bool, padding: nat)
    requires |s| >= 8
    ensures ok ==> 1 <= padding <= 8 && Padded(s, s[..|s| - padding])
    ensures !ok ==> forall plain :: !Padded(s, plain)
  {
    padding := 1;
    while padding <= 8 && s[|s| - padding] == 0
      invariant 1 <= padding <= 9
      invariant forall k :: |s| - padding < k < |s| ==> s[k] == 0
    {
      padding := padding + 1;
    }
    ok := padding <= 8 && s[|s| - padding] == 0x80;
    if ok {
      assert s == s[..|s| - padding] + [0x80] + Zeros(padding - 1);
    } else {
      forall plain
        ensures !Padded(s, plain)
      {
        if Padded(s, plain) {
          var n :| 0 <= n < 8 && s == plain + [0x80] + Zeros(n);
          MarkIsLast(s, plain, n);
          assert false;
        }
      }
    }
  }

  lemma ReversedBack(sk: Subkeys, rev: Subkeys)
    requires Reversed(sk, rev)
    ensures Reversed(rev, sk)
  {
    forall i | 0 <= i < 16
      ensures sk[2 * i] == rev[30 - 2 * i] && sk[2 * i + 1] == rev[31 - 2 * i]
    {
      var j := 15 - i;
      assert rev[2 * j] == sk[30 - 2 * j] && rev[2 * j + 1] == sk[31 - 2 * j];
    }
  }

  /** ldesdecode.  A text is accepted exactly when it encrypts something, and gives what it encrypts. */
  method Decode(b: Boxes, ks: Block -> Subkeys, key: seq<Byte>, text: seq<Byte>) returns (r: Result)
    ensures |key| != 8 || |text| % 8 != 0 || text == [] ==> r == Error
    ensures |key| == 8 ==> forall plain :: r == Ok(plain) <==> Encrypts(b, ks(key), text, plain)
  {
    if |key| != 8 {
      return Error;
    }
    hide Crypted;
    var esk := ks(key);
    var sk := Reverse(esk);
    if |text| % 8 != 0 || |text| == 0 {
      NeverEmpty(b, esk, text);
      return Error;
    }
    var buffer, i := CryptBlocks(b, sk, text);
    assert text[..i] == text;
    var ok, padding := Padding(buffer);
    r := if ok then Ok(buffer[..|buffer| - padding]) else Error;
    DecodesExactly(b, esk, sk, text, buffer, r);
  }

  lemma DecodesExactly(b: Boxes, esk: Subkeys, sk: Subkeys, text: seq<Byte>, buffer: seq<Byte>, r: Result)
    requires Reversed(esk, sk) && |text| % 8 == 0 && buffer == CryptedAll(b, sk, text)
    requires if r.Ok? then Padded(buffer, r.text) else forall plain :: !Padded(buffer, plain)
    ensures forall plain :: r == Ok(plain) <==> Encrypts(b, esk, text, plain)
  {
    hide Crypted, CryptedAll, Padded;
    ReversedBack(esk, sk);
    CryptedAllTwice(b, sk, esk, text);
    forall plain
      ensures r == Ok(plain) <==> Encrypts(b, esk, text, plain)
    {
      if Encrypts(b, esk, text, plain) {
        var padded :| |padded| % 8 == 0 && Padded(padded, plain) && text == CryptedAll(b, esk, padded);
        CryptedAllTwice(b, esk, sk, padded);
        assert Padded(buffer, plain);
        PaddedOnce(buffer, plain, r.text);
      }
    }
  }

  lemma NeverEmpty(b: Boxes, sk: Subkeys, text: seq<Byte>)
    requires |text| % 8 != 0 || |text| == 0
    ensures forall plain :: !Encrypts(b, sk, text, plain)
  {
  }

  /** Decoding with the same key gives back every text. */
  method RoundTrip(b: Boxes, ks: Block -> Subkeys, key: seq<Byte>, text: seq<Byte>) returns (cipher: Result, r: Result)
    ensures if |key| == 8 then cipher.Ok? && r == Ok(text) else cipher == r == Error
  {
    cipher := Encode(b, ks, key, text);
    if cipher.Error? {
      return Error, Error;
    }
    r := Decode(b, ks, key, cipher.text);
  }
}
