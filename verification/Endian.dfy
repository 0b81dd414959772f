/** Numbers as bytes, least significant first. */
module Endian {
  type Byte = b: nat | b < 256

  function Bytes(x: nat, n: nat): (r: seq<Byte>)
    ensures |r| == n
  {
    if n == 0 then [] else [x % 256] + Bytes(x / 256, n - 1)
  }

  function Number(s: seq<Byte>): nat {
    if s == [] then 0 else s[0] + 256 * Number(s[1..])
  }

  /** The number of values of n bytes. */
  function Range(n: nat): nat { if n == 0 then 1 else 256 * Range(n - 1) }

  lemma {:induction false} NumberOfBytes(x: nat, n: nat)
    requires x < Range(n)
    ensures Number(Bytes(x, n)) == x
  {
    if n > 0 {
      NumberOfBytes(x / 256, n - 1);
      assert Bytes(x, n)[1..] == Bytes(x / 256, n - 1);
    }
  }

  lemma {:induction false} BytesOfNumber(s: seq<Byte>)
    ensures Bytes(Number(s), |s|) == s
  {
    if s != [] {
      BytesOfNumber(s[1..]);
      var n := Number(s);
      assert n % 256 == s[0] && n / 256 == Number(s[1..]);
      assert s == [s[0]] + s[1..];
    }
  }

  lemma {:induction false} NumberBound(s: seq<Byte>)
    ensures Number(s) < Range(|s|)
  {
    if s != [] {
      NumberBound(s[1..]);
    }
  }

  lemma Ranges()
    ensures Range(1) == 0x100 && Range(2) == 0x1_0000 && Range(4) == 0x1_0000_0000 && Range(8) == 0x1_0000_0000_0000_0000
  {
  }

  function Digit(b: seq<Byte>, k: nat): int
    requires k < |b|
  {
    b[k]
  }

  /** b holds x: two, four or eight digits to base 256, the least significant first. */
  ghost predicate Spells(b: seq<Byte>, x: int) {
    || (|b| == 2 && x == Digit(b, 0) + 0x100 * Digit(b, 1))
    || (|b| == 4 && x == Digit(b, 0) + 0x100 * Digit(b, 1) + 0x1_0000 * Digit(b, 2) + 0x100_0000 * Digit(b, 3))
    || (|b| == 8 && x == Digit(b, 0) + 0x100 * Digit(b, 1) + 0x1_0000 * Digit(b, 2) + 0x100_0000 * Digit(b, 3) + 0x1_0000_0000 * Digit(b, 4)
                         + 0x100_0000_0000 * Digit(b, 5) + 0x1_0000_0000_0000 * Digit(b, 6) + 0x100_0000_0000_0000 * Digit(b, 7))
  }

  lemma TwoDigits(s: seq<Byte>)
    requires |s| >= 2
    ensures Number(s) == s[0] + 0x100 * s[1] + 0x1_0000 * Number(s[2..])
  {
    assert s[1..][1..] == s[2..];
  }

  lemma NumberSpelt(s: seq<Byte>)
    requires |s| in {2, 4, 8}
    ensures Spells(s, Number(s))
  {
    TwoDigits(s);
    if |s| > 2 {
      TwoDigits(s[2..]);
      assert s[2..][2..] == s[4..];
    }
    if |s| > 4 {
      TwoDigits(s[4..]);
      assert s[4..][2..] == s[6..];
      TwoDigits(s[6..]);
    }
  }

  lemma BytesSpell(x: nat, n: nat)
    requires n in {2, 4, 8} && x < Range(n)
    ensures Spells(Bytes(x, n), x)
  {
    hide Spells;
    NumberOfBytes(x, n);
    NumberSpelt(Bytes(x, n));
  }

  /** A two's complement number, the range being 2 to the number of its bits. */
  function Signed(u: nat, range: nat): int { if u >= range / 2 then u - range else u }
}
