/** The Diffie-Hellman exchange of lua-crypt.c, in 64-bit unsigned arithmetic that wraps around. */
module DiffieHellman {
  import opened Arith
  import opened Endian

  const P := 0xffff_ffff_ffff_ffc5
  const G := 5
  const WORD := 0x1_0000_0000_0000_0000

  type U64 = x: nat | x < WORD

  /** The value a computation leaves in 64 bits. */
  function Word(x: int): (r: U64)
    ensures 0 <= x < WORD ==> r == x
    ensures WORD <= x < 2 * WORD ==> r == x - WORD
    ensures -WORD <= x < 0 ==> r == x + WORD
  {
    assert WORD <= x < 2 * WORD ==> x == WORD + (x - WORD);
    x % WORD
  }

  function Pow(a: nat, n: nat): nat {
    if n == 0 then 1 else a * Pow(a, n - 1)
  }

  /** a = 2 * a mod P. */
  method DoubleModP(a: U64) returns (r: U64)
    requires a <= P
    ensures r <= P && (r == 2 * a || r == 2 * a - P)
  {
    if a >= Word(P - a) {
      r := Word(Word(a * 2) - P);
    } else {
      r := Word(a * 2);
    }
  }

  /** m = m + a mod P. */
  method AddModP(m: U64, a: U64) returns (r: U64)
    requires m < P && a <= P
    ensures r < P && (r == m + a || r == m + a - P)
  {
    var t := Word(P - a);
    if m >= t {
      r := Word(m - t);
    } else {
      r := Word(m + a);
    }
  }

  /** mul_mod_p: shift and add. */
  method MulModP(x: U64, y: U64) returns (m: U64)
    requires x <= P
    ensures m == x * y % P
  {
    m := 0;
    var a: U64, b: U64 := x, y;
    ghost var k := 0;
    while b != 0
      invariant a <= P && m < P && m + a * b + k * P == x * y
      decreases b
    {
      var q := b / 2;
      Halve(a, b);
      ghost var m0: int, a0: int := m, a;
      if b % 2 == 1 {
        m := AddModP(m, a);
      }
      a := DoubleModP(a);
      ghost var over, twice := if m < m0 + (if b % 2 == 1 then a0 else 0) then 1 else 0, if a < 2 * a0 then 1 else 0;
      Scale(a, a0, q, twice);
      k := k + over + twice * q;
      b := q;
    }
    DivModUnique(x * y, P, k, m);
  }

  lemma Halve(a: nat, b: nat)
    ensures a * b == 2 * a * (b / 2) + (if b % 2 == 1 then a else 0)
  {
  }

  lemma Scale(a: nat, a0: nat, q: nat, twice: nat)
    requires a + twice * P == 2 * a0
    ensures a * q + twice * q * P == 2 * a0 * q
  {
  }

  // ------------------------------------------------------------ powers

  lemma {:induction false} PowAdd(a: nat, m: nat, n: nat)
    ensures Pow(a, m + n) == Pow(a, m) * Pow(a, n)
  {
    if m > 0 {
      PowAdd(a, m - 1, n);
      MulAssoc(a, Pow(a, m - 1), Pow(a, n));
    }
  }

  lemma {:induction false} PowPow(a: nat, m: nat, n: nat)
    ensures Pow(Pow(a, m), n) == Pow(a, m * n)
  {
    if n > 0 {
      PowPow(a, m, n - 1);
      PowAdd(a, m, m * (n - 1));
      assert m * n == m + m * (n - 1);
    } else {
      assert m * n == 0;
    }
  }

  lemma {:induction false} PowMul(a: nat, b: nat, n: nat)
    ensures Pow(a * b, n) == Pow(a, n) * Pow(b, n)
  {
    if n > 0 {
      PowMul(a, b, n - 1);
      var x, y := Pow(a, n - 1), Pow(b, n - 1);
      Rearrange(a, b, x, y);
    }
  }

  lemma Rearrange(a: nat, b: nat, x: nat, y: nat)
    ensures (a * b) * (x * y) == (a * x) * (b * y)
  {
  }

  /** A factor may be reduced first. */
  lemma MulMod(a: nat, b: nat)
    ensures (a % P) * b % P == a * b % P
  {
    var q, r := a / P, a % P;
    assert a == q * P + r;
    var t := r * b;
    assert a * b == (q * b) * P + t by {
      assert (q * P + r) * b == q * P * b + r * b;
      assert q * P * b == (q * b) * P;
    }
    DivModUnique(a * b, P, q * b + t / P, t % P) by {
      assert t == t / P * P + t % P;
      assert (q * b + t / P) * P == (q * b) * P + t / P * P;
    }
  }

  lemma {:induction false} PowMod(a: nat, n: nat)
    ensures Pow(a % P, n) % P == Pow(a, n) % P
  {
    if n > 0 {
      var r := a % P;
      PowMod(a, n - 1);
      MulMod(Pow(r, n - 1), r);
      MulMod(Pow(a, n - 1), r);
      MulMod(a, Pow(a, n - 1));
      assert Pow(r, n - 1) * r == r * Pow(r, n - 1);
      assert Pow(a, n - 1) * r == r * Pow(a, n - 1);
    }
  }

  /** What powmodp returns: the power, but P itself to the power 1 is left as it is. */
  ghost function Expected(a: nat, n: nat): nat {
    if a == P && n == 1 then P else Pow(a, n) % P
  }

  /** pow_mod_p: square and multiply. */
  method RaiseModP(a: U64, n: U64) returns (r: U64)
    requires a <= P && n >= 1
    ensures r <= P && r == Expected(a, n)
  {
    if n == 1 {
      assert Pow(a, 1) == a * Pow(a, 0) == a;
      return a;
    }
    var h := n / 2;
    var t := RaiseModP(a, h);
    r := MulModP(t, t);
    Square(a, h, t);
    if n % 2 == 1 {
      MulMod(Pow(a, 2 * h), a);
      assert Pow(a, n) == a * Pow(a, 2 * h) == Pow(a, 2 * h) * a;
      r := MulModP(r, a);
    }
  }

  lemma Square(a: nat, h: nat, t: nat)
    requires t == Expected(a, h) && h >= 1
    ensures t * t % P == Pow(a, 2 * h) % P
  {
    PowAdd(a, h, h);
    var x := Pow(a, h);
    assert t % P == x % P by {
      if a == P && h == 1 {
        assert Pow(P, 1) == P * Pow(P, 0) == P;
      }
    }
    MulMod(t, t);
    MulMod(t, x);
    MulMod(x, t);
    MulMod(x, x);
    assert t % P * t == t * (t % P) && x % P * t == t * (x % P) && t * x == x * t;
  }

  /** powmodp, for every base. */
  method PowModP(a: U64, n: U64) returns (r: U64)
    requires n >= 1
    ensures r == Expected(a, n)
    ensures r == Pow(a, n) % P <==> !(a == P && n == 1)
  {
    var b := a;
    if b > P {
      b := b % P;
      PowMod(a, n);
    }
    r := RaiseModP(b, n);
    if a == P && n == 1 {
      assert Pow(a, n) % P < P;
    }
  }

  /** The one case it gets wrong. */
  lemma PIsNotReduced()
    ensures Expected(P, 1) == P && Pow(P, 1) % P == 0
  {
    assert Pow(P, 1) == P * Pow(P, 0) == P;
  }

  // ------------------------------------------------------------ the exchange

  datatype Result = Ok(bytes: seq<Byte>) | Error(message: string)

  /** ldhexchange. */
  method Exchange(x: seq<Byte>) returns (r: Result)
    ensures |x| != 8 || Number(x) == 0 <==> r.Error?
    ensures r.Ok? ==> r.bytes == Bytes(Pow(G, Number(x)) % P, 8)
  {
    if |x| != 8 {
      return Error("Invalid dh uint64 key");
    }
    NumberBound(x);
    Ranges();
    var x64 := Number(x);
    if x64 == 0 {
      return Error("Can't be 0");
    }
    var p := PowModP(G, x64);
    r := Ok(Bytes(p, 8));
  }

  /** ldhsecret. */
  method Secret(x: seq<Byte>, y: seq<Byte>) returns (r: Result)
    ensures |x| != 8 || |y| != 8 || Number(x) == 0 || Number(y) == 0 <==> r.Error?
    ensures r.Ok? ==> r.bytes == Bytes(Expected(Number(x), Number(y)), 8)
  {
    if |x| != 8 || |y| != 8 {
      return Error("Invalid uint64 key");
    }
    NumberBound(x);
    NumberBound(y);
    Ranges();
    var xx, yy := Number(x), Number(y);
    if xx == 0 || yy == 0 {
      return Error("Can't be 0");
    }
    var p := PowModP(xx, yy);
    r := Ok(Bytes(p, 8));
  }

  /** 5 has an inverse modulo P, so its powers are never 0 there. */
  lemma PublicKeyIsNotZero(x: nat)
    ensures 0 < Pow(G, x) % P < P
  {
    var inverse := 7378697629483820623;
    assert G * inverse == 1 + 2 * P;
    PowMul(G, inverse, x);
    PowMod(G * inverse, x);
    assert (1 + 2 * P) % P == 1 by {
      DivModUnique(1 + 2 * P, P, 2, 1);
    }
    PowOne(x);
    var a, b := Pow(G, x), Pow(inverse, x);
    MulMod(a, b);
    assert a * b % P == 1;
  }

  lemma {:induction false} PowOne(n: nat)
    ensures Pow(1, n) == 1
  {
    if n > 0 {
      PowOne(n - 1);
    }
  }

  /** Both sides get the same secret: x with the public key of y, and y with the public key of x. */
  lemma Agreement(x: nat, y: nat)
    requires x >= 1 && y >= 1
    ensures Expected(Pow(G, x) % P, y) == Expected(Pow(G, y) % P, x) == Pow(G, x * y) % P
  {
    PublicKeyIsNotZero(x);
    PublicKeyIsNotZero(y);
    PowMod(Pow(G, x), y);
    PowMod(Pow(G, y), x);
    PowPow(G, x, y);
    PowPow(G, y, x);
    assert x * y == y * x;
  }

  /** A whole exchange over byte strings: it fails only for keys that are not eight bytes or are zero,
      and otherwise both sides hold the same eight bytes. */
  method Handshake(x: seq<Byte>, y: seq<Byte>) returns (a: Result, b: Result)
    ensures |x| == |y| == 8 && Number(x) > 0 && Number(y) > 0 ==> a.Ok? && a == b
  {
    var px := Exchange(x);
    var py := Exchange(y);
    if px.Error? || py.Error? {
      return Error("no public key"), Error("no public key");
    }
    a := Secret(py.bytes, x);
    b := Secret(px.bytes, y);
    var vx, vy := Number(x), Number(y);
    PublicKeyIsNotZero(vx);
    PublicKeyIsNotZero(vy);
    Ranges();
    NumberOfBytes(Pow(G, vx) % P, 8);
    NumberOfBytes(Pow(G, vy) % P, 8);
    Agreement(vx, vy);
  }
}
