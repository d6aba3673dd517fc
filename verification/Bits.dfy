/** Bitwise operations on octets and words that are kept as numbers. */
module Bits {
  import opened Bytes

  /** Exclusive or of the lowest n bits. */
  function XorBits(a: nat, b: nat, n: nat): (x: nat)
    ensures x < Power2(n)
  {
    if n == 0 then 0 else (a % 2 + b % 2) % 2 + 2 * XorBits(a / 2, b / 2, n - 1)
  }

  function Power2(n: nat): (p: nat)
    ensures p > 0
  {
    if n == 0 then 1 else 2 * Power2(n - 1)
  }

  lemma Powers()
    ensures Power2(8) == 256 && Power2(32) == 0x1_0000_0000
  {
    assert Power2(4) == 16;
    assert Power2(8) == 16 * Power2(4);
    assert Power2(12) == 16 * Power2(8);
    assert Power2(16) == 16 * Power2(12);
    assert Power2(20) == 16 * Power2(16);
    assert Power2(24) == 16 * Power2(20);
    assert Power2(28) == 16 * Power2(24);
    assert Power2(32) == 16 * Power2(28);
  }

  function Xor(a: byte, b: byte): byte {
    Powers();
    XorBits(a, b, 8)
  }

  lemma {:induction false} XorBitsTwice(a: nat, k: nat, n: nat)
    requires a < Power2(n)
    ensures XorBits(XorBits(a, k, n), k, n) == a
    decreases n
  {
    if n > 0 {
      hide XorBits, Power2;
      PowerNext(n);
      XorBitsTwice(a / 2, k / 2, n - 1);
      XorStep(a, k, n);
      XorStep(XorBits(a, k, n), k, n);
      TwiceOdd(a, k);
    }
  }

  lemma TwiceOdd(a: nat, k: nat)
    ensures ((a % 2 + k % 2) % 2 + k % 2) % 2 == a % 2
  {
  }

  lemma XorTwice(a: byte, k: byte)
    ensures Xor(Xor(a, k), k) == a
  {
    Powers();
    XorBitsTwice(a, k, 8);
  }

  lemma PowerSplit(n: nat)
    requires n <= 32
    ensures Power2(32 - n) * Power2(n) == Power2(32)
  {
    PowerSum(32 - n, n);
  }

  lemma {:induction false} PowerSum(a: nat, b: nat)
    ensures Power2(a) * Power2(b) == Power2(a + b)
    decreases a
  {
    if a > 0 {
      hide Power2;
      PowerSum(a - 1, b);
      PowerNext(a);
      PowerNext(a + b);
      Twice(Power2(a - 1), Power2(b));
    }
  }

  lemma Twice(x: nat, y: nat)
    ensures (2 * x) * y == 2 * (x * y)
  {
  }

  /** The bits two numbers share, of the lowest n. */
  function AndBits(a: nat, b: nat, n: nat): (x: nat)
    ensures x < Power2(n)
  {
    if n == 0 then 0 else (a % 2) * (b % 2) + 2 * AndBits(a / 2, b / 2, n - 1)
  }

  function And(a: byte, b: byte): byte {
    Powers();
    AndBits(a, b, 8)
  }

  lemma {:induction false} AndOnes(b: nat, n: nat)
    requires b < Power2(n)
    ensures AndBits(Power2(n) - 1, b, n) == b
    decreases n
  {
    if n > 0 {
      assert (Power2(n) - 1) / 2 == Power2(n - 1) - 1 && (Power2(n) - 1) % 2 == 1;
      AndOnes(b / 2, n - 1);
    }
  }

  lemma {:induction false} AndZero(a: nat, n: nat)
    ensures AndBits(a, 0, n) == 0
    decreases n
  {
    if n > 0 { AndZero(a / 2, n - 1); }
  }

  /** A blank octet takes any value; any octet can be cleared. */
  lemma AndLaws(a: byte)
    ensures And(255, a) == a && And(a, 0) == 0
  {
    Powers();
    AndOnes(a, 8);
    AndZero(a, 8);
  }

  /** The bits either number has, of the lowest n. */
  function OrBits(a: nat, b: nat, n: nat): (x: nat)
    ensures x < Power2(n)
  {
    if n == 0 then 0 else (if a % 2 + b % 2 > 0 then 1 else 0) + 2 * OrBits(a / 2, b / 2, n - 1)
  }

  function Or(a: byte, b: byte): byte {
    Powers();
    OrBits(a, b, 8)
  }

  // Single bits

  /** Bit k, the lowest being bit 0. */
  function Bit(x: nat, k: nat): nat { if k == 0 then x % 2 else Bit(x / 2, k - 1) }

  lemma XorStep(a: nat, b: nat, n: nat)
    requires n > 0
    ensures XorBits(a, b, n) % 2 == (a % 2 + b % 2) % 2 && XorBits(a, b, n) / 2 == XorBits(a / 2, b / 2, n - 1)
  {
    LowBit((a % 2 + b % 2) % 2, XorBits(a / 2, b / 2, n - 1));
  }

  lemma LowBit(e: nat, rest: nat)
    requires e < 2
    ensures (e + 2 * rest) % 2 == e && (e + 2 * rest) / 2 == rest
  {
  }

  lemma AndStep(a: nat, b: nat, n: nat)
    requires n > 0
    ensures AndBits(a, b, n) % 2 == (a % 2) * (b % 2) && AndBits(a, b, n) / 2 == AndBits(a / 2, b / 2, n - 1)
  {
    assert a % 2 == 0 || a % 2 == 1;
    LowBit((a % 2) * (b % 2), AndBits(a / 2, b / 2, n - 1));
  }

  /** Exclusive or, bit by bit. */
  lemma {:induction false} XorBitwise(a: nat, b: nat, n: nat, k: nat)
    requires k < n
    ensures Bit(XorBits(a, b, n), k) == (Bit(a, k) + Bit(b, k)) % 2
    decreases k
  {
    hide XorBits;
    XorStep(a, b, n);
    if k > 0 { XorBitwise(a / 2, b / 2, n - 1, k - 1); }
  }

  /** Conjunction, bit by bit. */
  lemma {:induction false} AndBitwise(a: nat, b: nat, n: nat, k: nat)
    requires k < n
    ensures Bit(AndBits(a, b, n), k) == 1 <==> Bit(a, k) == 1 && Bit(b, k) == 1
    decreases k
  {
    hide AndBits;
    AndStep(a, b, n);
    if k > 0 { AndBitwise(a / 2, b / 2, n - 1, k - 1); }
  }

  lemma OrStep(a: nat, b: nat, n: nat)
    requires n > 0
    ensures OrBits(a, b, n) % 2 == (if a % 2 + b % 2 > 0 then 1 else 0) && OrBits(a, b, n) / 2 == OrBits(a / 2, b / 2, n - 1)
  {
    LowBit(if a % 2 + b % 2 > 0 then 1 else 0, OrBits(a / 2, b / 2, n - 1));
  }

  /** Disjunction, bit by bit. */
  lemma {:induction false} OrBitwise(a: nat, b: nat, n: nat, k: nat)
    requires k < n
    ensures Bit(OrBits(a, b, n), k) == 1 <==> Bit(a, k) == 1 || Bit(b, k) == 1
    decreases k
  {
    hide OrBits;
    OrStep(a, b, n);
    if k > 0 { OrBitwise(a / 2, b / 2, n - 1, k - 1); }
  }

  /** The exclusive or of two octets is 0 exactly when they are equal, the disjunction exactly
      when both are 0. */
  lemma {:induction false} XorNothing(a: nat, b: nat, n: nat)
    requires a < Power2(n) && b < Power2(n)
    ensures XorBits(a, b, n) == 0 <==> a == b
    decreases n
  {
    if n > 0 {
      hide XorBits, Power2;
      PowerNext(n);
      XorNothing(a / 2, b / 2, n - 1);
      XorStep(a, b, n);
      assert (a % 2 + b % 2) % 2 == 0 <==> a % 2 == b % 2;
    }
  }

  lemma {:induction false} OrNothing(a: nat, b: nat, n: nat)
    requires a < Power2(n) && b < Power2(n)
    ensures OrBits(a, b, n) == 0 <==> a == 0 && b == 0
    decreases n
  {
    if n > 0 {
      hide OrBits, Power2;
      PowerNext(n);
      OrNothing(a / 2, b / 2, n - 1);
      OrStep(a, b, n);
    }
  }

  lemma OctetLaws(a: byte, b: byte)
    ensures (Xor(a, b) == 0 <==> a == b) && (Or(a, b) == 0 <==> a == 0 && b == 0)
  {
    Powers();
    XorNothing(a, b, 8);
    OrNothing(a, b, 8);
  }

  /** Division and remainder as functions of their own. */
  function Div(x: nat, d: nat): (q: nat)
    requires d > 0
  {
    x / d
  }

  function Mod(x: nat, d: nat): (r: nat)
    requires d > 0
    ensures r < d
  {
    x % d
  }

  lemma {:induction false} BitShifted(x: nat, m: nat, k: nat)
    ensures Bit(Div(x, Power2(m)), k) == Bit(x, m + k)
    decreases m
  {
    if m > 0 {
      BitShifted(x / 2, m - 1, k);
      HalfFirst(x, Power2(m - 1));
    }
  }

  lemma HalfFirst(x: nat, p: nat)
    requires p > 0
    ensures Div(x, 2 * p) == Div(x / 2, p)
  {
    var q, r := x / 2 / p, x / 2 % p;
    assert x / 2 == q * p + r && x == 2 * (x / 2) + x % 2;
    assert x == q * (2 * p) + (2 * r + x % 2);
    Divides(x, 2 * p, q, 2 * r + x % 2);
  }

  lemma Divides(x: nat, d: nat, q: nat, r: nat)
    requires d > 0 && x == q * d + r && r < d
    ensures x / d == q && x % d == r
  {
    assert (x / d - q) * d == r - x % d;
    if x / d > q { AtLeast(x / d - q, d); } else if x / d < q { AtLeast(q - x / d, d); }
  }

  lemma AtLeast(k: int, d: nat)
    requires k >= 1
    ensures k * d >= d
  {
  }

  lemma PowerNext(m: nat)
    requires m > 0
    ensures Power2(m) == 2 * Power2(m - 1)
  {
  }

  lemma HalfMasked(x: nat, p: nat)
    requires p > 0
    ensures Mod(x, 2 * p) % 2 == x % 2 && Mod(x, 2 * p) / 2 == Mod(x / 2, p)
  {
    var q, r := x / 2 / p, x / 2 % p;
    assert x / 2 == q * p + r && x == 2 * (x / 2) + x % 2;
    assert x == q * (2 * p) + (2 * r + x % 2);
    Divides(x, 2 * p, q, 2 * r + x % 2);
  }

  lemma {:induction false} BitMasked(x: nat, m: nat, k: nat)
    requires k < m
    ensures Bit(Mod(x, Power2(m)), k) == Bit(x, k)
    decreases m
  {
    hide Power2;
    PowerNext(m);
    HalfMasked(x, Power2(m - 1));
    if k > 0 { BitMasked(x / 2, m - 1, k - 1); }
  }

  lemma {:induction false} BitJoined(high: nat, low: nat, n: nat, k: nat)
    requires low < Power2(n)
    ensures Bit(high * Power2(n) + low, k) == if k < n then Bit(low, k) else Bit(high, k - n)
    decreases n
  {
    if n > 0 {
      var x, p := high * Power2(n) + low, Power2(n - 1);
      assert high * (2 * p) == 2 * (high * p);
      assert x % 2 == low % 2 && x / 2 == high * p + low / 2;
      if k > 0 { BitJoined(high, low / 2, n - 1, k - 1); }
    }
  }
}
