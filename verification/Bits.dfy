/**
 Machine integers as mathematical integers, with the bit-level operations the
 codec uses (`<<`, `|`, `&`, `to_le_bytes`) written out arithmetically.
 */
module Bits {

  type byte = b: int | 0 <= b < 0x100
  type bytes = seq<byte>

  const TWO_8: int := 0x100
  const TWO_16: int := 0x1_0000
  const TWO_32: int := 0x1_0000_0000
  const TWO_64: int := 0x1_0000_0000_0000_0000

  type i8 = x: int | -0x80 <= x < 0x80
  type u8 = x: int | 0 <= x < TWO_8
  type i16 = x: int | -0x8000 <= x < 0x8000
  type u16 = x: int | 0 <= x < TWO_16
  type i32 = x: int | -0x8000_0000 <= x < 0x8000_0000
  type u32 = x: int | 0 <= x < TWO_32
  type i64 = x: int | -0x8000_0000_0000_0000 <= x < 0x8000_0000_0000_0000
  type u64 = x: int | 0 <= x < TWO_64

  function Pow2(n: nat): (p: int)
    ensures p >= 1
  {
    if n == 0 then 1 else 2 * Pow2(n - 1)
  }

  lemma Pow2Plus7(n: nat)
    ensures Pow2(n + 7) == 128 * Pow2(n)
  {
    assert Pow2(n + 2) == 4 * Pow2(n);
    assert Pow2(n + 4) == 4 * Pow2(n + 2);
    assert Pow2(n + 6) == 4 * Pow2(n + 4);
  }

  lemma Pow2Values()
    ensures Pow2(1) == 2 && Pow2(2) == 4 && Pow2(7) == 0x80 && Pow2(8) == 0x100
    ensures Pow2(15) == 0x8000 && Pow2(16) == TWO_16
    ensures Pow2(31) == 0x8000_0000 && Pow2(32) == TWO_32
    ensures Pow2(63) == 0x8000_0000_0000_0000 && Pow2(64) == TWO_64
  {
    assert Pow2(1) == 2 && Pow2(2) == 4 && Pow2(3) == 8 && Pow2(4) == 16;
    Pow2Plus7(0); Pow2Plus7(1); Pow2Plus7(8); Pow2Plus7(9);
    Pow2Plus7(3); Pow2Plus7(10); Pow2Plus7(17); Pow2Plus7(24);
    Pow2Plus7(4); Pow2Plus7(11); Pow2Plus7(18); Pow2Plus7(25);
    Pow2Plus7(0); Pow2Plus7(7); Pow2Plus7(14); Pow2Plus7(21); Pow2Plus7(28);
    Pow2Plus7(35); Pow2Plus7(42); Pow2Plus7(49); Pow2Plus7(56);
    Pow2Plus7(1); Pow2Plus7(8); Pow2Plus7(15); Pow2Plus7(22); Pow2Plus7(29);
    Pow2Plus7(36); Pow2Plus7(43); Pow2Plus7(50); Pow2Plus7(57);
  }

  lemma {:induction false} Pow2Monotone(a: nat, b: nat)
    requires a <= b
    ensures Pow2(a) <= Pow2(b)
    decreases b
  {
    if a < b { Pow2Monotone(a, b - 1); }
  }

  /** Bitwise `a | b` on unsigned integers. */
  function Or(a: nat, b: nat): nat
    decreases a + b
  {
    if a == 0 && b == 0 then 0
    else (if a % 2 == 1 || b % 2 == 1 then 1 else 0) + 2 * Or(a / 2, b / 2)
  }

  /** Whether `v & (1 << k)` is non-zero. */
  predicate TestBit(v: nat, k: nat)
  {
    if k == 0 then v % 2 == 1 else TestBit(v / 2, k - 1)
  }

  /** Or-ing in a bit above every set bit is addition: nothing carries and nothing is lost. */
  lemma OrAbove(a: nat, k: nat)
    requires a < Pow2(k)
    ensures Or(a, Pow2(k)) == a + Pow2(k)
  {
    if k == 0 {
      assert Or(0, 1) == 1 + 2 * Or(0, 0);
    } else {
      OrAbove(a / 2, k - 1);
      assert Pow2(k) / 2 == Pow2(k - 1) && Pow2(k) % 2 == 0;
    }
  }

  /** The integer whose bit `i` is `bs[i]`. */
  function FromBits(bs: seq<bool>): (v: nat)
    ensures v < Pow2(|bs|)
  {
    if bs == [] then 0 else (if bs[0] then 1 else 0) + 2 * FromBits(bs[1..])
  }

  /** Each bit of `FromBits(bs)` is the listed one, and every higher bit is clear. */
  lemma {:induction false} FromBitsBit(bs: seq<bool>, k: nat)
    ensures TestBit(FromBits(bs), k) <==> k < |bs| && bs[k]
  {
    if bs == [] {
      ZeroHasNoBits(k);
    } else if k > 0 {
      FromBitsBit(bs[1..], k - 1);
    }
  }

  lemma {:induction false} ZeroHasNoBits(k: nat)
    ensures !TestBit(0, k)
  {
    if k > 0 { ZeroHasNoBits(k - 1); }
  }

  lemma {:induction false} FromBitsSnoc(bs: seq<bool>, b: bool)
    ensures FromBits(bs + [b]) == FromBits(bs) + if b then Pow2(|bs|) else 0
  {
    if bs == [] {
    } else {
      assert (bs + [b])[1..] == bs[1..] + [b];
      FromBitsSnoc(bs[1..], b);
    }
  }

  lemma {:induction false} FromBitsConcat(a: seq<bool>, b: seq<bool>)
    ensures FromBits(a + b) == FromBits(a) + Pow2(|a|) * FromBits(b)
  {
    if a == [] {
      assert a + b == b;
    } else {
      var x, p := FromBits(b), Pow2(|a| - 1);
      calc {
        FromBits(a + b);
        { assert (a + b)[0] == a[0] && (a + b)[1..] == a[1..] + b; }
        (if a[0] then 1 else 0) + 2 * FromBits(a[1..] + b);
        { FromBitsConcat(a[1..], b); assert |a[1..]| == |a| - 1; }
        (if a[0] then 1 else 0) + 2 * (FromBits(a[1..]) + p * x);
        FromBits(a) + 2 * (p * x);
        { TwiceProduct(p, x); }
        FromBits(a) + (2 * p) * x;
      }
    }
  }

  lemma TwiceProduct(p: int, x: int)
    ensures (2 * p) * x == 2 * (p * x)
  {
  }

  /** `to_le_bytes`, cut to the low `n` bytes. */
  function LeBytes(v: nat, n: nat): (s: bytes)
    ensures |s| == n
  {
    if n == 0 then [] else [v % 256] + LeBytes(v / 256, n - 1)
  }

  /** `from_le_bytes`. */
  function FromLeBytes(s: bytes): (v: nat)
  {
    if s == [] then 0 else s[0] + 256 * FromLeBytes(s[1..])
  }

  lemma {:induction false} LeBytesRoundTrip(v: nat, n: nat)
    requires v < Pow2(8 * n)
    ensures FromLeBytes(LeBytes(v, n)) == v
  {
    if n > 0 {
      Pow2Plus8(8 * (n - 1));
      LeBytesRoundTrip(v / 256, n - 1);
      assert LeBytes(v, n)[1..] == LeBytes(v / 256, n - 1);
    }
  }

  lemma {:induction false} FromLeBytesRoundTrip(s: bytes)
    ensures FromLeBytes(s) < Pow2(8 * |s|)
    ensures LeBytes(FromLeBytes(s), |s|) == s
  {
    if s != [] {
      FromLeBytesRoundTrip(s[1..]);
      Pow2Plus8(8 * (|s| - 1));
      assert FromLeBytes(s) % 256 == s[0] && FromLeBytes(s) / 256 == FromLeBytes(s[1..]);
    }
  }

  lemma Pow2Plus8(n: nat)
    ensures Pow2(n + 8) == 256 * Pow2(n)
  {
    Pow2Plus7(n);
    assert Pow2(n + 8) == 2 * Pow2(n + 7);
  }

  // Digits

  lemma AtLeastOnce(d: int, k: int)
    requires d > 0
    ensures k >= 1 ==> d * k >= d
    ensures k <= -1 ==> d * k <= -d
  {
  }

  lemma Quotient(n: int, d: int, q: int, r: int)
    requires d > 0 && n == d * q + r && 0 <= r < d
    ensures n / d == q && n % d == r
  {
    var k := n / d - q;
    assert d * k == r - n % d by { assert d * (n / d) - d * q == d * k; }
    AtLeastOnce(d, k);
  }

  lemma DigitsBelow(a: nat, b: nat, q: nat, r: nat, w: nat)
    requires r < b && w < a
    ensures a * (b * q + r) + w == (a * b) * q + (a * r + w) && a * r + w < a * b
  {
    AtLeastOnce(a, b - r);
    assert a * (b - r) == a * b - a * r;
  }

  lemma QuotientAndRemainder(v: nat, a: nat) returns (q: nat, r: nat)
    requires a > 0
    ensures q == v / a && v == a * q + r && r < a
  {
    q, r := v / a, v % a;
  }

  lemma DivTwice(v: nat, a: nat, b: nat)
    requires a > 0 && b > 0
    ensures a * b > 0 && v / a / b == v / (a * b)
  {
    var x, w := QuotientAndRemainder(v, a);
    var q, r := QuotientAndRemainder(x, b);
    DigitsBelow(a, b, q, r, w);
    Quotient(v, a * b, q, a * r + w);
  }

  /** Bit `k` is the binary digit of weight 2^k. */
  lemma {:induction false} BitIsDigit(v: nat, k: nat)
    ensures TestBit(v, k) <==> v / Pow2(k) % 2 == 1
  {
    if k > 0 {
      BitIsDigit(v / 2, k - 1);
      DivTwice(v, 2, Pow2(k - 1));
    }
  }

  /** Byte `i` of the little-endian form is the digit to base 256 of weight 256^i. */
  lemma {:induction false} LeByteIsDigit(v: nat, n: nat, i: nat)
    requires i < n
    ensures LeBytes(v, n)[i] == v / Pow2(8 * i) % 256
  {
    if i > 0 {
      LeByteIsDigit(v / 256, n - 1, i - 1);
      Pow2Plus8(8 * (i - 1));
      DivTwice(v, 256, Pow2(8 * (i - 1)));
    }
  }
}
