/**
 LEB128 integers as section 5.2.2 of the WebAssembly Core Specification defines
 them: a minimal writer, and a reader that accepts every encoding of the width.
 */
module Leb128 {
  import opened Bits

  datatype ReadError = UnexpectedEof | InvalidData | UnknownDiscriminant(index: nat) | Unsupported

  /** What a reader returns: the value and how many bytes it consumed. */
  datatype Read<+T> = Got(value: T, used: nat) | Fail(error: ReadError)

  function WriteU(n: nat): (s: bytes)
    ensures |s| >= 1
  {
    if n < 128 then [n] else [128 + n % 128] + WriteU(n / 128)
  }

  function ReadU(width: nat, s: bytes): (r: Read<nat>)
    ensures r.Got? ==> 1 <= r.used <= |s|
  {
    if s == [] then Fail(UnexpectedEof)
    else if s[0] < 128 then
      if s[0] < Pow2(width) then Got(s[0], 1) else Fail(InvalidData)
    else if width <= 7 then Fail(InvalidData)
    else match ReadU(width - 7, s[1..])
      case Got(m, used) => Got(s[0] - 128 + 128 * m, used + 1)
      case Fail(e) => Fail(e)
  }

  function WriteS(n: int): (s: bytes)
    ensures |s| >= 1
    decreases if n < 0 then -n else n
  {
    if -64 <= n < 64 then [n % 128] else [128 + n % 128] + WriteS(n / 128)
  }

  function ReadS(width: nat, s: bytes): (r: Read<int>)
    requires width >= 1
    ensures r.Got? ==> 1 <= r.used <= |s|
  {
    if s == [] then Fail(UnexpectedEof)
    else if s[0] < 64 then
      if s[0] < Pow2(width - 1) then Got(s[0], 1) else Fail(InvalidData)
    else if s[0] < 128 then
      var n := s[0] as int - 128;
      if n >= -Pow2(width - 1) then Got(n, 1) else Fail(InvalidData)
    else if width <= 7 then Fail(InvalidData)
    else match ReadS(width - 7, s[1..])
      case Got(m, used) => Got(s[0] - 128 + 128 * m, used + 1)
      case Fail(e) => Fail(e)
  }

  /** An unsigned integer that fits the width is read back exactly, whatever follows it. */
  lemma {:induction false} RoundTripU(width: nat, n: nat, rest: bytes)
    requires n < Pow2(width)
    ensures ReadU(width, WriteU(n) + rest) == Got(n, |WriteU(n)|)
  {
    var s := WriteU(n) + rest;
    if n >= 128 {
      if width <= 7 { Pow2Values(); Pow2Monotone(width, 7); assert false; }
      Pow2Plus7(width - 7);
      assert s[1..] == WriteU(n / 128) + rest;
      RoundTripU(width - 7, n / 128, rest);
    }
  }

  /** A number that does not fit seven signed bits needs more than seven, and seven fewer hold all but its low ones. */
  lemma WideEnough(k: nat, n: int)
    requires -Pow2(k) <= n < Pow2(k) && !(-64 <= n < 64)
    ensures k >= 7 && -Pow2(k - 7) <= n / 128 < Pow2(k - 7)
  {
    Pow2Values();
    if k < 7 { Pow2Monotone(k, 6); }
    if k >= 7 { Pow2Plus7(k - 7); }
    assert Pow2(6) == 64;
  }

  lemma {:induction false} RoundTripS(width: nat, n: int, rest: bytes)
    requires width >= 1
    requires -Pow2(width - 1) <= n < Pow2(width - 1)
    ensures ReadS(width, WriteS(n) + rest) == Got(n, |WriteS(n)|)
  {
    var s := WriteS(n) + rest;
    if -64 <= n < 64 {
    } else {
      WideEnough(width - 1, n);
      assert s[0] == 128 + n % 128 && s[1..] == WriteS(n / 128) + rest;
      RoundTripS(width - 7, n / 128, rest);
    }
  }

  /** Whatever is read fits the width, and writing it again never takes more bytes than were read. */
  lemma {:induction false} ReadUNormalises(width: nat, s: bytes)
    requires ReadU(width, s).Got?
    ensures ReadU(width, s).value < Pow2(width)
    ensures |WriteU(ReadU(width, s).value)| <= ReadU(width, s).used
  {
    if s[0] >= 128 {
      ReadUNormalises(width - 7, s[1..]);
      Pow2Plus7(width - 7);
      var m := ReadU(width - 7, s[1..]).value;
      var n := s[0] - 128 + 128 * m;
      assert n / 128 == m;
    }
  }

  lemma {:induction false} ReadSNormalises(width: nat, s: bytes)
    requires width >= 1 && ReadS(width, s).Got?
    ensures -Pow2(width - 1) <= ReadS(width, s).value < Pow2(width - 1)
    ensures |WriteS(ReadS(width, s).value)| <= ReadS(width, s).used
  {
    if s[0] >= 128 {
      ReadSNormalises(width - 7, s[1..]);
      Pow2Plus7(width - 8);
      var m := ReadS(width - 7, s[1..]).value;
      var n := s[0] - 128 + 128 * m;
      assert n / 128 == m;
    }
  }

  /** A successful read depends only on the bytes it consumed. */
  lemma {:induction false} ReadULocal(width: nat, s: bytes, t: bytes)
    requires ReadU(width, s).Got?
    ensures ReadU(width, s[..ReadU(width, s).used] + t) == ReadU(width, s)
  {
    if s[0] >= 128 {
      var k := ReadU(width, s).used;
      ReadULocal(width - 7, s[1..], t);
      assert (s[..k] + t)[1..] == s[1..][..k - 1] + t;
    }
  }

  lemma {:induction false} ReadSLocal(width: nat, s: bytes, t: bytes)
    requires width >= 1 && ReadS(width, s).Got?
    ensures ReadS(width, s[..ReadS(width, s).used] + t) == ReadS(width, s)
  {
    if s[0] >= 128 {
      var k := ReadS(width, s).used;
      ReadSLocal(width - 7, s[1..], t);
      assert (s[..k] + t)[1..] == s[1..][..k - 1] + t;
    }
  }

  /** An integer of `7 * k` bits takes at most `k` bytes. */
  lemma {:induction false} WriteULength(n: nat, k: nat)
    requires k >= 1 && n < Pow2(7 * k)
    ensures |WriteU(n)| <= k
  {
    if n >= 128 {
      if k == 1 { Pow2Values(); }
      Pow2Plus7(7 * (k - 1));
      WriteULength(n / 128, k - 1);
    }
  }

  // The format

  /** The number whose digits to base 128 are the low seven bits of the bytes, lowest first. */
  function Digits(s: bytes): nat {
    if s == [] then 0 else s[0] % 128 + 128 * Digits(s[1..])
  }

  /** Every byte but the last has the continuation bit, and there are no more bytes than `width` bits can fill. */
  predicate Framed(width: nat, s: bytes) {
    && 1 <= |s| <= (width + 6) / 7
    && s[|s| - 1] < 128
    && forall i | 0 <= i < |s| - 1 :: s[i] >= 128
  }

  /** The bytes are an encoding of `n` at an unsigned type of `width` bits, padded or not. */
  predicate FormU(width: nat, n: int, s: bytes) {
    Framed(width, s) && n == Digits(s) < Pow2(width)
  }

  /** The same as a signed number: the last byte's bit of weight 64 is the sign. */
  function SignedDigits(s: bytes): int
    requires s != []
  {
    Digits(s) - if s[|s| - 1] >= 64 then Pow2(7 * |s|) else 0
  }

  /** The bytes are an encoding of `n` at a signed type of `width` bits. */
  predicate FormS(width: nat, n: int, s: bytes)
    requires width >= 1
  {
    && Framed(width, s)
    && n == SignedDigits(s)
    && -Pow2(width - 1) <= n < Pow2(width - 1)
  }

  lemma FramedTail(width: nat, s: bytes)
    requires |s| > 1
    ensures Framed(width, s) <==> s[0] >= 128 && width > 7 && Framed(width - 7, s[1..])
  {
    var t := s[1..];
    assert t[|t| - 1] == s[|s| - 1];
    if Framed(width, s) {
      assert forall i | 0 <= i < |t| - 1 :: t[i] == s[i + 1];
    }
    if s[0] >= 128 && width > 7 && Framed(width - 7, t) {
      assert forall i | 0 < i < |s| - 1 :: s[i] == t[i - 1];
    }
  }

  lemma FormUTail(width: nat, n: int, s: bytes)
    requires |s| > 1 && FormU(width, n, s)
    ensures width > 7 && s[0] >= 128 && FormU(width - 7, n / 128, s[1..]) && n == s[0] - 128 + 128 * (n / 128)
  {
    FramedTail(width, s);
    Pow2Plus7(width - 7);
  }

  /** Every form of `n` is read as `n`, whatever follows it. */
  lemma {:induction false} UnsignedFormRead(width: nat, n: int, s: bytes, rest: bytes)
    requires FormU(width, n, s)
    ensures n >= 0 && ReadU(width, s + rest) == Got(n, |s|)
    decreases |s|
  {
    if |s| > 1 {
      FormUTail(width, n, s);
      UnsignedFormRead(width - 7, n / 128, s[1..], rest);
      assert (s + rest)[1..] == s[1..] + rest;
    } else {
      assert s[1..] == [] && Digits(s) == s[0];
    }
  }

  /** And whatever is read was a form of it. */
  lemma {:induction false} UnsignedReadForm(width: nat, s: bytes)
    requires width >= 1 && ReadU(width, s).Got?
    ensures var r := ReadU(width, s); FormU(width, r.value, s[..r.used])
  {
    var r := ReadU(width, s);
    var f := s[..r.used];
    if s[0] < 128 {
      assert f[1..] == [] && Digits(f) == s[0];
    } else {
      UnsignedReadForm(width - 7, s[1..]);
      assert f[1..] == s[1..][..r.used - 1];
      FramedTail(width, f);
      Pow2Plus7(width - 7);
    }
  }

  lemma FormSTail(width: nat, n: int, s: bytes)
    requires width >= 1 && |s| > 1 && FormS(width, n, s)
    ensures width > 7 && s[0] >= 128 && FormS(width - 7, n / 128, s[1..]) && n == s[0] - 128 + 128 * (n / 128)
  {
    FramedTail(width, s);
    SignedTail(s);
    Pow2Plus7(width - 8);
  }

  /** What the sign takes off is seven bits less for the bytes behind the first. */
  lemma SignedTail(s: bytes)
    requires |s| > 1
    ensures var t := s[1..]; t[|t| - 1] == s[|s| - 1] && Pow2(7 * |s|) == 128 * Pow2(7 * |t|)
  {
    Pow2Plus7(7 * |s[1..]|);
  }

  lemma {:induction false} SignedFormRead(width: nat, n: int, s: bytes, rest: bytes)
    requires width >= 1 && FormS(width, n, s)
    ensures ReadS(width, s + rest) == Got(n, |s|)
    decreases |s|
  {
    if |s| > 1 {
      FormSTail(width, n, s);
      SignedFormRead(width - 7, n / 128, s[1..], rest);
      assert (s + rest)[1..] == s[1..] + rest;
    } else {
      Pow2Values();
      assert s[1..] == [] && Digits(s) == s[0];
    }
  }

  lemma FormSCons(width: nat, m: int, s: bytes)
    requires width > 7 && |s| > 1 && s[0] >= 128 && FormS(width - 7, m, s[1..])
    ensures FormS(width, s[0] - 128 + 128 * m, s)
  {
    FramedTail(width, s);
    SignedTail(s);
    Pow2Plus7(width - 8);
  }

  lemma {:induction false} SignedReadForm(width: nat, s: bytes)
    requires width >= 1 && ReadS(width, s).Got?
    ensures var r := ReadS(width, s); FormS(width, r.value, s[..r.used])
  {
    var r := ReadS(width, s);
    var f := s[..r.used];
    if s[0] < 128 {
      Pow2Values();
      assert f[1..] == [] && Digits(f) == s[0];
    } else {
      SignedReadForm(width - 7, s[1..]);
      assert f[1..] == s[1..][..r.used - 1];
      FormSCons(width, ReadS(width - 7, s[1..]).value, f);
    }
  }

  /** A stream that ends inside an integer is reported as such. */
  lemma {:induction false} UnsignedCut(width: nat, s: bytes, k: nat)
    requires ReadU(width, s).Got? && k < ReadU(width, s).used
    ensures ReadU(width, s[..k]) == Fail(UnexpectedEof)
  {
    if k > 0 {
      UnsignedCut(width - 7, s[1..], k - 1);
      assert s[..k][1..] == s[1..][..k - 1];
    }
  }

  lemma {:induction false} SignedCut(width: nat, s: bytes, k: nat)
    requires width >= 1 && ReadS(width, s).Got? && k < ReadS(width, s).used
    ensures ReadS(width, s[..k]) == Fail(UnexpectedEof)
  {
    if k > 0 {
      SignedCut(width - 7, s[1..], k - 1);
      assert s[..k][1..] == s[1..][..k - 1];
    }
  }

  /** A number that is too large for the width is malformed. */
  lemma {:induction false} UnsignedTooLarge(width: nat, s: bytes, rest: bytes)
    requires Framed(width, s) && Digits(s) >= Pow2(width)
    ensures ReadU(width, s + rest) == Fail(InvalidData)
    decreases |s|
  {
    if |s| > 1 {
      FramedTail(width, s);
      Pow2Plus7(width - 7);
      UnsignedTooLarge(width - 7, s[1..], rest);
      assert (s + rest)[1..] == s[1..] + rest;
    } else {
      assert s[1..] == [] && Digits(s) == s[0] % 128;
    }
  }

  /** And so is one that does not end within the bytes the width can fill. */
  lemma {:induction false} UnsignedTooLong(width: nat, s: bytes)
    requires width >= 1 && |s| >= (width + 6) / 7 && forall i | 0 <= i < (width + 6) / 7 :: s[i] >= 128
    ensures ReadU(width, s) == Fail(InvalidData)
  {
    if width > 7 { UnsignedTooLong(width - 7, s[1..]); }
  }

  lemma {:induction false} SignedTooLong(width: nat, s: bytes)
    requires width >= 1 && |s| >= (width + 6) / 7 && forall i | 0 <= i < (width + 6) / 7 :: s[i] >= 128
    ensures ReadS(width, s) == Fail(InvalidData)
  {
    if width > 7 { SignedTooLong(width - 7, s[1..]); }
  }

  lemma SignedDigitsCons(s: bytes)
    requires |s| > 1 && s[0] >= 128
    ensures SignedDigits(s) == s[0] - 128 + 128 * SignedDigits(s[1..])
  {
    SignedTail(s);
  }

  lemma {:induction false} SignedTooLarge(width: nat, s: bytes, rest: bytes)
    requires width >= 1 && Framed(width, s) && !(-Pow2(width - 1) <= SignedDigits(s) < Pow2(width - 1))
    ensures ReadS(width, s + rest) == Fail(InvalidData)
    decreases |s|
  {
    if |s| > 1 {
      FramedTail(width, s);
      SignedDigitsCons(s);
      Pow2Plus7(width - 8);
      SignedTooLarge(width - 7, s[1..], rest);
      assert (s + rest)[1..] == s[1..] + rest;
    } else {
      OneSignedDigit(s);
    }
  }

  lemma OneSignedDigit(s: bytes)
    requires |s| == 1 && s[0] < 128
    ensures SignedDigits(s) == if s[0] >= 64 then s[0] as int - 128 else s[0]
  {
    Pow2Values();
    assert s[1..] == [] && Digits(s) == s[0] % 128;
  }
}
