/**
 Flag sets on the wire: the 17-way width staircase of the encoder, the bit array
 it stands for, and the decoder's view of the same bytes.
 */
module Flags {
  import opened Wrappers
  import opened Bits

  /** One boolean per declared name. */
  function Presence(names: seq<string>, flags: set<string>): (bs: seq<bool>)
    ensures |bs| == |names|
  {
    seq(|names|, i requires 0 <= i < |names| => names[i] in flags)
  }

  /** The `HashSet` the encoder collects the listed names into. */
  function AsSet(listed: seq<string>): set<string> {
    set f | f in listed
  }

  /** Eight flags to a byte, lowest bit first; no flags at all still take one byte. */
  function Pack(bs: seq<bool>): (s: bytes)
    ensures |s| == Capacity(|bs|)
  {
    Pow2Values();
    if |bs| <= 8 then
      assert FromBits(bs) < 256 by { BitsFitByte(bs); }
      [FromBits(bs)]
    else
      assert FromBits(bs[..8]) < 256 by { BitsFitByte(bs[..8]); }
      [FromBits(bs[..8])] + Pack(bs[8..])
  }

  lemma BitsFitByte(bs: seq<bool>)
    requires |bs| <= 8
    ensures FromBits(bs) < 256
  {
    assert Pow2(8) == 256 by { Pow2Values(); }
    Pow2Monotone(|bs|, 8);
  }

  /** `max(1, n).div_ceil(8)`, the size of the decoder's buffer. */
  function Capacity(n: nat): (k: nat)
    ensures k >= 1 && 8 * k >= n
  {
    ((if n < 1 then 1 else n) + 7) / 8
  }

  /** The packed bytes are exactly the bit array: bit `i % 8` of byte `i / 8` is flag `i`, and the padding is zero. */
  lemma {:induction false} PackIsBitArray(bs: seq<bool>, i: nat)
    requires i < 8 * Capacity(|bs|)
    ensures TestBit(Pack(bs)[i / 8], i % 8) <==> i < |bs| && bs[i]
  {
    if |bs| <= 8 {
      FromBitsBit(bs, i);
    } else if i < 8 {
      FromBitsBit(bs[..8], i);
    } else {
      PackIsBitArray(bs[8..], i - 8);
      assert (i - 8) / 8 == i / 8 - 1 && (i - 8) % 8 == i % 8;
    }
  }

  /** The low byte of the bits read as an integer is the first octet, and the rest is the rest. */
  lemma LowOctet(bs: seq<bool>)
    requires |bs| > 8
    ensures FromBits(bs) % 256 == FromBits(bs[..8])
    ensures FromBits(bs) / 256 == FromBits(bs[8..])
  {
    assert bs[..8] + bs[8..] == bs;
    EightBitsConcat(bs[..8], bs[8..]);
    SplitByte(FromBits(bs), FromBits(bs[..8]), FromBits(bs[8..]));
  }

  lemma EightBitsConcat(a: seq<bool>, b: seq<bool>)
    requires |a| == 8
    ensures FromBits(a) < 256
    ensures FromBits(a + b) == FromBits(a) + 256 * FromBits(b)
  {
    FromBitsConcat(a, b);
    BitsFitByte(a);
    Pow2Values();
  }

  lemma SplitByte(v: nat, low: nat, high: nat)
    requires low < 256 && v == low + 256 * high
    ensures v % 256 == low && v / 256 == high
  {
  }

  /** The low bytes of the bits read as one little-endian integer are the packed bytes. */
  lemma {:induction false} LeBytesOfBits(bs: seq<bool>, n: nat)
    requires n >= Capacity(|bs|)
    ensures LeBytes(FromBits(bs), n)[..Capacity(|bs|)] == Pack(bs)
  {
    if |bs| <= 8 {
      BitsFitByte(bs);
    } else {
      LowOctet(bs);
      LeBytesOfBits(bs[8..], n - 1);
      TakeMore(FromBits(bs[..8]), LeBytes(FromBits(bs[8..]), n - 1), Capacity(|bs| - 8));
    }
  }

  lemma TakeMore(b: byte, s: bytes, n: nat)
    requires n <= |s|
    ensures ([b] + s)[..n + 1] == [b] + s[..n]
  {
  }

  /** No set bit is lost when the top bytes of the integer are cut off: they are all zero. */
  lemma {:induction false} CutBytesAreZero(bs: seq<bool>, n: nat, j: nat)
    requires Capacity(|bs|) <= j < n
    ensures LeBytes(FromBits(bs), n)[j] == 0
  {
    if |bs| <= 8 {
      BitsFitByte(bs);
      LeBytesOfZero(n - 1, j - 1);
    } else {
      LowOctet(bs);
      CutBytesAreZero(bs[8..], n - 1, j - 1);
    }
  }

  lemma {:induction false} LeBytesOfZero(n: nat, j: nat)
    requires j < n
    ensures LeBytes(0, n)[j] == 0
  {
    if j > 0 { LeBytesOfZero(n - 1, j - 1); }
  }

  /**
   `flag_bits` at an unsigned type of `width` bits. The shift amount stays below
   the width, so no shift overflows.
   */
  method FlagBits(width: nat, names: seq<string>, listed: seq<string>) returns (v: nat)
    requires |names| <= width
    ensures v == FromBits(Presence(names, AsSet(listed)))
    ensures v < Pow2(width)
  {
    var flags := AsSet(listed);
    ghost var bs := Presence(names, flags);
    v := 0;
    for i := 0 to |names|
      invariant v == FromBits(bs[..i])
    {
      assert i < width;
      FromBitsSnoc(bs[..i], bs[i]);
      assert bs[..i] + [bs[i]] == bs[..i + 1];
      if names[i] in flags {
        OrAbove(v, i);
        v := Or(v, Pow2(i));
      }
    }
    assert bs[..|names|] == bs;
    Pow2Monotone(|names|, width);
  }

  /** The bits of `bs` that fall in byte `j`. */
  function Octet(bs: seq<bool>, j: nat): (o: seq<bool>)
    ensures |o| <= 8
  {
    if |bs| <= 8 * j then [] else if |bs| < 8 * j + 8 then bs[8 * j..] else bs[8 * j..8 * j + 8]
  }

  lemma {:induction false} PackOctet(bs: seq<bool>, j: nat)
    requires j < Capacity(|bs|)
    ensures Pack(bs)[j] == FromBits(Octet(bs, j))
  {
    if |bs| <= 8 {
      assert Octet(bs, 0) == bs;
    } else if j == 0 {
    } else {
      PackOctet(bs[8..], j - 1);
      assert Octet(bs, j) == Octet(bs[8..], j - 1);
    }
  }

  /** The byte-array branch for more than 128 names: each present name sets one bit of the buffer in place. */
  method FlagArray(names: seq<string>, listed: seq<string>) returns (buf: array<byte>)
    requires |names| > 0
    ensures fresh(buf)
    ensures buf[..] == Pack(Presence(names, AsSet(listed)))
  {
    var cap := |names| / 8;
    if |names| % 8 != 0 {
      cap := cap + 1;
    }
    buf := new byte[cap](_ => 0);
    var flags := AsSet(listed);
    for i := 0 to |names|
      invariant Holds(buf[..], names, flags, i)
    {
      HoldsStep(buf[..], names, flags, i);
      if names[i] in flags {
        buf[i / 8] := Or(buf[i / 8], Pow2(i % 8));
      }
    }
    HoldsPacked(buf[..], names, flags);
  }

  /** Each byte of the buffer carries the flags of its octet among the first `i` names. */
  ghost predicate Holds(buf: bytes, names: seq<string>, flags: set<string>, i: nat) {
    i <= |names| && forall j | 0 <= j < |buf| :: buf[j] == FromBits(Octet(Presence(names, flags)[..i], j))
  }

  /** Setting the bit of one more present flag, or leaving the buffer alone for an absent one. */
  lemma HoldsStep(buf: bytes, names: seq<string>, flags: set<string>, i: nat)
    requires i < |names| && i / 8 < |buf| && Holds(buf, names, flags, i)
    ensures names[i] in flags ==>
              && Or(buf[i / 8], Pow2(i % 8)) < 256
              && Holds(buf[i / 8 := Or(buf[i / 8], Pow2(i % 8))], names, flags, i + 1)
    ensures names[i] !in flags ==> Holds(buf, names, flags, i + 1)
  {
    OctetStep(Presence(names, flags), i, |buf|);
    OrAbove(buf[i / 8], i % 8);
  }

  lemma HoldsPacked(buf: bytes, names: seq<string>, flags: set<string>)
    requires |buf| == Capacity(|names|) && Holds(buf, names, flags, |names|)
    ensures buf == Pack(Presence(names, flags))
  {
    var bs := Presence(names, flags);
    assert bs[..|names|] == bs;
    forall j | 0 <= j < |buf| ensures buf[j] == Pack(bs)[j] {
      PackOctet(bs, j);
    }
  }

  /** One more flag changes only its own octet, and there only its own bit. */
  lemma OctetStep(bs: seq<bool>, i: nat, cap: nat)
    requires i < |bs|
    ensures |Octet(bs[..i], i / 8)| == i % 8
    ensures FromBits(Octet(bs[..i + 1], i / 8)) == FromBits(Octet(bs[..i], i / 8)) + if bs[i] then Pow2(i % 8) else 0
    ensures FromBits(Octet(bs[..i + 1], i / 8)) < 256
    ensures forall m | 0 <= m < cap && m != i / 8 :: Octet(bs[..i + 1], m) == Octet(bs[..i], m)
  {
    assert Octet(bs[..i + 1], i / 8) == Octet(bs[..i], i / 8) + [bs[i]];
    FromBitsSnoc(Octet(bs[..i], i / 8), bs[i]);
    BitsFitByte(Octet(bs[..i + 1], i / 8));
  }

  /** `&T::to_le_bytes(flag_bits(..))[..cap]` for an unsigned `T` of `width` bits. */
  method PutBits(width: nat, cap: nat, names: seq<string>, listed: seq<string>) returns (out: bytes)
    requires |names| <= width && Capacity(|names|) == cap <= width / 8
    ensures out == Pack(Presence(names, AsSet(listed)))
  {
    var v := FlagBits(width, names, listed);
    LeBytesOfBits(Presence(names, AsSet(listed)), width / 8);
    out := LeBytes(v, width / 8)[..cap];
  }

  /** The encoder's staircase: an integer type wide enough for the names, cut to the bytes that carry them. */
  method EncodeFlags(names: seq<string>, listed: seq<string>) returns (out: bytes)
    ensures out == Pack(Presence(names, AsSet(listed)))
  {
    var n := |names|;
    if n <= 8 { out := PutBits(8, 1, names, listed); }
    else if n <= 16 { out := PutBits(16, 2, names, listed); }
    else if n <= 24 { out := PutBits(32, 3, names, listed); }
    else if n <= 32 { out := PutBits(32, 4, names, listed); }
    else if n <= 40 { out := PutBits(64, 5, names, listed); }
    else if n <= 48 { out := PutBits(64, 6, names, listed); }
    else if n <= 56 { out := PutBits(64, 7, names, listed); }
    else if n <= 64 { out := PutBits(64, 8, names, listed); }
    else if n <= 72 { out := PutBits(128, 9, names, listed); }
    else if n <= 80 { out := PutBits(128, 10, names, listed); }
    else if n <= 88 { out := PutBits(128, 11, names, listed); }
    else if n <= 96 { out := PutBits(128, 12, names, listed); }
    else if n <= 104 { out := PutBits(128, 13, names, listed); }
    else if n <= 112 { out := PutBits(128, 14, names, listed); }
    else if n <= 120 { out := PutBits(128, 15, names, listed); }
    else if n <= 128 { out := PutBits(128, 16, names, listed); }
    else {
      var buf := FlagArray(names, listed);
      out := buf[..];
    }
  }

  /** The names whose bit is set, in declaration order. */
  function Select(names: seq<string>, buf: bytes, i: nat): seq<string>
    requires |names| <= 8 * |buf| && i <= |names|
    decreases |names| - i
  {
    if i == |names| then []
    else (if TestBit(buf[i / 8], i % 8) then [names[i]] else []) + Select(names, buf, i + 1)
  }

  /** The declared names among `flags`, in declaration order. */
  function InOrder(names: seq<string>, flags: set<string>): (r: seq<string>)
    ensures forall f :: f in r <==> f in names && f in flags
  {
    if names == [] then []
    else (if names[0] in flags then [names[0]] else []) + InOrder(names[1..], flags)
  }

  /** The decoder finds in the packed bytes exactly the names that were listed. */
  lemma {:induction false} SelectPacked(names: seq<string>, flags: set<string>, i: nat)
    requires i <= |names|
    ensures Select(names, Pack(Presence(names, flags)), i) == InOrder(names[i..], flags)
    decreases |names| - i
  {
    if i < |names| {
      PackIsBitArray(Presence(names, flags), i);
      SelectPacked(names, flags, i + 1);
      assert names[i..][1..] == names[i + 1..];
    }
  }

  /** What the decoder selects is declared, and is already in declaration order. */
  lemma {:induction false} SelectStable(names: seq<string>, buf: bytes, i: nat)
    requires |names| <= 8 * |buf| && i <= |names|
    requires Distinct(names)
    ensures forall f | f in Select(names, buf, i) :: f in names[i..]
    ensures InOrder(names[i..], AsSet(Select(names, buf, i))) == Select(names, buf, i)
    decreases |names| - i
  {
    if i < |names| {
      SelectStable(names, buf, i + 1);
      var rest := Select(names, buf, i + 1);
      assert names[i] !in names[i + 1..];
      assert names[i..][1..] == names[i + 1..];
      InOrderIgnores(names[i + 1..], AsSet(rest), names[i]);
      assert AsSet([names[i]] + rest) == AsSet(rest) + {names[i]};
      assert [] + rest == rest;
    }
  }

  lemma {:induction false} InOrderIgnores(names: seq<string>, flags: set<string>, extra: string)
    requires extra !in names
    ensures InOrder(names, flags + {extra}) == InOrder(names, flags)
  {
    if names != [] { InOrderIgnores(names[1..], flags, extra); }
  }
}
