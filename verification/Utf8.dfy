/**
 UTF-8 as section 3 of RFC 3629 defines it, over Unicode scalar values, and the
 length-prefixed names of section 5.2.4 of the WebAssembly Core Specification.
 */
module Utf8 {
  import opened Wrappers
  import opened Bits
  import opened Leb128

  function WriteChar(c: char): (s: bytes)
    ensures 1 <= |s| <= 4
  {
    var v := c as int;
    if v < 0x80 then [v]
    else if v < 0x800 then [0xC0 + v / 64, Tail(v)]
    else if v < 0x1_0000 then [0xE0 + v / 64 / 64, Tail(v / 64), Tail(v)]
    else [0xF0 + v / 64 / 64 / 64, Tail(v / 64 / 64), Tail(v / 64), Tail(v)]
  }

  /** A continuation byte carrying the low six bits of `v`. */
  function Tail(v: nat): (b: byte)
    ensures IsTail(b)
  {
    0x80 + v % 64
  }

  predicate IsTail(b: byte) {
    0x80 <= b < 0xC0
  }

  /** The bits of `b` below the marker `mark`, shifted in under `high`. */
  function Shift(high: int, b: byte, mark: int): int {
    64 * high + (b - mark)
  }

  /** The scalar value `v`, unless it is a surrogate, overlong (below `least`) or out of range. */
  function Scalar(v: int, least: nat, used: nat): (r: Read<char>)
    ensures r.Got? ==> r.used == used && r.value as int == v >= least
  {
    if least <= v && (v < 0xD800 || 0xE000 <= v < 0x11_0000)
    then Got(v as char, used)
    else Fail(InvalidData)
  }

  function ReadChar(s: bytes): (r: Read<char>)
    ensures r.Got? ==> 1 <= r.used <= |s|
  {
    if s == [] then Fail(UnexpectedEof)
    else if s[0] < 0x80 then Scalar(s[0], 0, 1)
    else if s[0] < 0xC0 || s[0] >= 0xF8 then Fail(InvalidData)
    else if s[0] < 0xE0 then ReadTwo(s)
    else if s[0] < 0xF0 then ReadThree(s)
    else ReadFour(s)
  }

  function ReadTwo(s: bytes): Read<char>
    requires s != []
  {
    if |s| < 2 then Fail(UnexpectedEof)
    else if !IsTail(s[1]) then Fail(InvalidData)
    else Scalar(Shift(Shift(0, s[0], 0xC0), s[1], 0x80), 0x80, 2)
  }

  function ReadThree(s: bytes): Read<char>
    requires s != []
  {
    if |s| < 3 then Fail(UnexpectedEof)
    else if !IsTail(s[1]) || !IsTail(s[2]) then Fail(InvalidData)
    else Scalar(Shift(Shift(Shift(0, s[0], 0xE0), s[1], 0x80), s[2], 0x80), 0x800, 3)
  }

  function ReadFour(s: bytes): Read<char>
    requires s != []
  {
    if |s| < 4 then Fail(UnexpectedEof)
    else if !IsTail(s[1]) || !IsTail(s[2]) || !IsTail(s[3]) then Fail(InvalidData)
    else Scalar(Shift(Shift(Shift(Shift(0, s[0], 0xF0), s[1], 0x80), s[2], 0x80), s[3], 0x80), 0x1_0000, 4)
  }

  lemma CharRoundTrip(c: char, rest: bytes)
    ensures ReadChar(WriteChar(c) + rest) == Got(c, |WriteChar(c)|)
  {
    var v := c as int;
    var s := WriteChar(c) + rest;
    if v < 0x80 {
      assert s[0] == v;
    } else if v < 0x800 {
      assert s[0] == 0xC0 + v / 64 && s[1] == Tail(v);
      ShiftOn(v);
    } else if v < 0x1_0000 {
      assert s[0] == 0xE0 + v / 64 / 64 && s[1] == Tail(v / 64) && s[2] == Tail(v);
      ShiftOn(v / 64);
      ShiftOn(v);
    } else {
      assert s[0] == 0xF0 + v / 64 / 64 / 64 && s[1] == Tail(v / 64 / 64) && s[2] == Tail(v / 64) && s[3] == Tail(v);
      ShiftOn(v / 64 / 64);
      ShiftOn(v / 64);
      ShiftOn(v);
    }
  }

  lemma ShiftOn(v: nat)
    ensures Shift(v / 64, Tail(v), 0x80) == v
  {
  }

  /** Every scalar value has one encoding: what is read is written back byte for byte. */
  lemma CharCanonical(s: bytes)
    requires ReadChar(s).Got?
    ensures WriteChar(ReadChar(s).value) == s[..ReadChar(s).used]
  {
    if 0x80 <= s[0] < 0xE0 {
      TwoCanonical(s);
    } else if 0xE0 <= s[0] < 0xF0 {
      ThreeCanonical(s);
    } else if 0xF0 <= s[0] {
      FourCanonical(s);
    }
  }

  lemma TwoCanonical(s: bytes)
    requires s != [] && 0xC0 <= s[0] < 0xE0 && ReadTwo(s).Got?
    ensures WriteChar(ReadTwo(s).value) == s[..2]
  {
    ShiftBack(Shift(0, s[0], 0xC0), s[1]);
  }

  lemma ThreeCanonical(s: bytes)
    requires s != [] && 0xE0 <= s[0] < 0xF0 && ReadThree(s).Got?
    ensures WriteChar(ReadThree(s).value) == s[..3]
  {
    var a := Shift(0, s[0], 0xE0);
    ShiftBack(a, s[1]);
    ShiftBack(Shift(a, s[1], 0x80), s[2]);
  }

  lemma FourCanonical(s: bytes)
    requires s != [] && 0xF0 <= s[0] < 0xF8 && ReadFour(s).Got?
    ensures WriteChar(ReadFour(s).value) == s[..4]
  {
    var a := Shift(0, s[0], 0xF0);
    var b := Shift(a, s[1], 0x80);
    ShiftBack(a, s[1]);
    ShiftBack(b, s[2]);
    ShiftBack(Shift(b, s[2], 0x80), s[3]);
  }

  lemma ShiftBack(high: nat, b: byte)
    requires IsTail(b)
    ensures var v := Shift(high, b, 0x80); v >= 0 && v / 64 == high && Tail(v) == b
  {
  }

  lemma CharLocal(s: bytes, t: bytes)
    requires ReadChar(s).Got?
    ensures ReadChar(s[..ReadChar(s).used] + t) == ReadChar(s)
  {
    CharCanonical(s);
    CharRoundTrip(ReadChar(s).value, t);
  }

  function WriteUtf8(t: string): bytes {
    if t == "" then [] else WriteChar(t[0]) + WriteUtf8(t[1..])
  }

  /** `String::from_utf8`: the whole of `s` must be well formed. */
  function FromUtf8(s: bytes): Option<string>
    decreases |s|
  {
    if s == [] then Some("")
    else match ReadChar(s)
      case Fail(_) => None
      case Got(c, used) =>
        match FromUtf8(s[used..])
        case None => None
        case Some(t) => Some([c] + t)
  }

  lemma {:induction false} Utf8RoundTrip(t: string)
    ensures FromUtf8(WriteUtf8(t)) == Some(t)
  {
    if t != "" {
      var s := WriteUtf8(t);
      CharRoundTrip(t[0], WriteUtf8(t[1..]));
      assert s[|WriteChar(t[0])|..] == WriteUtf8(t[1..]);
      Utf8RoundTrip(t[1..]);
      assert [t[0]] + t[1..] == t;
    }
  }

  lemma {:induction false} Utf8Canonical(s: bytes)
    requires FromUtf8(s).Some?
    ensures WriteUtf8(FromUtf8(s).value) == s
    decreases |s|
  {
    if s != [] {
      var used := ReadChar(s).used;
      Utf8Canonical(s[used..]);
      WriteUtf8Cons(s, used, ReadChar(s).value, FromUtf8(s[used..]).value);
    }
  }

  lemma WriteUtf8Cons(s: bytes, used: nat, c: char, t: string)
    requires ReadChar(s) == Got(c, used) && WriteUtf8(t) == s[used..]
    ensures WriteUtf8([c] + t) == s
  {
    assert WriteChar(c) == s[..used] by { CharCanonical(s); }
    assert ([c] + t)[1..] == t;
    assert s[..used] + s[used..] == s;
  }

  /** A name is its UTF-8 length as an unsigned LEB128 `u32`, then the bytes. */
  function WriteName(t: string): bytes {
    WriteU(|WriteUtf8(t)|) + WriteUtf8(t)
  }

  function ReadName(s: bytes): (r: Read<string>)
    ensures r.Got? ==> 1 <= r.used <= |s|
  {
    match ReadU(32, s)
    case Fail(e) => Fail(e)
    case Got(n, used) =>
      if |s| < used + n then Fail(UnexpectedEof)
      else match FromUtf8(s[used..used + n])
        case None => Fail(InvalidData)
        case Some(t) => Got(t, used + n)
  }

  lemma NameRoundTrip(t: string, rest: bytes)
    requires |WriteUtf8(t)| < TWO_32
    ensures ReadName(WriteName(t) + rest) == Got(t, |WriteName(t)|)
  {
    var body := WriteUtf8(t);
    LengthReadsBack(body, rest);
    Utf8RoundTrip(t);
  }

  /** The length in front of some bytes is read back, and the bytes follow. */
  lemma LengthReadsBack(body: bytes, rest: bytes)
    requires |body| < TWO_32
    ensures var head := WriteU(|body|); var s := head + body + rest;
            && ReadU(32, s) == Got(|body|, |head|)
            && s[|head|..|head| + |body|] == body
  {
    var head := WriteU(|body|);
    Pow2Values();
    RoundTripU(32, |body|, body + rest);
    assert head + body + rest == head + (body + rest);
  }

  lemma NameNormalises(s: bytes)
    requires ReadName(s).Got?
    ensures |WriteUtf8(ReadName(s).value)| < TWO_32
    ensures |WriteName(ReadName(s).value)| <= ReadName(s).used
  {
    ReadUNormalises(32, s);
    Pow2Values();
    var r := ReadU(32, s);
    Utf8Canonical(s[r.used..r.used + r.value]);
  }

  lemma NameLocal(s: bytes, t: bytes)
    requires ReadName(s).Got?
    ensures ReadName(s[..ReadName(s).used] + t) == ReadName(s)
  {
    var r := ReadU(32, s);
    var k := ReadName(s).used;
    ReadULocal(32, s, s[r.used..k] + t);
    Middle(s, t, r.used, k);
  }

  lemma Middle(s: bytes, t: bytes, a: nat, b: nat)
    requires a <= b <= |s|
    ensures s[..a] + (s[a..b] + t) == s[..b] + t && (s[..b] + t)[a..b] == s[a..b]
  {
    assert s[..a] + s[a..b] == s[..b];
  }

  /** Two texts with the same UTF-8 are the same text. */
  lemma Utf8Injective(a: string, b: string)
    requires WriteUtf8(a) == WriteUtf8(b)
    ensures a == b
  {
    Utf8RoundTrip(a);
    Utf8RoundTrip(b);
  }

  // The format

  /** The smallest scalar value that calls for `n` bytes. */
  function Least(n: nat): int {
    if n <= 1 then 0 else if n == 2 then 0x80 else if n == 3 then 0x800 else if n == 4 then 0x1_0000 else 0x11_0000
  }

  /** The bits in front of those of the value in the first of `n` bytes. */
  function Marker(n: nat): int {
    if n <= 1 then 0 else if n == 2 then 0xC0 else if n == 3 then 0xE0 else 0xF0
  }

  /** The value with six more bits from each of the bytes after the first. */
  function Sextets(first: int, tails: bytes): int {
    if tails == [] then first else 64 * Sextets(first, tails[..|tails| - 1]) + tails[|tails| - 1] % 64
  }

  /** The bytes are the one UTF-8 form of `c`: the shortest, with the bits of `c` behind the markers. */
  predicate CharForm(c: char, s: bytes) {
    && 1 <= |s| <= 4
    && Least(|s|) <= c as int < Least(|s| + 1)
    && Marker(|s|) <= s[0]
    && (forall i | 0 < i < |s| :: IsTail(s[i]))
    && c as int == Sextets(s[0] - Marker(|s|), s[1..])
  }

  lemma CharFormExactly(c: char, s: bytes)
    ensures CharForm(c, s) <==> s == WriteChar(c)
  {
    if CharForm(c, s) {
      CharFormRead(c, s);
      CharCanonical(s);
    }
    WrittenCharForm(c);
  }

  /** The low bits of a continuation byte. */
  lemma TailLow(b: byte)
    requires IsTail(b)
    ensures b % 64 == b - 0x80
  {
  }

  lemma CharFormRead(c: char, s: bytes)
    requires CharForm(c, s)
    ensures ReadChar(s) == Got(c, |s|)
  {
    if |s| == 1 {
      assert s[1..] == [];
    } else if |s| == 2 {
      TwoSextets(s[0] as int - 0xC0, s[1..]);
      TailLow(s[1]);
    } else if |s| == 3 {
      ThreeSextets(s[0] as int - 0xE0, s[1..]);
      TailLow(s[1]); TailLow(s[2]);
    } else {
      FourSextets(s[0] as int - 0xF0, s[1..]);
      TailLow(s[1]); TailLow(s[2]); TailLow(s[3]);
    }
  }

  /** Six bits in a continuation byte, and the others above them. */
  lemma TailOf(v: nat)
    ensures 64 * (v / 64) + Tail(v) % 64 == v
  {
  }

  lemma WrittenCharForm(c: char)
    ensures CharForm(c, WriteChar(c))
  {
    var s, v := WriteChar(c), c as int;
    if |s| == 1 {
      assert s[1..] == [];
    } else if |s| == 2 {
      TwoSextets(v / 64, s[1..]);
      TailOf(v);
    } else if |s| == 3 {
      ThreeSextets(v / 64 / 64, s[1..]);
      TailOf(v); TailOf(v / 64);
    } else {
      FourSextets(v / 64 / 64 / 64, s[1..]);
      TailOf(v); TailOf(v / 64); TailOf(v / 64 / 64);
    }
  }

  lemma TwoSextets(first: int, tails: bytes)
    requires |tails| == 1
    ensures Sextets(first, tails) == 64 * first + tails[0] % 64
  {
    assert tails[..0] == [];
  }

  lemma ThreeSextets(first: int, tails: bytes)
    requires |tails| == 2
    ensures Sextets(first, tails) == 64 * (64 * first + tails[0] % 64) + tails[1] % 64
  {
    TwoSextets(first, tails[..1]);
  }

  lemma FourSextets(first: int, tails: bytes)
    requires |tails| == 3
    ensures Sextets(first, tails) == 64 * (64 * (64 * first + tails[0] % 64) + tails[1] % 64) + tails[2] % 64
  {
    ThreeSextets(first, tails[..2]);
  }

  /** The forms of the characters, one behind the other. */
  ghost predicate TextForm(t: string, s: bytes) {
    if t == "" then s == []
    else exists k | 0 < k <= |s| :: CharForm(t[0], s[..k]) && TextForm(t[1..], s[k..])
  }

  lemma {:induction false} TextFormWritten(t: string, s: bytes)
    requires TextForm(t, s)
    ensures s == WriteUtf8(t)
  {
    if t != "" {
      var k :| 0 < k <= |s| && CharForm(t[0], s[..k]) && TextForm(t[1..], s[k..]);
      CharFormExactly(t[0], s[..k]);
      TextFormWritten(t[1..], s[k..]);
      assert s[..k] + s[k..] == s;
    }
  }

  lemma {:induction false} WrittenTextForm(t: string)
    ensures TextForm(t, WriteUtf8(t))
  {
    if t != "" {
      var s, k := WriteUtf8(t), |WriteChar(t[0])|;
      assert s[..k] == WriteChar(t[0]) && s[k..] == WriteUtf8(t[1..]);
      CharFormExactly(t[0], s[..k]);
      WrittenTextForm(t[1..]);
    }
  }

  /** A text behind the number of its bytes. */
  ghost predicate NameForm(t: string, s: bytes) {
    exists k | 0 < k <= |s| :: FormU(32, |s| - k, s[..k]) && TextForm(t, s[k..])
  }

  lemma NameFormRead(t: string, s: bytes, rest: bytes)
    requires NameForm(t, s)
    ensures ReadName(s + rest) == Got(t, |s|)
  {
    var k :| 0 < k <= |s| && FormU(32, |s| - k, s[..k]) && TextForm(t, s[k..]);
    UnsignedFormRead(32, |s| - k, s[..k], s[k..] + rest);
    HeadAndBody(s, k, rest);
    TextFormWritten(t, s[k..]);
    Utf8RoundTrip(t);
  }

  lemma HeadAndBody(s: bytes, k: nat, rest: bytes)
    requires k <= |s|
    ensures s[..k] + (s[k..] + rest) == s + rest && (s + rest)[k..|s|] == s[k..]
  {
    assert s[..k] + s[k..] == s;
  }

  lemma SliceOfPrefix(s: bytes, k: nat, n: nat)
    requires k <= n <= |s|
    ensures s[..n][..k] == s[..k] && s[..n][k..] == s[k..n]
  {
  }

  lemma NameReadForm(s: bytes)
    requires ReadName(s).Got?
    ensures var r := ReadName(s); NameForm(r.value, s[..r.used])
  {
    var head, r := ReadU(32, s), ReadName(s);
    var f := s[..r.used];
    UnsignedReadForm(32, s);
    SliceOfPrefix(s, head.used, r.used);
    Utf8Canonical(s[head.used..r.used]);
    WrittenTextForm(r.value);
  }

  lemma CharCut(s: bytes, k: nat)
    requires ReadChar(s).Got? && k < ReadChar(s).used
    ensures ReadChar(s[..k]) == Fail(UnexpectedEof)
  {
  }

  lemma NameCut(s: bytes, k: nat)
    requires ReadName(s).Got? && k < ReadName(s).used
    ensures ReadName(s[..k]) == Fail(UnexpectedEof)
  {
    var head := ReadU(32, s);
    if k < head.used {
      UnsignedCut(32, s, k);
    } else {
      ReadULocal(32, s, s[head.used..k]);
      assert s[..head.used] + s[head.used..k] == s[..k];
    }
  }

  /** Bytes are a text exactly when they are the forms of its characters. */
  lemma Utf8Exactly(s: bytes, t: string)
    ensures FromUtf8(s) == Some(t) <==> TextForm(t, s)
  {
    if FromUtf8(s) == Some(t) {
      Utf8Canonical(s);
      WrittenTextForm(t);
    }
    if TextForm(t, s) {
      TextFormWritten(t, s);
      Utf8RoundTrip(t);
    }
  }

  /** A name whose bytes are no text is malformed. */
  lemma NameRefused(head: bytes, body: bytes, rest: bytes)
    requires FormU(32, |body|, head) && forall t :: !TextForm(t, body)
    ensures ReadName(head + body + rest) == Fail(InvalidData)
  {
    var s := head + body;
    UnsignedFormRead(32, |body|, head, body + rest);
    assert head + (body + rest) == s + rest;
    assert (s + rest)[|head|..|head| + |body|] == body;
    if FromUtf8(body).Some? { Utf8Exactly(body, FromUtf8(body).value); }
  }
}
