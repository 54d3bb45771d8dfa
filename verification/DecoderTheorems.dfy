/** What the decoder accepts, and that reading is local. */
module DecoderTheorems {
  import opened Wrappers
  import opened Bits
  import opened Leb128
  import opened Utf8
  import opened Values
  import opened Flags
  import opened Encoder
  import opened Decoder
  import opened CodecTheorems

  /** `v` is a value of `ty` in canonical form that encodes into at most `used` bytes. */
  ghost predicate Canonical(ty: Type, v: Val, used: nat) {
    WellTyped(ty, v) && Canon(ty, v) == v && Fits(Enc(ty, v), used)
  }

  /** The call succeeded and wrote at most `used` bytes. */
  predicate Fits(w: Written, used: nat) {
    w.err.None? && |w.out| <= used
  }

  /**
   Whatever bytes the decoder accepts, the value is well typed and already in
   canonical form, and its encoding is no longer than what was read.
   */
  lemma {:induction false} DecodesCanonically(ty: Type, s: bytes)
    requires Named(ty) && Dec(ty, s).Got?
    ensures Canonical(ty, Dec(ty, s).value, Dec(ty, s).used)
    decreases ty, 1
  {
    if Leaf(ty) {
      LeafDecodesCanonically(ty, s);
    } else if ty.List? {
      CountedListDecodesCanonically(ty.elem, s);
    } else if ty.Record? {
      RecordDecodesCanonically(ty.fields, s);
    } else if ty.Tuple? {
      TupleDecodesCanonically(ty.types, s);
    } else if ty.Variant? {
      VariantDecodesCanonically(ty.cases, s);
    } else if ty.Opt? {
      if ReadStatus(s).value { DecodesCanonically(ty.some, s[1..]); }
    } else {
      ResultDecodesCanonically(ty, s);
    }
  }

  lemma {:induction false} ResultDecodesCanonically(ty: Type, s: bytes)
    requires ty.Res? && Named(ty) && Dec(ty, s).Got?
    ensures Canonical(ty, Dec(ty, s).value, Dec(ty, s).used)
    decreases ty, 0
  {
    if ReadStatus(s).value {
      if ty.err.Some? { DecodesCanonically(ty.err.value, s[1..]); }
    } else {
      if ty.ok.Some? { DecodesCanonically(ty.ok.value, s[1..]); }
    }
  }

  lemma {:induction false} CountedListDecodesCanonically(elem: Type, s: bytes)
    requires Named(elem) && Dec(Type.List(elem), s).Got?
    ensures Canonical(Type.List(elem), Dec(Type.List(elem), s).value, Dec(Type.List(elem), s).used)
    decreases elem, 3
  {
    var count := ReadU(32, s);
    ListDecodesCanonically(elem, count.value, s[count.used..]);
    ListGrowsNot(elem, count.value, s[count.used..]);
    CountedListFits(elem, s);
    CountFits(s);
    ListCanonical(elem, DecList(elem, count.value, s[count.used..]).value, Dec(Type.List(elem), s).used);
  }

  lemma CountFits(s: bytes)
    requires ReadU(32, s).Got?
    ensures ReadU(32, s).value < TWO_32
  {
    Pow2Values();
    ReadUNormalises(32, s);
  }

  lemma ListCanonical(elem: Type, vs: seq<Val>, used: nat)
    requires |vs| < TWO_32 && (forall i | 0 <= i < |vs| :: WellTyped(elem, vs[i])) && CanonList(elem, vs) == vs
    requires Fits(Enc(Type.List(elem), Val.List(vs)), used)
    ensures Canonical(Type.List(elem), Val.List(vs), used)
  {
  }

  lemma CountedListFits(elem: Type, s: bytes)
    requires Dec(Type.List(elem), s).Got?
    requires var count := ReadU(32, s); var body := DecList(elem, count.value, s[count.used..]);
             Fits(EncList(elem, body.value), body.used)
    ensures Fits(Enc(Type.List(elem), Dec(Type.List(elem), s).value), Dec(Type.List(elem), s).used)
  {
    var count := ReadU(32, s);
    var body := DecList(elem, count.value, s[count.used..]);
    ReadUNormalises(32, s);
    Pow2Values();
    ThenFits(Done(WriteU(count.value)), EncList(elem, body.value), count.used, body.used);
  }

  lemma {:induction false} VariantDecodesCanonically(cases: seq<Case>, s: bytes)
    requires Named(Type.Variant(cases)) && DecVariant(cases, s).Got?
    ensures Canonical(Type.Variant(cases), DecVariant(cases, s).value, DecVariant(cases, s).used)
    decreases cases, 1
  {
    var index := ReadU(32, s);
    ReadUNormalises(32, s);
    FindDistinct(CaseNames(cases), index.value);
    var case_ := cases[index.value];
    if case_.ty.Some? {
      DecodesCanonically(case_.ty.value, s[index.used..]);
      var payload := Dec(case_.ty.value, s[index.used..]);
      CaseCanonical(cases, index.value, Some(payload.value), index.used, payload.used);
    } else {
      CaseCanonical(cases, index.value, None, index.used, 0);
    }
  }

  /** A case in canonical form, from its index and its payload. */
  lemma CaseCanonical(cases: seq<Case>, i: nat, payload: Option<Val>, before: nat, used: nat)
    requires i < |cases| && FindName(CaseNames(cases), cases[i].name) == Some(i)
    requires |WriteU(i)| <= before && ClassOf(|cases|).Some?
    requires match cases[i].ty
             case None => payload.None?
             case Some(ty) => payload.Some? && Canonical(ty, payload.value, used)
    ensures Canonical(Type.Variant(cases), Val.Variant(cases[i].name, payload), before + used)
  {
  }

  /** Some bytes are read as `v`. */
  ghost predicate Readable(ty: Type, v: Val) {
    exists s :: ReadAs(ty, s, v)
  }

  ghost predicate ReadAs(ty: Type, s: bytes, v: Val) {
    Dec(ty, s).Got? && Dec(ty, s).value == v
  }

  lemma {:induction false} ElementsReadable(elem: Type, n: nat, s: bytes)
    requires DecList(elem, n, s).Got?
    ensures forall i | 0 <= i < n :: Readable(elem, DecList(elem, n, s).value[i])
  {
    if n > 0 {
      var here := Dec(elem, s);
      DecListUnfolds(elem, n, s);
      assert ReadAs(elem, s, here.value);
      ElementsReadable(elem, n - 1, s[here.used..]);
      ReadableCons(elem, here.value, DecList(elem, n - 1, s[here.used..]).value);
    }
  }

  lemma ReadableCons(elem: Type, v: Val, vs: seq<Val>)
    requires Readable(elem, v) && forall i | 0 <= i < |vs| :: Readable(elem, vs[i])
    ensures forall i | 0 <= i < |[v] + vs| :: Readable(elem, ([v] + vs)[i])
  {
  }

  lemma {:induction false} ListDecodesCanonically(elem: Type, n: nat, s: bytes)
    requires Named(elem) && DecList(elem, n, s).Got?
    ensures var vs := DecList(elem, n, s).value;
            (forall i | 0 <= i < |vs| :: WellTyped(elem, vs[i])) && CanonList(elem, vs) == vs
    decreases elem, 2, n
  {
    var vs := DecList(elem, n, s).value;
    ElementsReadable(elem, n, s);
    forall i | 0 <= i < |vs| ensures WellTyped(elem, vs[i]) && Canon(elem, vs[i]) == vs[i] {
      var t :| ReadAs(elem, t, vs[i]);
      DecodesCanonically(elem, t);
    }
    CanonListFixed(elem, vs);
  }

  lemma {:induction false} CanonListFixed(elem: Type, vs: seq<Val>)
    requires forall i | 0 <= i < |vs| :: Canon(elem, vs[i]) == vs[i]
    ensures CanonList(elem, vs) == vs
  {
    if vs != [] { CanonListFixed(elem, vs[1..]); }
  }

  lemma {:induction false} ListGrowsNot(elem: Type, n: nat, s: bytes)
    requires Named(elem) && DecList(elem, n, s).Got?
    ensures Fits(EncList(elem, DecList(elem, n, s).value), DecList(elem, n, s).used)
    decreases elem, 2, n
  {
    if n > 0 {
      DecodesCanonically(elem, s);
      ListGrowsNot(elem, n - 1, s[Dec(elem, s).used..]);
      ListGrowsNotStep(elem, n, s);
    }
  }

  lemma ListGrowsNotStep(elem: Type, n: nat, s: bytes)
    requires n > 0 && DecList(elem, n, s).Got? && Fits(Enc(elem, Dec(elem, s).value), Dec(elem, s).used)
    requires var rest := DecList(elem, n - 1, s[Dec(elem, s).used..]); Fits(EncList(elem, rest.value), rest.used)
    ensures Fits(EncList(elem, DecList(elem, n, s).value), DecList(elem, n, s).used)
  {
    var here := Dec(elem, s);
    var rest := DecList(elem, n - 1, s[here.used..]);
    DecListUnfolds(elem, n, s);
    JoinedLength(elem, here.value, rest.value, here.used, rest.used);
  }

  lemma EncListCons(elem: Type, v: Val, vs: seq<Val>)
    ensures EncList(elem, [v] + vs) == Enc(elem, v).Then(EncList(elem, vs))
  {
    assert ([v] + vs)[1..] == vs;
  }

  lemma ThenFits(first: Written, next: Written, here: nat, more: nat)
    requires Fits(first, here) && Fits(next, more)
    ensures Fits(first.Then(next), here + more)
  {
  }

  lemma JoinedLength(elem: Type, v: Val, vs: seq<Val>, here: nat, more: nat)
    requires Fits(Enc(elem, v), here) && Fits(EncList(elem, vs), more)
    ensures Fits(EncList(elem, [v] + vs), here + more)
  {
    EncListCons(elem, v, vs);
    ThenFits(Enc(elem, v), EncList(elem, vs), here, more);
  }

  lemma {:induction false} RecordDecodesCanonically(fields: seq<Field>, s: bytes)
    requires Named(Type.Record(fields)) && DecRecord(fields, s).Got?
    ensures var vs := DecRecord(fields, s).value;
            && WellTyped(Type.Record(fields), Val.Record(vs))
            && CanonRecord(fields, vs) == vs
            && Fits(EncRecord(fields, vs), DecRecord(fields, s).used)
    decreases fields, 1
  {
    if fields != [] {
      var here := Dec(fields[0].ty, s);
      DecodesCanonically(fields[0].ty, s);
      RecordDecodesCanonically(fields[1..], s[here.used..]);
      assert DecRecord(fields, s).value[1..] == DecRecord(fields[1..], s[here.used..]).value;
    }
  }

  lemma {:induction false} TupleDecodesCanonically(types: seq<Type>, s: bytes)
    requires Named(Type.Tuple(types)) && DecTuple(types, s).Got?
    ensures var vs := DecTuple(types, s).value;
            && WellTyped(Type.Tuple(types), Val.Tuple(vs))
            && CanonTuple(types, vs) == vs
            && Fits(EncTuple(types, vs), DecTuple(types, s).used)
    decreases types, 1
  {
    if types != [] {
      var here := Dec(types[0], s);
      DecodesCanonically(types[0], s);
      TupleDecodesCanonically(types[1..], s[here.used..]);
      assert DecTuple(types, s).value[1..] == DecTuple(types[1..], s[here.used..]).value;
    }
  }

  /** The first occurrence of a name is no later than any other. */
  lemma {:induction false} FirstNoLater(names: seq<string>, i: nat)
    requires i < |names|
    ensures FindName(names, names[i]).Some? && FindName(names, names[i]).value <= i
  {
    if i > 0 && names[0] != names[i] { FirstNoLater(names[1..], i - 1); }
  }

  lemma LeafDecodesCanonically(ty: Type, s: bytes)
    requires Leaf(ty) && NamedLeaf(ty) && DecLeaf(ty, s).Got?
    ensures var v := DecLeaf(ty, s).value;
            WellTypedLeaf(ty, v) && CanonLeaf(ty, v) == v && Fits(EncLeaf(ty, v), DecLeaf(ty, s).used)
  {
    if ty.Enum? {
      EnumDecodesCanonically(ty.names, s);
    } else if ty.Flags? {
      FlagsDecodeCanonically(ty.flags, s);
    } else {
      ScalarDecodesCanonically(ty, s);
    }
  }

  lemma ScalarDecodesCanonically(ty: Type, s: bytes)
    requires Leaf(ty) && !ty.Enum? && !ty.Flags? && DecLeaf(ty, s).Got?
    ensures var v := DecLeaf(ty, s).value;
            WellTypedLeaf(ty, v) && CanonLeaf(ty, v) == v && Fits(EncLeaf(ty, v), DecLeaf(ty, s).used)
  {
    if ty.S16? || ty.S32? || ty.S64? {
      ReadSNormalises(if ty.S16? then 16 else if ty.S32? then 32 else 64, s);
    } else if ty.U16? || ty.U32? || ty.U64? {
      ReadUNormalises(if ty.U16? then 16 else if ty.U32? then 32 else 64, s);
    } else if ty.Char? {
      CharCanonical(s);
    } else if ty.Str? {
      NameNormalises(s);
    }
  }

  lemma EnumDecodesCanonically(names: seq<string>, s: bytes)
    requires NamedLeaf(Type.Enum(names)) && DecLeaf(Type.Enum(names), s).Got?
    ensures var v := DecLeaf(Type.Enum(names), s).value;
            && WellTypedLeaf(Type.Enum(names), v) && CanonLeaf(Type.Enum(names), v) == v
            && Fits(EncLeaf(Type.Enum(names), v), DecLeaf(Type.Enum(names), s).used)
  {
    var i := ReadU(32, s).value;
    ReadUNormalises(32, s);
    FirstNoLater(names, i);
    WriteUMonotone(FindName(names, names[i]).value, i);
  }

  lemma FlagsDecodeCanonically(names: seq<string>, s: bytes)
    requires NamedLeaf(Type.Flags(names)) && DecLeaf(Type.Flags(names), s).Got?
    ensures var v := DecLeaf(Type.Flags(names), s).value;
            && WellTypedLeaf(Type.Flags(names), v) && CanonLeaf(Type.Flags(names), v) == v
            && Fits(EncLeaf(Type.Flags(names), v), DecLeaf(Type.Flags(names), s).used)
  {
    SelectStable(names, s[..Capacity(|names|)], 0);
    assert names[0..] == names;
  }

  lemma {:induction false} WriteUMonotone(a: nat, b: nat)
    requires a <= b
    ensures |WriteU(a)| <= |WriteU(b)|
    decreases b
  {
    if b >= 128 && a >= 128 { WriteUMonotone(a / 128, b / 128); }
  }

  /** Reading a value and writing it again normalises: the new bytes are no longer, and read back as the same value. */
  lemma Normalises(ty: Type, s: bytes, rest: bytes)
    requires Named(ty) && Dec(ty, s).Got?
    ensures var v := Dec(ty, s).value;
            && WellTyped(ty, v)
            && Enc(ty, v).err.None?
            && |Enc(ty, v).out| <= Dec(ty, s).used
            && Dec(ty, Enc(ty, v).out + rest) == Got(v, |Enc(ty, v).out|)
  {
    DecodesCanonically(ty, s);
    ReadsBack(ty, Dec(ty, s).value, rest);
  }

  /** The two streams agree on their first `n` bytes. */
  ghost predicate Agree(s: bytes, t: bytes, n: nat) {
    n <= |s| && n <= |t| && s[..n] == t[..n]
  }

  /** Agreement on `n` bytes leaves agreement on what follows the first `k` of them. */
  lemma AgreeAfter(s: bytes, t: bytes, k: nat, n: nat)
    requires k <= n && Agree(s, t, n)
    ensures Agree(s, t, k) && Agree(s[k..], t[k..], n - k)
  {
    assert s[..k] == s[..n][..k] && t[..k] == t[..n][..k];
    assert s[k..][..n - k] == s[..n][k..] && t[k..][..n - k] == t[..n][k..];
  }

  /** Putting what follows in `t` behind the first bytes of `s` gives `t`. */
  lemma AgreeSplits(s: bytes, t: bytes, k: nat)
    requires Agree(s, t, k)
    ensures s[..k] + t[k..] == t
  {
    assert t[..k] + t[k..] == t;
  }

  lemma UnsignedAgrees(width: nat, s: bytes, t: bytes)
    requires ReadU(width, s).Got? && Agree(s, t, ReadU(width, s).used)
    ensures ReadU(width, t) == ReadU(width, s)
  {
    var k := ReadU(width, s).used;
    ReadULocal(width, s, t[k..]);
    AgreeSplits(s, t, k);
  }

  lemma SignedAgrees(width: nat, s: bytes, t: bytes)
    requires width >= 1 && ReadS(width, s).Got? && Agree(s, t, ReadS(width, s).used)
    ensures ReadS(width, t) == ReadS(width, s)
  {
    var k := ReadS(width, s).used;
    ReadSLocal(width, s, t[k..]);
    AgreeSplits(s, t, k);
  }

  lemma CharAgrees(s: bytes, t: bytes)
    requires ReadChar(s).Got? && Agree(s, t, ReadChar(s).used)
    ensures ReadChar(t) == ReadChar(s)
  {
    var k := ReadChar(s).used;
    CharLocal(s, t[k..]);
    AgreeSplits(s, t, k);
  }

  lemma NameAgrees(s: bytes, t: bytes)
    requires ReadName(s).Got? && Agree(s, t, ReadName(s).used)
    ensures ReadName(t) == ReadName(s)
  {
    var k := ReadName(s).used;
    NameLocal(s, t[k..]);
    AgreeSplits(s, t, k);
  }

  /** Reading is local: the outcome depends only on the bytes that were consumed. */
  lemma {:induction false} ReadsLocally(ty: Type, s: bytes, t: bytes)
    requires Dec(ty, s).Got? && Agree(s, t, Dec(ty, s).used)
    ensures Dec(ty, t) == Dec(ty, s)
    decreases ty, 0
  {
    var n := Dec(ty, s).used;
    if Leaf(ty) {
      LeafReadsLocally(ty, s, t);
    } else if ty.List? {
      var count := ReadU(32, s);
      AgreeAfter(s, t, count.used, n);
      UnsignedAgrees(32, s, t);
      ListReadsLocally(ty.elem, count.value, s[count.used..], t[count.used..]);
    } else if ty.Record? {
      RecordReadsLocally(ty.fields, s, t);
    } else if ty.Tuple? {
      TupleReadsLocally(ty.types, s, t);
    } else if ty.Variant? {
      VariantReadsLocally(ty.cases, s, t);
    } else {
      AgreeAfter(s, t, 1, n);
      assert s[..1][0] == t[..1][0];
      if ty.Opt? {
        if ReadStatus(s).value { ReadsLocally(ty.some, s[1..], t[1..]); }
      } else {
        ArmReadsLocally(if ReadStatus(s).value then ty.err else ty.ok, s[1..], t[1..]);
      }
    }
  }

  lemma {:induction false} ArmReadsLocally(ty: Option<Type>, s: bytes, t: bytes)
    requires DecArm(ty, s).Got? && Agree(s, t, DecArm(ty, s).used)
    ensures DecArm(ty, t) == DecArm(ty, s)
    decreases ty, 1
  {
    if ty.Some? { ReadsLocally(ty.value, s, t); }
  }

  lemma {:induction false} VariantReadsLocally(cases: seq<Case>, s: bytes, t: bytes)
    requires DecVariant(cases, s).Got? && Agree(s, t, DecVariant(cases, s).used)
    ensures DecVariant(cases, t) == DecVariant(cases, s)
    decreases cases, 1
  {
    var index := ReadU(32, s);
    AgreeAfter(s, t, index.used, DecVariant(cases, s).used);
    UnsignedAgrees(32, s, t);
    if cases[index.value].ty.Some? {
      ReadsLocally(cases[index.value].ty.value, s[index.used..], t[index.used..]);
    }
  }

  lemma {:induction false} ListReadsLocally(elem: Type, n: nat, s: bytes, t: bytes)
    requires DecList(elem, n, s).Got? && Agree(s, t, DecList(elem, n, s).used)
    ensures DecList(elem, n, t) == DecList(elem, n, s)
    decreases elem, 1, n
  {
    if n > 0 {
      var here := Dec(elem, s);
      DecListUnfolds(elem, n, s);
      AgreeAfter(s, t, here.used, DecList(elem, n, s).used);
      ReadsLocally(elem, s, t);
      ListReadsLocally(elem, n - 1, s[here.used..], t[here.used..]);
      SameList(elem, n, s, t);
    }
  }

  /** With the same first element and the same rest the list is the same. */
  lemma SameList(elem: Type, n: nat, s: bytes, t: bytes)
    requires n > 0 && Dec(elem, s).Got? && Dec(elem, t) == Dec(elem, s)
    requires var k := Dec(elem, s).used; DecList(elem, n - 1, t[k..]) == DecList(elem, n - 1, s[k..])
    ensures DecList(elem, n, t) == DecList(elem, n, s)
  {
    DecListUnfolds(elem, n, s);
    DecListUnfolds(elem, n, t);
  }

  lemma {:induction false} RecordReadsLocally(fields: seq<Field>, s: bytes, t: bytes)
    requires DecRecord(fields, s).Got? && Agree(s, t, DecRecord(fields, s).used)
    ensures DecRecord(fields, t) == DecRecord(fields, s)
    decreases fields, 1
  {
    if fields != [] {
      var here := Dec(fields[0].ty, s).used;
      AgreeAfter(s, t, here, DecRecord(fields, s).used);
      ReadsLocally(fields[0].ty, s, t);
      RecordReadsLocally(fields[1..], s[here..], t[here..]);
    }
  }

  lemma {:induction false} TupleReadsLocally(types: seq<Type>, s: bytes, t: bytes)
    requires DecTuple(types, s).Got? && Agree(s, t, DecTuple(types, s).used)
    ensures DecTuple(types, t) == DecTuple(types, s)
    decreases types, 1
  {
    if types != [] {
      var here := Dec(types[0], s).used;
      AgreeAfter(s, t, here, DecTuple(types, s).used);
      ReadsLocally(types[0], s, t);
      TupleReadsLocally(types[1..], s[here..], t[here..]);
    }
  }

  lemma LeafReadsLocally(ty: Type, s: bytes, t: bytes)
    requires Leaf(ty) && DecLeaf(ty, s).Got? && Agree(s, t, DecLeaf(ty, s).used)
    ensures DecLeaf(ty, t) == DecLeaf(ty, s)
  {
    if ty.S16? || ty.S32? || ty.S64? {
      SignedAgrees(if ty.S16? then 16 else if ty.S32? then 32 else 64, s, t);
    } else if ty.U16? || ty.U32? || ty.U64? {
      UnsignedAgrees(if ty.U16? then 16 else if ty.U32? then 32 else 64, s, t);
    } else if ty.Char? {
      CharAgrees(s, t);
    } else if ty.Str? {
      NameAgrees(s, t);
    } else if ty.Enum? {
      UnsignedAgrees(32, s, t);
    } else if ty.Bool? || ty.S8? || ty.U8? {
      assert s[..1][0] == t[..1][0];
    }
  }

  /** No encoding is a proper prefix of another one of the same type: a concatenation is split in one way only. */
  lemma SplitsUniquely(ty: Type, v: Val, w: Val, after: bytes, after': bytes)
    requires Named(ty) && WellTyped(ty, v) && WellTyped(ty, w) && Enc(ty, v).err.None? && Enc(ty, w).err.None?
    requires Enc(ty, v).out + after == Enc(ty, w).out + after'
    ensures Canon(ty, v) == Canon(ty, w) && after == after'
  {
    ReadsBack(ty, v, after);
    ReadsBack(ty, w, after');
    var a, b := Enc(ty, v).out, Enc(ty, w).out;
    assert (a + after)[|a|..] == after && (b + after')[|b|..] == after';
  }

  /** Putting flags in declaration order keeps the value well typed, and once is enough. */
  lemma CanonIsCanonical(ty: Type, v: Val)
    requires Named(ty) && WellTyped(ty, v) && Enc(ty, v).err.None?
    ensures WellTyped(ty, Canon(ty, v)) && Canon(ty, Canon(ty, v)) == Canon(ty, v)
  {
    ReadsBack(ty, v, []);
    DecodesCanonically(ty, Enc(ty, v).out + []);
  }

  /**
   A case name that is found fits the integer type chosen for the case count,
   its LEB128 form fits the bytes reserved for it, and the decoder's 32-bit
   reader gets the same index back whatever the class was.
   */
  lemma DiscriminantClassSound(names: seq<string>, d: string, rest: bytes)
    requires EncIndex(names, d).err.None?
    ensures var i := FindName(names, d); var class_ := ClassOf(|names|);
            && i.Some? && class_.Some?
            && i.value < Pow2(class_.value.width)
            && |EncIndex(names, d).out| <= class_.value.reserve
            && ReadU(32, EncIndex(names, d).out + rest) == Got(i.value, |EncIndex(names, d).out|)
            && names[i.value] == d
  {
    var i, n := FindName(names, d).value, |names|;
    RoundTripU(32, i, rest) by { Pow2Values(); }
    var k := ClassOf(n).value.reserve;
    var bits := if n <= 0xff then 8 else if n <= 0xffff then 16 else if n <= 0xff_ffff then 24 else 32;
    assert i < Pow2(bits) by { Pow2Values(); Pow2Plus8(16); }
    Pow2Monotone(bits, 7 * k);
    Pow2Monotone(bits, ClassOf(n).value.width);
    WriteULength(i, k);
  }
}
