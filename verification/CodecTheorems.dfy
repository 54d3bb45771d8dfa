/** The encoder and the decoder, written independently, agree. */
module CodecTheorems {
  import opened Wrappers
  import opened Bits
  import opened Leb128
  import opened Utf8
  import opened Values
  import opened Flags
  import opened Encoder
  import opened Decoder

  /** The exact domain of the encoder. */
  ghost predicate Accepts(ty: Type, v: Val)
    decreases ty
  {
    if Leaf(ty) then AcceptsLeaf(ty, v)
    else match ty
      case List(elem) =>
        && v.List?
        && |v.elems| < TWO_32
        && forall i | 0 <= i < |v.elems| :: Accepts(elem, v.elems[i])
      case Record(fields) =>
        v.Record? && forall i | 0 <= i < |v.members| && i < |fields| :: Accepts(fields[i].ty, v.members[i].val)
      case Tuple(types) =>
        v.Tuple? && forall i | 0 <= i < |v.items| && i < |types| :: Accepts(types[i], v.items[i])
      case Variant(cases) =>
        && v.Variant?
        && |cases| < TWO_32
        && var found := FindName(CaseNames(cases), v.discriminant);
        && found.Some?
        && (v.payload.Some? ==> cases[found.value].ty.Some? && Accepts(cases[found.value].ty.value, v.payload.value))
      case Opt(some) => v.Opt? && (v.opt.Some? ==> Accepts(some, v.opt.value))
      case Res(ok, err) =>
        || (v.ResOk? && ok.Some? == v.ok.Some? && (ok.Some? ==> Accepts(ok.value, v.ok.value)))
        || (v.ResErr? && err.Some? == v.err.Some? && (err.Some? ==> Accepts(err.value, v.err.value)))
  }

  /** A leaf value the encoder takes: any flags list, otherwise a well-typed value of a supported type. */
  predicate AcceptsLeaf(ty: Type, v: Val)
    requires Leaf(ty)
  {
    if ty.Flags? then v.Flags? else SupportedLeaf(ty) && (ty.Enum? ==> |ty.names| < TWO_32) && WellTypedLeaf(ty, v)
  }

  /** `encode` succeeds exactly on the values `Accepts` admits. */
  lemma {:induction false} EncodesExactly(ty: Type, v: Val)
    ensures Enc(ty, v).err.None? <==> Accepts(ty, v)
    decreases ty, 0
  {
    if Leaf(ty) {
      LeafEncodesExactly(ty, v);
    } else if ty.List? {
      if v.List? { ListEncodesExactly(ty.elem, v.elems); }
    } else if ty.Record? {
      if v.Record? { RecordEncodesExactly(ty.fields, v.members); }
    } else if ty.Tuple? {
      if v.Tuple? { TupleEncodesExactly(ty.types, v.items); }
    } else if ty.Variant? {
      if v.Variant? && v.payload.Some? {
        var found := FindName(CaseNames(ty.cases), v.discriminant);
        if found.Some? && ty.cases[found.value].ty.Some? {
          EncodesExactly(ty.cases[found.value].ty.value, v.payload.value);
        }
      }
    } else if ty.Opt? {
      if v.Opt? && v.opt.Some? { EncodesExactly(ty.some, v.opt.value); }
    } else {
      if v.ResOk? && v.ok.Some? && ty.ok.Some? { EncodesExactly(ty.ok.value, v.ok.value); }
      if v.ResErr? && v.err.Some? && ty.err.Some? { EncodesExactly(ty.err.value, v.err.value); }
    }
  }

  lemma LeafEncodesExactly(ty: Type, v: Val)
    requires Leaf(ty)
    ensures EncLeaf(ty, v).err.None? <==> AcceptsLeaf(ty, v)
  {
  }

  lemma {:induction false} ListEncodesExactly(elem: Type, vs: seq<Val>)
    ensures EncList(elem, vs).err.None? <==> forall i | 0 <= i < |vs| :: Accepts(elem, vs[i])
    decreases elem, 1, |vs|
  {
    if vs != [] {
      EncodesExactly(elem, vs[0]);
      ListEncodesExactly(elem, vs[1..]);
      ListAcceptsSplits(elem, vs);
    }
  }

  lemma ListAcceptsSplits(elem: Type, vs: seq<Val>)
    requires vs != []
    ensures (forall i | 0 <= i < |vs| :: Accepts(elem, vs[i]))
       <==> Accepts(elem, vs[0]) && forall i | 0 <= i < |vs[1..]| :: Accepts(elem, vs[1..][i])
  {
    assert forall i | 0 <= i < |vs[1..]| :: vs[1..][i] == vs[i + 1];
    assert forall i | 0 < i < |vs| :: vs[i] == vs[1..][i - 1];
  }

  lemma {:induction false} RecordEncodesExactly(fields: seq<Field>, vs: seq<Member>)
    ensures EncRecord(fields, vs).err.None?
       <==> forall i | 0 <= i < |vs| && i < |fields| :: Accepts(fields[i].ty, vs[i].val)
    decreases fields, 1
  {
    if fields != [] && vs != [] {
      EncodesExactly(fields[0].ty, vs[0].val);
      RecordEncodesExactly(fields[1..], vs[1..]);
      RecordAcceptsSplits(fields, vs);
    }
  }

  lemma RecordAcceptsSplits(fields: seq<Field>, vs: seq<Member>)
    requires fields != [] && vs != []
    ensures (forall i | 0 <= i < |vs| && i < |fields| :: Accepts(fields[i].ty, vs[i].val))
       <==> Accepts(fields[0].ty, vs[0].val)
            && forall i | 0 <= i < |vs[1..]| && i < |fields[1..]| :: Accepts(fields[1..][i].ty, vs[1..][i].val)
  {
    var fs, ms := fields[1..], vs[1..];
    assert forall i | 0 <= i < |ms| && i < |fs| :: ms[i] == vs[i + 1] && fs[i] == fields[i + 1];
    assert forall i | 0 < i < |vs| && i < |fields| :: vs[i] == ms[i - 1] && fields[i] == fs[i - 1];
  }

  lemma {:induction false} TupleEncodesExactly(types: seq<Type>, vs: seq<Val>)
    ensures EncTuple(types, vs).err.None?
       <==> forall i | 0 <= i < |vs| && i < |types| :: Accepts(types[i], vs[i])
    decreases types, 1
  {
    if types != [] && vs != [] {
      EncodesExactly(types[0], vs[0]);
      TupleEncodesExactly(types[1..], vs[1..]);
      TupleAcceptsSplits(types, vs);
    }
  }

  lemma TupleAcceptsSplits(types: seq<Type>, vs: seq<Val>)
    requires types != [] && vs != []
    ensures (forall i | 0 <= i < |vs| && i < |types| :: Accepts(types[i], vs[i]))
       <==> Accepts(types[0], vs[0])
            && forall i | 0 <= i < |vs[1..]| && i < |types[1..]| :: Accepts(types[1..][i], vs[1..][i])
  {
    var ts, ws := types[1..], vs[1..];
    assert forall i | 0 <= i < |ws| && i < |ts| :: ws[i] == vs[i + 1] && ts[i] == types[i + 1];
    assert forall i | 0 < i < |vs| && i < |types| :: vs[i] == ws[i - 1] && types[i] == ts[i - 1];
  }

  /** Every well-typed value of a supported type is accepted. */
  lemma {:induction false} WellTypedAccepted(ty: Type, v: Val)
    requires WellTyped(ty, v) && Named(ty) && Supported(ty)
    ensures Accepts(ty, v)
    decreases ty
  {
    if ty.List? {
      forall i | 0 <= i < |v.elems| ensures Accepts(ty.elem, v.elems[i]) { WellTypedAccepted(ty.elem, v.elems[i]); }
    } else if ty.Record? {
      forall i | 0 <= i < |ty.fields| ensures Accepts(ty.fields[i].ty, v.members[i].val) {
        WellTypedAccepted(ty.fields[i].ty, v.members[i].val);
      }
    } else if ty.Tuple? {
      forall i | 0 <= i < |ty.types| ensures Accepts(ty.types[i], v.items[i]) { WellTypedAccepted(ty.types[i], v.items[i]); }
    } else if ty.Variant? {
      var i := FindName(CaseNames(ty.cases), v.discriminant).value;
      if v.payload.Some? { WellTypedAccepted(ty.cases[i].ty.value, v.payload.value); }
    } else if ty.Opt? {
      if v.opt.Some? { WellTypedAccepted(ty.some, v.opt.value); }
    } else if ty.Res? {
      if v.ResOk? && v.ok.Some? { WellTypedAccepted(ty.ok.value, v.ok.value); }
      if v.ResErr? && v.err.Some? { WellTypedAccepted(ty.err.value, v.err.value); }
    }
  }

  /** The same value with every flags list put in declaration order, and without members or items in excess. */
  function Canon(ty: Type, v: Val): Val
    decreases ty, 0
  {
    if Leaf(ty) then CanonLeaf(ty, v)
    else match ty
      case List(elem) => if v.List? then Val.List(CanonList(elem, v.elems)) else v
      case Record(fields) => if v.Record? then Val.Record(CanonRecord(fields, v.members)) else v
      case Tuple(types) => if v.Tuple? then Val.Tuple(CanonTuple(types, v.items)) else v
      case Variant(cases) =>
        if !v.Variant? || v.payload.None? then v
        else
          var found := FindName(CaseNames(cases), v.discriminant);
          if found.None? || cases[found.value].ty.None? then v
          else Val.Variant(v.discriminant, Some(Canon(cases[found.value].ty.value, v.payload.value)))
      case Opt(some) => if v.Opt? && v.opt.Some? then Val.Opt(Some(Canon(some, v.opt.value))) else v
      case Res(ok, err) =>
        if v.ResOk? && v.ok.Some? && ok.Some? then Val.ResOk(Some(Canon(ok.value, v.ok.value)))
        else if v.ResErr? && v.err.Some? && err.Some? then Val.ResErr(Some(Canon(err.value, v.err.value)))
        else v
  }

  function CanonLeaf(ty: Type, v: Val): Val
    requires Leaf(ty)
  {
    if ty.Flags? && v.Flags? then Val.Flags(InOrder(ty.flags, AsSet(v.listed))) else v
  }

  function CanonList(elem: Type, vs: seq<Val>): (r: seq<Val>)
    ensures |r| == |vs|
    decreases elem, 1, |vs|
  {
    if vs == [] then [] else [Canon(elem, vs[0])] + CanonList(elem, vs[1..])
  }

  function CanonRecord(fields: seq<Field>, vs: seq<Member>): seq<Member>
    decreases fields, 1
  {
    if fields == [] || vs == [] then []
    else [Member(vs[0].name, Canon(fields[0].ty, vs[0].val))] + CanonRecord(fields[1..], vs[1..])
  }

  function CanonTuple(types: seq<Type>, vs: seq<Val>): seq<Val>
    decreases types, 1
  {
    if types == [] || vs == [] then [] else [Canon(types[0], vs[0])] + CanonTuple(types[1..], vs[1..])
  }

  /**
   Round trip with remainder: the decoder takes exactly the encoding off the
   front of the stream, whatever follows, and returns the value.
   */
  lemma RoundTrip(ty: Type, v: Val, rest: bytes)
    requires WellTyped(ty, v) && Named(ty) && Supported(ty)
    ensures Enc(ty, v).err.None?
    ensures Dec(ty, Enc(ty, v).out + rest) == Got(Canon(ty, v), |Enc(ty, v).out|)
  {
    WellTypedAccepted(ty, v);
    EncodesExactly(ty, v);
    ReadsBack(ty, v, rest);
  }

  /** The same wherever encoding succeeds, as for an empty list of an unsupported element type. */
  lemma {:induction false} ReadsBack(ty: Type, v: Val, rest: bytes)
    requires WellTyped(ty, v) && Named(ty) && Enc(ty, v).err.None?
    ensures Dec(ty, Enc(ty, v).out + rest) == Got(Canon(ty, v), |Enc(ty, v).out|)
    decreases ty, 0
  {
    if Leaf(ty) {
      LeafRoundTrip(ty, v, rest);
    } else if ty.List? {
      CountReadsBack(|v.elems|, EncList(ty.elem, v.elems).out, rest);
      ListReadsBack(ty.elem, v.elems, rest);
    } else if ty.Record? {
      RecordReadsBack(ty.fields, v.members, rest);
    } else if ty.Tuple? {
      TupleReadsBack(ty.types, v.items, rest);
    } else if ty.Variant? {
      VariantReadsBack(ty.cases, v, rest);
    } else if ty.Opt? {
      if v.opt.Some? {
        ReadsBack(ty.some, v.opt.value, rest);
        Split([1], Enc(ty.some, v.opt.value).out, rest);
      }
    } else if v.ResOk? {
      ArmReadsBack(0, ty.ok, v.ok, rest);
    } else {
      ArmReadsBack(1, ty.err, v.err, rest);
    }
  }

  lemma Split(a: bytes, b: bytes, rest: bytes)
    ensures a + b + rest == a + (b + rest)
    ensures (a + b + rest)[|a|..] == b + rest
  {
  }

  /** An index or a length in front of a body is read back, and what is left is the body. */
  lemma CountReadsBack(n: nat, body: bytes, rest: bytes)
    requires n < TWO_32
    ensures ReadU(32, WriteU(n) + body + rest) == Got(n, |WriteU(n)|)
    ensures (WriteU(n) + body + rest)[|WriteU(n)|..] == body + rest
  {
    Pow2Values();
    RoundTripU(32, n, body + rest);
    Split(WriteU(n), body, rest);
  }

  lemma {:induction false} VariantReadsBack(cases: seq<Case>, v: Val, rest: bytes)
    requires WellTyped(Type.Variant(cases), v) && Named(Type.Variant(cases))
    requires EncVariant(cases, v.discriminant, v.payload).err.None?
    ensures var w := EncVariant(cases, v.discriminant, v.payload).out;
            DecVariant(cases, w + rest) == Got(Canon(Type.Variant(cases), v), |w|)
    decreases cases, 1
  {
    var i := FindName(CaseNames(cases), v.discriminant).value;
    if v.payload.None? {
      CountReadsBack(i, [], rest);
      assert WriteU(i) + [] == WriteU(i);
    } else {
      ReadsBack(cases[i].ty.value, v.payload.value, rest);
      CountReadsBack(i, Enc(cases[i].ty.value, v.payload.value).out, rest);
    }
  }

  lemma {:induction false} ArmReadsBack(status: byte, ty: Option<Type>, v: Option<Val>, rest: bytes)
    requires WellTypedOption(ty, v) && (ty.Some? ==> Named(ty.value)) && EncArm(status, ty, v).err.None?
    ensures var w := EncArm(status, ty, v).out;
            && |w| >= 1 && (w + rest)[0] == status
            && DecArm(ty, (w + rest)[1..]) == Got(if ty.Some? then Some(Canon(ty.value, v.value)) else None, |w| - 1)
    decreases ty, 1
  {
    if ty.Some? {
      ReadsBack(ty.value, v.value, rest);
      Split([status], Enc(ty.value, v.value).out, rest);
    }
  }

  /** Two encodings in a row are read back one after the other. */
  lemma DecListStep(elem: Type, head: Val, tail: seq<Val>, total: Written, first: Written, next: Written, rest: bytes)
    requires total == first.Then(next) && total.err.None?
    requires Dec(elem, first.out + (next.out + rest)) == Got(head, |first.out|)
    requires DecList(elem, |tail|, next.out + rest) == Got(tail, |next.out|)
    ensures DecList(elem, |tail| + 1, total.out + rest) == Got([head] + tail, |total.out|)
  {
    Split(first.out, next.out, rest);
  }

  lemma {:induction false} ListReadsBack(elem: Type, vs: seq<Val>, rest: bytes)
    requires WellTyped(Type.List(elem), Val.List(vs)) && Named(elem) && EncList(elem, vs).err.None?
    ensures var w := EncList(elem, vs).out; DecList(elem, |vs|, w + rest) == Got(CanonList(elem, vs), |w|)
    decreases elem, 1, |vs|
  {
    if vs != [] {
      var first, next := Enc(elem, vs[0]), EncList(elem, vs[1..]);
      ListReadsBack(elem, vs[1..], rest);
      ReadsBack(elem, vs[0], next.out + rest);
      DecListStep(elem, Canon(elem, vs[0]), CanonList(elem, vs[1..]), EncList(elem, vs), first, next, rest);
    }
  }

  lemma {:induction false} RecordReadsBack(fields: seq<Field>, vs: seq<Member>, rest: bytes)
    requires WellTyped(Type.Record(fields), Val.Record(vs)) && Named(Type.Record(fields))
    requires EncRecord(fields, vs).err.None?
    ensures var w := EncRecord(fields, vs).out; DecRecord(fields, w + rest) == Got(CanonRecord(fields, vs), |w|)
    decreases fields, 1
  {
    if fields != [] {
      var b := EncRecord(fields[1..], vs[1..]).out;
      ReadsBack(fields[0].ty, vs[0].val, b + rest);
      RecordReadsBack(fields[1..], vs[1..], rest);
      Split(Enc(fields[0].ty, vs[0].val).out, b, rest);
    }
  }

  lemma {:induction false} TupleReadsBack(types: seq<Type>, vs: seq<Val>, rest: bytes)
    requires WellTyped(Type.Tuple(types), Val.Tuple(vs)) && Named(Type.Tuple(types))
    requires EncTuple(types, vs).err.None?
    ensures var w := EncTuple(types, vs).out; DecTuple(types, w + rest) == Got(CanonTuple(types, vs), |w|)
    decreases types, 1
  {
    if types != [] {
      var b := EncTuple(types[1..], vs[1..]).out;
      ReadsBack(types[0], vs[0], b + rest);
      TupleReadsBack(types[1..], vs[1..], rest);
      Split(Enc(types[0], vs[0]).out, b, rest);
    }
  }

  lemma LeafRoundTrip(ty: Type, v: Val, rest: bytes)
    requires Leaf(ty) && WellTypedLeaf(ty, v) && NamedLeaf(ty) && EncLeaf(ty, v).err.None?
    ensures DecLeaf(ty, EncLeaf(ty, v).out + rest) == Got(CanonLeaf(ty, v), |EncLeaf(ty, v).out|)
  {
    if ty.Enum? {
      EnumRoundTrip(ty.names, v.name, rest);
    } else if ty.Flags? {
      FlagsRoundTrip(ty.flags, v.listed, rest);
    } else if ty.Char? {
      CharRoundTrip(v.scalar, rest);
    } else if ty.Str? {
      NameRoundTrip(v.text, rest);
    } else if ty.Float32? || ty.Float64? {
      FloatRoundTrip(ty, v, rest);
    } else if ty.S16? || ty.S32? || ty.S64? {
      SignedRoundTrip(ty, v, rest);
    } else if ty.U16? || ty.U32? || ty.U64? {
      UnsignedRoundTrip(ty, v, rest);
    }
  }

  lemma EnumRoundTrip(names: seq<string>, name: string, rest: bytes)
    requires name in names && |names| < TWO_32
    ensures var w := EncLeaf(Type.Enum(names), Val.Enum(name)).out;
            DecLeaf(Type.Enum(names), w + rest) == Got(Val.Enum(name), |w|)
  {
    Pow2Values();
    RoundTripU(32, FindName(names, name).value, rest);
  }

  lemma FlagsRoundTrip(names: seq<string>, listed: seq<string>, rest: bytes)
    ensures var w := EncLeaf(Type.Flags(names), Val.Flags(listed)).out;
            DecLeaf(Type.Flags(names), w + rest) == Got(Val.Flags(InOrder(names, AsSet(listed))), |w|)
  {
    var packed := Pack(Presence(names, AsSet(listed)));
    assert (packed + rest)[..|packed|] == packed;
    SelectPacked(names, AsSet(listed), 0);
    assert names[0..] == names;
  }

  lemma SignedRoundTrip(ty: Type, v: Val, rest: bytes)
    requires (ty.S16? && v.S16?) || (ty.S32? && v.S32?) || (ty.S64? && v.S64?)
    ensures DecLeaf(ty, EncLeaf(ty, v).out + rest) == Got(v, |EncLeaf(ty, v).out|)
  {
    Pow2Values();
    match v
    case S16(n) => RoundTripS(16, n, rest);
    case S32(n) => RoundTripS(32, n, rest);
    case S64(n) => RoundTripS(64, n, rest);
  }

  lemma UnsignedRoundTrip(ty: Type, v: Val, rest: bytes)
    requires (ty.U16? && v.U16?) || (ty.U32? && v.U32?) || (ty.U64? && v.U64?)
    ensures DecLeaf(ty, EncLeaf(ty, v).out + rest) == Got(v, |EncLeaf(ty, v).out|)
  {
    Pow2Values();
    match v
    case U16(n) => RoundTripU(16, n, rest);
    case U32(n) => RoundTripU(32, n, rest);
    case U64(n) => RoundTripU(64, n, rest);
  }

  lemma FloatRoundTrip(ty: Type, v: Val, rest: bytes)
    requires (ty.Float32? && v.Float32?) || (ty.Float64? && v.Float64?)
    ensures DecLeaf(ty, EncLeaf(ty, v).out + rest) == Got(v, |EncLeaf(ty, v).out|)
  {
    var f, n := if ty.Float32? then v.f32 else v.f64, if ty.Float32? then 4 else 8;
    Pow2Values();
    LeBytesRoundTrip(f, n);
    assert (LeBytes(f, n) + rest)[..n] == LeBytes(f, n);
  }
}
