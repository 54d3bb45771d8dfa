/** Which of the values the encoder takes the decoder gives back. */
module ReadBack {
  import opened Wrappers
  import opened Bits
  import opened Leb128
  import opened Values
  import opened Flags
  import opened Encoder
  import opened Decoder
  import opened CodecTheorems
  import opened DecoderTheorems

  /**
   Nothing that the type calls for is missing from the value: records and tuples
   are at least as long as declared, members carry the declared names, and a
   case with a payload type has a payload.
   */
  ghost predicate Complete(ty: Type, v: Val)
    decreases ty
  {
    if ty.List? then v.List? ==> forall i | 0 <= i < |v.elems| :: Complete(ty.elem, v.elems[i])
    else if ty.Record? then
      v.Record? ==>
        && |ty.fields| <= |v.members|
        && forall i | 0 <= i < |ty.fields| ::
             v.members[i].name == ty.fields[i].name && Complete(ty.fields[i].ty, v.members[i].val)
    else if ty.Tuple? then
      v.Tuple? ==> |ty.types| <= |v.items| && forall i | 0 <= i < |ty.types| :: Complete(ty.types[i], v.items[i])
    else if ty.Variant? then
      v.Variant? ==>
        var found := FindName(CaseNames(ty.cases), v.discriminant);
        found.Some? && ty.cases[found.value].ty.Some? ==>
          v.payload.Some? && Complete(ty.cases[found.value].ty.value, v.payload.value)
    else if ty.Opt? then v.Opt? && v.opt.Some? ==> Complete(ty.some, v.opt.value)
    else if ty.Res? then
      && (v.ResOk? && v.ok.Some? && ty.ok.Some? ==> Complete(ty.ok.value, v.ok.value))
      && (v.ResErr? && v.err.Some? && ty.err.Some? ==> Complete(ty.err.value, v.err.value))
    else true
  }

  /**
   A value the encoder takes is read back, whatever follows it, if and only if
   nothing is missing from it. What is read back is its canonical form: the
   declared flags in declaration order, and no members or items in excess.
   */
  lemma ReadBackExactly(ty: Type, v: Val, rest: bytes)
    requires Named(ty) && Enc(ty, v).err.None?
    ensures Dec(ty, Enc(ty, v).out + rest) == Got(Canon(ty, v), |Enc(ty, v).out|) <==> Complete(ty, v)
  {
    EncodesExactly(ty, v);
    CompleteIsWellTyped(ty, v);
    EncCanon(ty, v);
    ReadsCanonExactly(ty, Canon(ty, v), Enc(ty, v).out, rest);
    CanonTwice(ty, v);
  }

  /** It is the value itself if and only if that is well typed and already in canonical form. */
  lemma ReadBackItself(ty: Type, v: Val, rest: bytes)
    requires Named(ty) && Enc(ty, v).err.None?
    ensures Dec(ty, Enc(ty, v).out + rest) == Got(v, |Enc(ty, v).out|) <==> WellTyped(ty, v) && Canon(ty, v) == v
  {
    ReadsCanonExactly(ty, v, Enc(ty, v).out, rest);
  }

  /** A value whose encoding is `out` is what is read from it exactly when it is well typed and canonical. */
  lemma ReadsCanonExactly(ty: Type, w: Val, out: bytes, rest: bytes)
    requires Named(ty) && Enc(ty, w) == Done(out)
    ensures Dec(ty, out + rest) == Got(w, |out|) <==> WellTyped(ty, w) && Canon(ty, w) == w
  {
    if Dec(ty, out + rest).Got? { DecodesCanonically(ty, out + rest); }
    if WellTyped(ty, w) { ReadsBack(ty, w, rest); }
  }

  /** An accepted value is complete exactly when its canonical form is well typed. */
  lemma {:induction false} CompleteIsWellTyped(ty: Type, v: Val)
    requires Named(ty) && Accepts(ty, v)
    ensures Complete(ty, v) <==> WellTyped(ty, Canon(ty, v))
    decreases ty, 0
  {
    if ty.List? {
      CanonListAt(ty.elem, v.elems);
      forall i | 0 <= i < |v.elems|
        ensures Complete(ty.elem, v.elems[i]) <==> WellTyped(ty.elem, Canon(ty.elem, v.elems[i]))
      {
        CompleteIsWellTyped(ty.elem, v.elems[i]);
      }
    } else if ty.Record? {
      RecordCompleteIsWellTyped(ty.fields, v.members);
    } else if ty.Tuple? {
      TupleCompleteIsWellTyped(ty.types, v.items);
    } else if ty.Variant? {
      var i := FindName(CaseNames(ty.cases), v.discriminant).value;
      if v.payload.Some? { CompleteIsWellTyped(ty.cases[i].ty.value, v.payload.value); }
    } else if ty.Opt? {
      if v.opt.Some? { CompleteIsWellTyped(ty.some, v.opt.value); }
    } else if ty.Res? {
      if v.ResOk? && ty.ok.Some? { CompleteIsWellTyped(ty.ok.value, v.ok.value); }
      if v.ResErr? && ty.err.Some? { CompleteIsWellTyped(ty.err.value, v.err.value); }
    }
  }

  lemma {:induction false} CanonListAt(elem: Type, vs: seq<Val>)
    ensures forall i | 0 <= i < |vs| :: CanonList(elem, vs)[i] == Canon(elem, vs[i])
  {
    if vs != [] { CanonListAt(elem, vs[1..]); }
  }

  lemma {:induction false} CanonRecordAt(fields: seq<Field>, vs: seq<Member>)
    ensures |CanonRecord(fields, vs)| == if |fields| <= |vs| then |fields| else |vs|
    ensures forall i | 0 <= i < |CanonRecord(fields, vs)| ::
              CanonRecord(fields, vs)[i] == Member(vs[i].name, Canon(fields[i].ty, vs[i].val))
  {
    if fields != [] && vs != [] { CanonRecordAt(fields[1..], vs[1..]); }
  }

  lemma {:induction false} CanonTupleAt(types: seq<Type>, vs: seq<Val>)
    ensures |CanonTuple(types, vs)| == if |types| <= |vs| then |types| else |vs|
    ensures forall i | 0 <= i < |CanonTuple(types, vs)| :: CanonTuple(types, vs)[i] == Canon(types[i], vs[i])
  {
    if types != [] && vs != [] { CanonTupleAt(types[1..], vs[1..]); }
  }

  lemma {:induction false} RecordCompleteIsWellTyped(fields: seq<Field>, vs: seq<Member>)
    requires Named(Type.Record(fields)) && Accepts(Type.Record(fields), Val.Record(vs))
    ensures Complete(Type.Record(fields), Val.Record(vs))
       <==> WellTyped(Type.Record(fields), Val.Record(CanonRecord(fields, vs)))
    decreases fields, 1
  {
    CanonRecordAt(fields, vs);
    forall i | 0 <= i < |fields| && i < |vs|
      ensures Complete(fields[i].ty, vs[i].val) <==> WellTyped(fields[i].ty, Canon(fields[i].ty, vs[i].val))
    {
      CompleteIsWellTyped(fields[i].ty, vs[i].val);
    }
  }

  lemma {:induction false} TupleCompleteIsWellTyped(types: seq<Type>, vs: seq<Val>)
    requires Named(Type.Tuple(types)) && Accepts(Type.Tuple(types), Val.Tuple(vs))
    ensures Complete(Type.Tuple(types), Val.Tuple(vs))
       <==> WellTyped(Type.Tuple(types), Val.Tuple(CanonTuple(types, vs)))
    decreases types, 1
  {
    CanonTupleAt(types, vs);
    forall i | 0 <= i < |types| && i < |vs|
      ensures Complete(types[i], vs[i]) <==> WellTyped(types[i], Canon(types[i], vs[i]))
    {
      CompleteIsWellTyped(types[i], vs[i]);
    }
  }

  /** A value and its canonical form have the same encoding, or the same failure. */
  lemma {:induction false} EncCanon(ty: Type, v: Val)
    ensures Enc(ty, Canon(ty, v)) == Enc(ty, v)
    decreases ty, 0
  {
    if ty.Flags? {
      if v.Flags? { PresenceInOrder(ty.flags, ty.flags, AsSet(v.listed)); }
    } else if ty.List? {
      if v.List? { EncCanonList(ty.elem, v.elems); }
    } else if ty.Record? {
      if v.Record? { EncCanonRecord(ty.fields, v.members); }
    } else if ty.Tuple? {
      if v.Tuple? { EncCanonTuple(ty.types, v.items); }
    } else if ty.Variant? {
      if v.Variant? && v.payload.Some? {
        var found := FindName(CaseNames(ty.cases), v.discriminant);
        if found.Some? && ty.cases[found.value].ty.Some? {
          EncCanon(ty.cases[found.value].ty.value, v.payload.value);
        }
      }
    } else if ty.Opt? {
      if v.Opt? && v.opt.Some? { EncCanon(ty.some, v.opt.value); }
    } else if ty.Res? {
      if v.ResOk? && v.ok.Some? && ty.ok.Some? { EncCanon(ty.ok.value, v.ok.value); }
      if v.ResErr? && v.err.Some? && ty.err.Some? { EncCanon(ty.err.value, v.err.value); }
    }
  }

  /** Only the declared names matter to the bits. */
  lemma {:induction false} PresenceInOrder(names: seq<string>, all: seq<string>, flags: set<string>)
    requires forall n | n in names :: n in all
    ensures Presence(names, AsSet(InOrder(all, flags))) == Presence(names, flags)
  {
  }

  lemma {:induction false} EncCanonList(elem: Type, vs: seq<Val>)
    ensures EncList(elem, CanonList(elem, vs)) == EncList(elem, vs)
    decreases elem, 1, |vs|
  {
    if vs != [] {
      EncCanon(elem, vs[0]);
      EncCanonList(elem, vs[1..]);
    }
  }

  lemma {:induction false} EncCanonRecord(fields: seq<Field>, vs: seq<Member>)
    ensures EncRecord(fields, CanonRecord(fields, vs)) == EncRecord(fields, vs)
    decreases fields, 1
  {
    if fields != [] && vs != [] {
      EncCanon(fields[0].ty, vs[0].val);
      EncCanonRecord(fields[1..], vs[1..]);
    }
  }

  lemma {:induction false} EncCanonTuple(types: seq<Type>, vs: seq<Val>)
    ensures EncTuple(types, CanonTuple(types, vs)) == EncTuple(types, vs)
    decreases types, 1
  {
    if types != [] && vs != [] {
      EncCanon(types[0], vs[0]);
      EncCanonTuple(types[1..], vs[1..]);
    }
  }

  /** The canonical form is its own canonical form. */
  lemma {:induction false} CanonTwice(ty: Type, v: Val)
    ensures Canon(ty, Canon(ty, v)) == Canon(ty, v)
    decreases ty, 0
  {
    if ty.Flags? {
      if v.Flags? { InOrderTwice(ty.flags, ty.flags, AsSet(v.listed)); }
    } else if ty.List? {
      if v.List? { CanonListTwice(ty.elem, v.elems); }
    } else if ty.Record? {
      if v.Record? { CanonRecordTwice(ty.fields, v.members); }
    } else if ty.Tuple? {
      if v.Tuple? { CanonTupleTwice(ty.types, v.items); }
    } else if ty.Variant? {
      if v.Variant? && v.payload.Some? {
        var found := FindName(CaseNames(ty.cases), v.discriminant);
        if found.Some? && ty.cases[found.value].ty.Some? {
          CanonTwice(ty.cases[found.value].ty.value, v.payload.value);
        }
      }
    } else if ty.Opt? {
      if v.Opt? && v.opt.Some? { CanonTwice(ty.some, v.opt.value); }
    } else if ty.Res? {
      if v.ResOk? && v.ok.Some? && ty.ok.Some? { CanonTwice(ty.ok.value, v.ok.value); }
      if v.ResErr? && v.err.Some? && ty.err.Some? { CanonTwice(ty.err.value, v.err.value); }
    }
  }

  lemma {:induction false} InOrderTwice(names: seq<string>, all: seq<string>, flags: set<string>)
    requires forall n | n in names :: n in all
    ensures InOrder(names, AsSet(InOrder(all, flags))) == InOrder(names, flags)
  {
    if names != [] { InOrderTwice(names[1..], all, flags); }
  }

  lemma {:induction false} CanonListTwice(elem: Type, vs: seq<Val>)
    ensures CanonList(elem, CanonList(elem, vs)) == CanonList(elem, vs)
    decreases elem, 1, |vs|
  {
    if vs != [] {
      CanonTwice(elem, vs[0]);
      CanonListTwice(elem, vs[1..]);
    }
  }

  lemma {:induction false} CanonRecordTwice(fields: seq<Field>, vs: seq<Member>)
    ensures CanonRecord(fields, CanonRecord(fields, vs)) == CanonRecord(fields, vs)
    decreases fields, 1
  {
    if fields != [] && vs != [] {
      CanonTwice(fields[0].ty, vs[0].val);
      CanonRecordTwice(fields[1..], vs[1..]);
    }
  }

  lemma {:induction false} CanonTupleTwice(types: seq<Type>, vs: seq<Val>)
    ensures CanonTuple(types, CanonTuple(types, vs)) == CanonTuple(types, vs)
    decreases types, 1
  {
    if types != [] && vs != [] {
      CanonTwice(types[0], vs[0]);
      CanonTupleTwice(types[1..], vs[1..]);
    }
  }

  /**
   The encoder takes a variant without its payload, and the decoder then takes
   the first byte of whatever comes next as the payload.
   */
  lemma {:induction false} MissingPayloadMisread(after: bytes)
    ensures var ty := Type.Variant([Case("some", Some(Type.U8))]);
            var v := Val.Variant("some", None);
            && Named(ty) && Enc(ty, v) == Done([0]) && !Complete(ty, v)
            && Dec(ty, [0] + after) == if after == [] then Fail(UnexpectedEof)
                                       else Got(Val.Variant("some", Some(Val.U8(after[0]))), 2)
  {
    var cases := [Case("some", Some(Type.U8))];
    assert CaseNames(cases) == ["some"];
    assert Pow2(32) == TWO_32 by { Pow2Values(); }
    var s := [0] + after;
    assert s[1..] == after;
    assert Dec(Type.U8, after) == DecLeaf(Type.U8, after);
  }

  /** The same for a tuple with an item missing, which the encoder pairs with its types as far as it goes. */
  lemma {:induction false} ShortTupleMisread(after: bytes)
    ensures var ty, v := Type.Tuple([Type.U8, Type.U8]), Val.Tuple([Val.U8(7)]);
            && Named(ty) && Enc(ty, v) == Done([7]) && !Complete(ty, v)
            && Dec(ty, [7] + after) == if after == [] then Fail(UnexpectedEof)
                                       else Got(Val.Tuple([Val.U8(7), Val.U8(after[0])]), 2)
  {
    var types, vs := [Type.U8, Type.U8], [Val.U8(7)];
    assert types[1..] == [Type.U8] && vs[1..] == [] && [7] + [] == [7];
    assert Enc(Type.U8, vs[0]) == Done([7]) && EncTuple(types, vs) == Done([7]);
    var s := [7] + after;
    assert s[1..] == after;
    assert Dec(Type.U8, s) == Got(Val.U8(7), 1);
    OneByteTuple(after);
    if after != [] { assert [vs[0]] + [Val.U8(after[0])] == [Val.U8(7), Val.U8(after[0])]; }
  }

  lemma OneByteTuple(s: bytes)
    ensures DecTuple([Type.U8], s) == if s == [] then Fail(UnexpectedEof) else Got([Val.U8(s[0])], 1)
  {
    assert Dec(Type.U8, s) == DecLeaf(Type.U8, s);
    assert [Type.U8][1..] == [];
    if s != [] { assert [Val.U8(s[0])] + [] == [Val.U8(s[0])]; }
  }

  // What is written of a value that is taken or refused half-way

  /** Of a record the encoder writes the members that have a field, as the record with just those. */
  lemma {:induction false} RecordWritten(fields: seq<Field>, vs: seq<Member>, k: nat)
    requires k == if |fields| <= |vs| then |fields| else |vs|
    ensures EncRecord(fields, vs) == EncRecord(fields[..k], vs[..k])
  {
    if k > 0 {
      RecordWritten(fields[1..], vs[1..], k - 1);
      assert fields[..k][1..] == fields[1..][..k - 1] && vs[..k][1..] == vs[1..][..k - 1];
    }
  }

  lemma {:induction false} TupleWritten(types: seq<Type>, vs: seq<Val>, k: nat)
    requires k == if |types| <= |vs| then |types| else |vs|
    ensures EncTuple(types, vs) == EncTuple(types[..k], vs[..k])
  {
    if k > 0 {
      TupleWritten(types[1..], vs[1..], k - 1);
      assert types[..k][1..] == types[1..][..k - 1] && vs[..k][1..] == vs[1..][..k - 1];
    }
  }

  /** Of a case without its payload it writes what it writes of a case that has none. */
  lemma CaseWritten(cases: seq<Case>, i: nat)
    requires i < |cases| && |cases| < TWO_32 && Distinct(CaseNames(cases))
    ensures Enc(Type.Variant(cases), Val.Variant(cases[i].name, None)) == Done(WriteU(i))
    ensures cases[i].ty.None? ==>
              forall v :: Enc(Type.Variant(cases), Val.Variant(cases[i].name, Some(v)))
                          == Written(WriteU(i), Some(PayloadTypeMissing))
  {
    FindDistinct(CaseNames(cases), i);
  }

  /** The first element that fails ends the list with its error, behind everything written before. */
  lemma {:induction false} ListStops(elem: Type, vs: seq<Val>, k: nat)
    requires k < |vs| && EncList(elem, vs[..k]).err.None? && Enc(elem, vs[k]).err.Some?
    ensures EncList(elem, vs) == Written(EncList(elem, vs[..k]).out + Enc(elem, vs[k]).out, Enc(elem, vs[k]).err)
    decreases k
  {
    if k == 0 {
      assert vs[..0] == [] && [] + Enc(elem, vs[0]).out == Enc(elem, vs[0]).out;
    } else {
      var front, here := vs[..k], Enc(elem, vs[0]).out;
      assert front[1..] == vs[1..][..k - 1];
      ListStops(elem, vs[1..], k - 1);
      AppendedOnce(here, EncList(elem, front[1..]).out, Enc(elem, vs[k]).out);
    }
  }

  lemma AppendedOnce(a: bytes, b: bytes, c: bytes)
    ensures a + (b + c) == a + b + c
  {
  }

  lemma {:induction false} RecordStops(fields: seq<Field>, vs: seq<Member>, k: nat)
    requires k < |fields| && k < |vs|
    requires EncRecord(fields[..k], vs[..k]).err.None? && Enc(fields[k].ty, vs[k].val).err.Some?
    ensures EncRecord(fields, vs)
         == Written(EncRecord(fields[..k], vs[..k]).out + Enc(fields[k].ty, vs[k].val).out, Enc(fields[k].ty, vs[k].val).err)
    decreases k
  {
    if k == 0 {
      assert [] + Enc(fields[0].ty, vs[0].val).out == Enc(fields[0].ty, vs[0].val).out;
    } else {
      assert fields[..k][1..] == fields[1..][..k - 1] && vs[..k][1..] == vs[1..][..k - 1];
      RecordStops(fields[1..], vs[1..], k - 1);
      AppendedOnce(Enc(fields[0].ty, vs[0].val).out, EncRecord(fields[..k][1..], vs[..k][1..]).out,
                   Enc(fields[k].ty, vs[k].val).out);
    }
  }

  lemma {:induction false} TupleStops(types: seq<Type>, vs: seq<Val>, k: nat)
    requires k < |types| && k < |vs| && EncTuple(types[..k], vs[..k]).err.None? && Enc(types[k], vs[k]).err.Some?
    ensures EncTuple(types, vs)
         == Written(EncTuple(types[..k], vs[..k]).out + Enc(types[k], vs[k]).out, Enc(types[k], vs[k]).err)
    decreases k
  {
    if k == 0 {
      assert [] + Enc(types[0], vs[0]).out == Enc(types[0], vs[0]).out;
    } else {
      assert types[..k][1..] == types[1..][..k - 1] && vs[..k][1..] == vs[1..][..k - 1];
      TupleStops(types[1..], vs[1..], k - 1);
      AppendedOnce(Enc(types[0], vs[0]).out, EncTuple(types[..k][1..], vs[..k][1..]).out, Enc(types[k], vs[k]).out);
    }
  }

  /** A leaf of an unsupported type is refused as what it is, before anything is written. */
  lemma UnsupportedRefused(ty: Type, v: Val)
    requires Leaf(ty) && !SupportedLeaf(ty)
    ensures Enc(ty, v)
         == Refused(if ty.Map? then UnsupportedMap
                    else if ty.Own? || ty.Borrow? then UnsupportedResource
                    else if ty.Future? then UnsupportedFuture
                    else if ty.Stream? then UnsupportedStream
                    else UnsupportedErrorContext)
  {
  }

  /** Any other leaf that is refused has written nothing either, and the error says what was wrong with the value. */
  lemma LeafRefused(ty: Type, v: Val)
    requires Leaf(ty) && SupportedLeaf(ty) && !AcceptsLeaf(ty, v)
    ensures Enc(ty, v)
         == Refused(if ty.Str? && v.Str? then NameTooLong
                    else if !(ty.Enum? && v.Enum?) then TypeMismatch
                    else if |ty.names| >= TWO_32 then TooManyCases
                    else UnknownName(v.name))
  {
  }

  /** The same for what is refused by its outermost form. */
  lemma {:induction false} ShapeRefused(ty: Type, v: Val)
    ensures ty.List? ==>
              && (!v.List? ==> Enc(ty, v) == Refused(TypeMismatch))
              && (v.List? && |v.elems| >= TWO_32 ==> Enc(ty, v) == Refused(ListTooLong))
    ensures (ty.Record? && !v.Record?) || (ty.Tuple? && !v.Tuple?) ==> Enc(ty, v) == Refused(TypeMismatch)
    ensures (ty.Variant? && !v.Variant?) || (ty.Opt? && !v.Opt?) ==> Enc(ty, v) == Refused(TypeMismatch)
    ensures ty.Res? && !v.ResOk? && !v.ResErr? ==> Enc(ty, v) == Refused(TypeMismatch)
  {
  }

  lemma {:induction false} CaseRefused(cases: seq<Case>, d: string, payload: Option<Val>)
    ensures |cases| >= TWO_32 ==> Enc(Type.Variant(cases), Val.Variant(d, payload)) == Refused(TooManyCases)
    ensures |cases| < TWO_32 && d !in CaseNames(cases) ==>
              Enc(Type.Variant(cases), Val.Variant(d, payload)) == Refused(UnknownName(d))
  {
  }

  lemma {:induction false} ArmRefused(ok: Option<Type>, err: Option<Type>, v: Option<Val>)
    ensures ok.Some? != v.Some? ==>
              Enc(Type.Res(ok, err), Val.ResOk(v)) == Refused(if v.Some? then ResultTypeMissing else ResultValueMissing)
    ensures err.Some? != v.Some? ==>
              Enc(Type.Res(ok, err), Val.ResErr(v)) == Refused(if v.Some? then ResultTypeMissing else ResultValueMissing)
  {
  }
}
