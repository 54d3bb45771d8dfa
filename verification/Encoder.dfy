/** The type-directed encoder: `ValEncoder::encode` and the function it computes. */
module Encoder {
  import opened Wrappers
  import opened Bits
  import opened Leb128
  import opened Utf8
  import opened Values
  import opened Flags

  datatype EncodeError =
    | NameTooLong | ListTooLong
    | UnknownName(name: string) | TooManyCases | PayloadTypeMissing
    | ResultTypeMissing | ResultValueMissing
    | UnsupportedMap | UnsupportedResource | UnsupportedFuture | UnsupportedStream | UnsupportedErrorContext
    | TypeMismatch

  /** What one `encode` call appends to the buffer, and how it ends. */
  datatype Written = Written(out: bytes, err: Option<EncodeError>) {

    /** This call, then `next` unless this one failed. */
    function Then(next: Written): Written {
      if err.Some? then this else Written(out + next.out, next.err)
    }
  }

  function Done(out: bytes): Written {
    Written(out, None)
  }

  function Refused(e: EncodeError): Written {
    Written([], Some(e))
  }

  /** The integer type an index of `n` alternatives is drawn from, and the bytes reserved for its LEB128 form. */
  datatype IndexClass = IndexClass(width: nat, reserve: nat)

  function ClassOf(n: nat): Option<IndexClass> {
    if n <= 0xff then Some(IndexClass(8, 2))
    else if n <= 0xffff then Some(IndexClass(16, 3))
    else if n <= 0xff_ffff then Some(IndexClass(32, 4))
    else if n <= 0xffff_ffff then Some(IndexClass(32, 5))
    else None
  }

  function EncIndex(names: seq<string>, d: string): Written {
    match ClassOf(|names|)
    case None => Refused(TooManyCases)
    case Some(_) =>
      match FindName(names, d)
      case None => Refused(UnknownName(d))
      case Some(i) => Done(WriteU(i))
  }

  function Enc(ty: Type, v: Val): Written
    decreases ty, 0
  {
    if Leaf(ty) then EncLeaf(ty, v)
    else match ty
      case List(elem) =>
        if !v.List? then Refused(TypeMismatch)
        else if |v.elems| >= TWO_32 then Refused(ListTooLong)
        else Done(WriteU(|v.elems|)).Then(EncList(elem, v.elems))
      case Record(fields) => if v.Record? then EncRecord(fields, v.members) else Refused(TypeMismatch)
      case Tuple(types) => if v.Tuple? then EncTuple(types, v.items) else Refused(TypeMismatch)
      case Variant(cases) =>
        if v.Variant? then EncVariant(cases, v.discriminant, v.payload) else Refused(TypeMismatch)
      case Opt(some) =>
        if !v.Opt? then Refused(TypeMismatch)
        else if v.opt.None? then Done([0])
        else Done([1]).Then(Enc(some, v.opt.value))
      case Res(ok, err) =>
        if v.ResOk? then EncArm(0, ok, v.ok)
        else if v.ResErr? then EncArm(1, err, v.err)
        else Refused(TypeMismatch)
  }

  function EncVariant(cases: seq<Case>, d: string, payload: Option<Val>): Written
    decreases cases, 1
  {
    var index := EncIndex(CaseNames(cases), d);
    if index.err.Some? then index
    else match (payload, cases[FindName(CaseNames(cases), d).value].ty)
      case (None, _) => index
      case (Some(_), None) => Written(index.out, Some(PayloadTypeMissing))
      case (Some(x), Some(t)) => index.Then(Enc(t, x))
  }

  function EncArm(status: byte, ty: Option<Type>, v: Option<Val>): Written
    decreases ty, 1
  {
    if v.Some? && ty.Some? then Done([status]).Then(Enc(ty.value, v.value))
    else if v.Some? then Refused(ResultTypeMissing)
    else if ty.Some? then Refused(ResultValueMissing)
    else Done([status])
  }

  function EncList(elem: Type, vs: seq<Val>): Written
    decreases elem, 1, |vs|
  {
    if vs == [] then Done([]) else Enc(elem, vs[0]).Then(EncList(elem, vs[1..]))
  }

  /** Members and fields are paired in order, as far as the shorter of the two; member names are not looked at. */
  function EncRecord(fields: seq<Field>, vs: seq<Member>): Written
    decreases fields, 1
  {
    if fields == [] || vs == [] then Done([])
    else Enc(fields[0].ty, vs[0].val).Then(EncRecord(fields[1..], vs[1..]))
  }

  function EncTuple(types: seq<Type>, vs: seq<Val>): Written
    decreases types, 1
  {
    if types == [] || vs == [] then Done([])
    else Enc(types[0], vs[0]).Then(EncTuple(types[1..], vs[1..]))
  }

  /** The two's-complement byte of a signed 8-bit integer. */
  function SignedByte(n: i8): byte {
    n % 256
  }

  function EncLeaf(ty: Type, v: Val): Written
    requires Leaf(ty)
  {
    match ty
    case Bool => if v.Bool? then Done([if v.flag then 1 else 0]) else Refused(TypeMismatch)
    case S8 => if v.S8? then Done([SignedByte(v.s8)]) else Refused(TypeMismatch)
    case U8 => if v.U8? then Done([v.u8]) else Refused(TypeMismatch)
    case S16 => if v.S16? then Done(WriteS(v.s16)) else Refused(TypeMismatch)
    case U16 => if v.U16? then Done(WriteU(v.u16)) else Refused(TypeMismatch)
    case S32 => if v.S32? then Done(WriteS(v.s32)) else Refused(TypeMismatch)
    case U32 => if v.U32? then Done(WriteU(v.u32)) else Refused(TypeMismatch)
    case S64 => if v.S64? then Done(WriteS(v.s64)) else Refused(TypeMismatch)
    case U64 => if v.U64? then Done(WriteU(v.u64)) else Refused(TypeMismatch)
    case Float32 => if v.Float32? then Done(LeBytes(v.f32, 4)) else Refused(TypeMismatch)
    case Float64 => if v.Float64? then Done(LeBytes(v.f64, 8)) else Refused(TypeMismatch)
    case Char => if v.Char? then Done(WriteChar(v.scalar)) else Refused(TypeMismatch)
    case Str =>
      if !v.Str? then Refused(TypeMismatch)
      else if |WriteUtf8(v.text)| >= TWO_32 then Refused(NameTooLong)
      else Done(WriteName(v.text))
    case Enum(names) => if v.Enum? then EncIndex(names, v.name) else Refused(TypeMismatch)
    case Flags(names) =>
      if v.Flags? then Done(Pack(Presence(names, AsSet(v.listed)))) else Refused(TypeMismatch)
    case Map(_, _) => Refused(UnsupportedMap)
    case Own => Refused(UnsupportedResource)
    case Borrow => Refused(UnsupportedResource)
    case Future => Refused(UnsupportedFuture)
    case Stream => Refused(UnsupportedStream)
    case ErrorContext => Refused(UnsupportedErrorContext)
  }

  /** The growing output buffer. */
  class BytesMut {
    var data: bytes

    constructor ()
      ensures data == []
    {
      data := [];
    }

    method Put(s: bytes)
      modifies this
      ensures data == old(data) + s
    {
      data := data + s;
    }
  }

  /** With `todo` still to come after `data`, the buffer that was `base` will hold what `total` says. */
  ghost predicate Remains(total: Written, base: bytes, data: bytes, todo: Written) {
    data + todo.out == base + total.out && todo.err == total.err
  }

  /** The buffer after one more call: finished if that failed, otherwise `next` still to come. */
  ghost predicate Advanced(total: Written, base: bytes, data: bytes, first: Written, next: Written) {
    if first.err.Some? then data + first.out == base + total.out && first.err == total.err
    else Remains(total, base, data + first.out, next)
  }

  lemma RemainsStep(total: Written, base: bytes, data: bytes, first: Written, next: Written)
    requires Remains(total, base, data, first.Then(next))
    ensures Advanced(total, base, data, first, next)
  {
  }

  lemma ListRemains(elem: Type, vs: seq<Val>, i: nat, total: Written, base: bytes, data: bytes)
    requires i < |vs| && Remains(total, base, data, EncList(elem, vs[i..]))
    ensures Advanced(total, base, data, Enc(elem, vs[i]), EncList(elem, vs[i + 1..]))
  {
    assert vs[i..][1..] == vs[i + 1..];
    RemainsStep(total, base, data, Enc(elem, vs[i]), EncList(elem, vs[i + 1..]));
  }

  lemma RecordRemains(fields: seq<Field>, vs: seq<Member>, i: nat, total: Written, base: bytes, data: bytes)
    requires i < |fields| && i < |vs| && Remains(total, base, data, EncRecord(fields[i..], vs[i..]))
    ensures Advanced(total, base, data, Enc(fields[i].ty, vs[i].val), EncRecord(fields[i + 1..], vs[i + 1..]))
  {
    assert fields[i..][1..] == fields[i + 1..] && vs[i..][1..] == vs[i + 1..];
    RemainsStep(total, base, data, Enc(fields[i].ty, vs[i].val), EncRecord(fields[i + 1..], vs[i + 1..]));
  }

  lemma TupleRemains(types: seq<Type>, vs: seq<Val>, i: nat, total: Written, base: bytes, data: bytes)
    requires i < |types| && i < |vs| && Remains(total, base, data, EncTuple(types[i..], vs[i..]))
    ensures Advanced(total, base, data, Enc(types[i], vs[i]), EncTuple(types[i + 1..], vs[i + 1..]))
  {
    assert types[i..][1..] == types[i + 1..] && vs[i..][1..] == vs[i + 1..];
    RemainsStep(total, base, data, Enc(types[i], vs[i]), EncTuple(types[i + 1..], vs[i + 1..]));
  }

  datatype ValEncoder = ValEncoder(ty: Type) {

    /**
     Appends the encoding of `v` to `dst`. Whatever happens, the earlier contents
     stay in place and what follows them is what `Enc` says.
     */
    method Encode(v: Val, dst: BytesMut) returns (err: Option<EncodeError>)
      modifies dst
      ensures dst.data == old(dst.data) + Enc(ty, v).out
      ensures err == Enc(ty, v).err
      decreases ty, 0, 1
    {
      if !Leaf(ty) {
        err := EncodeComposite(v, dst);
      } else if v.Flags? && ty.Flags? {
        var packed := EncodeFlags(ty.flags, v.listed);
        dst.Put(packed);
        err := None;
      } else {
        dst.Put(EncLeaf(ty, v).out);
        err := EncLeaf(ty, v).err;
      }
    }

    method EncodeComposite(v: Val, dst: BytesMut) returns (err: Option<EncodeError>)
      requires !Leaf(ty)
      modifies dst
      ensures dst.data == old(dst.data) + Enc(ty, v).out
      ensures err == Enc(ty, v).err
      decreases ty, 0, 0
    {
      if v.List? && ty.List? {
        err := EncodeCounted(ty.elem, v.elems, dst);
      } else if v.Record? && ty.Record? {
        err := EncodeRecord(ty.fields, v.members, dst);
      } else if v.Tuple? && ty.Tuple? {
        err := EncodeTuple(ty.types, v.items, dst);
      } else if v.Variant? && ty.Variant? {
        err := EncodeVariant(ty.cases, v.discriminant, v.payload, dst);
      } else if v.Opt? && ty.Opt? {
        err := EncodeOption(ty.some, v.opt, dst);
      } else if v.ResOk? && ty.Res? {
        err := EncodeArm(0, ty.ok, v.ok, dst);
      } else if v.ResErr? && ty.Res? {
        err := EncodeArm(1, ty.err, v.err, dst);
      } else {
        err := Some(TypeMismatch);
      }
    }

    static method EncodeOption(some: Type, v: Option<Val>, dst: BytesMut) returns (err: Option<EncodeError>)
      modifies dst
      ensures dst.data == old(dst.data) + Enc(Type.Opt(some), Val.Opt(v)).out
      ensures err == Enc(Type.Opt(some), Val.Opt(v)).err
      decreases some, 2
    {
      if v.None? {
        dst.Put([0]);
        return None;
      }
      dst.Put([1]);
      err := ValEncoder(some).Encode(v.value, dst);
    }

    static method EncodeCounted(elem: Type, vs: seq<Val>, dst: BytesMut) returns (err: Option<EncodeError>)
      modifies dst
      ensures dst.data == old(dst.data) + Enc(Type.List(elem), Val.List(vs)).out
      ensures err == Enc(Type.List(elem), Val.List(vs)).err
      decreases elem, 2
    {
      if |vs| >= TWO_32 {
        return Some(ListTooLong);
      }
      dst.Put(WriteU(|vs|));
      err := EncodeList(elem, vs, dst);
    }

    static method EncodeList(elem: Type, vs: seq<Val>, dst: BytesMut) returns (err: Option<EncodeError>)
      modifies dst
      ensures dst.data == old(dst.data) + EncList(elem, vs).out
      ensures err == EncList(elem, vs).err
      decreases elem, 1
    {
      ghost var base, total := dst.data, EncList(elem, vs);
      assert vs[0..] == vs;
      for i := 0 to |vs|
        invariant Remains(total, base, dst.data, EncList(elem, vs[i..]))
      {
        ListRemains(elem, vs, i, total, base, dst.data);
        err := ValEncoder(elem).Encode(vs[i], dst);
        if err.Some? {
          return;
        }
      }
      assert vs[|vs|..] == [];
      err := None;
    }

    static method EncodeRecord(fields: seq<Field>, vs: seq<Member>, dst: BytesMut) returns (err: Option<EncodeError>)
      modifies dst
      ensures dst.data == old(dst.data) + EncRecord(fields, vs).out
      ensures err == EncRecord(fields, vs).err
      decreases fields, 1
    {
      ghost var base, total := dst.data, EncRecord(fields, vs);
      assert fields[0..] == fields && vs[0..] == vs;
      var i := 0;
      while i < |fields| && i < |vs|
        invariant i <= |fields| && i <= |vs|
        invariant Remains(total, base, dst.data, EncRecord(fields[i..], vs[i..]))
      {
        RecordRemains(fields, vs, i, total, base, dst.data);
        err := ValEncoder(fields[i].ty).Encode(vs[i].val, dst);
        if err.Some? {
          return;
        }
        i := i + 1;
      }
      err := None;
    }

    static method EncodeTuple(types: seq<Type>, vs: seq<Val>, dst: BytesMut) returns (err: Option<EncodeError>)
      modifies dst
      ensures dst.data == old(dst.data) + EncTuple(types, vs).out
      ensures err == EncTuple(types, vs).err
      decreases types, 1
    {
      ghost var base, total := dst.data, EncTuple(types, vs);
      assert types[0..] == types && vs[0..] == vs;
      var i := 0;
      while i < |types| && i < |vs|
        invariant i <= |types| && i <= |vs|
        invariant Remains(total, base, dst.data, EncTuple(types[i..], vs[i..]))
      {
        TupleRemains(types, vs, i, total, base, dst.data);
        err := ValEncoder(types[i]).Encode(vs[i], dst);
        if err.Some? {
          return;
        }
        i := i + 1;
      }
      err := None;
    }

    static method EncodeVariant(cases: seq<Case>, d: string, payload: Option<Val>, dst: BytesMut)
      returns (err: Option<EncodeError>)
      modifies dst
      ensures dst.data == old(dst.data) + EncVariant(cases, d, payload).out
      ensures err == EncVariant(cases, d, payload).err
      decreases cases, 1
    {
      var index := EncIndex(CaseNames(cases), d);
      dst.Put(index.out);
      if index.err.Some? {
        return index.err;
      }
      if payload.None? {
        return None;
      }
      var t := cases[FindName(CaseNames(cases), d).value].ty;
      if t.None? {
        return Some(PayloadTypeMissing);
      }
      err := ValEncoder(t.value).Encode(payload.value, dst);
    }

    static method EncodeArm(status: byte, ty: Option<Type>, v: Option<Val>, dst: BytesMut) returns (err: Option<EncodeError>)
      modifies dst
      ensures dst.data == old(dst.data) + EncArm(status, ty, v).out
      ensures err == EncArm(status, ty, v).err
      decreases ty, 1
    {
      match (v, ty) {
        case (Some(x), Some(t)) =>
          dst.Put([status]);
          err := ValEncoder(t).Encode(x, dst);
        case (Some(_), None) => err := Some(ResultTypeMissing);
        case (None, Some(_)) => err := Some(ResultValueMissing);
        case (None, None) =>
          dst.Put([status]);
          err := None;
      }
    }
  }
}
