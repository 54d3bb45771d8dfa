/**
 The wire format as a relation between types, values and bytes, written without
 the reader and the writer, and the theorems that tie the two to it.
 */
module Wire {
  import opened Wrappers
  import opened Bits
  import opened Leb128
  import opened Utf8
  import opened Values
  import opened Flags
  import opened Encoder
  import opened Decoder
  import opened CodecTheorems
  import opened DecoderTheorems

  // The format

  /** The bytes are a form of `v` at `ty`; integers may be padded, and so may the last byte of flags. */
  ghost predicate Form(ty: Type, v: Val, s: bytes)
    decreases ty, 0
  {
    if Leaf(ty) then FormLeaf(ty, v, s)
    else match ty
      case List(elem) => v.List? && CountedForm(elem, v.elems, s)
      case Record(fields) => v.Record? && FormRecord(fields, v.members, s)
      case Tuple(types) => v.Tuple? && FormTuple(types, v.items, s)
      case Variant(cases) => v.Variant? && exists i, f, g | 0 <= i < |cases| && s == f + g :: CaseForm(cases, v, i, f, g)
      case Opt(some) =>
        v.Opt? && s != [] && if v.opt.None? then s == [0] else s[0] == 1 && Form(some, v.opt.value, s[1..])
      case Res(ok, err) =>
        && s != []
        && ((v.ResOk? && s[0] == 0 && FormOption(ok, v.ok, s[1..]))
            || (v.ResErr? && s[0] == 1 && FormOption(err, v.err, s[1..])))
  }

  /** The number of elements, and the elements behind it. */
  ghost predicate CountedForm(elem: Type, vs: seq<Val>, s: bytes)
    decreases elem, 2
  {
    exists f, g | s == f + g :: FormU(32, |vs|, f) && FormList(elem, vs, g)
  }

  /** The index of the case, and its payload behind it. */
  ghost predicate CaseForm(cases: seq<Case>, v: Val, i: nat, f: bytes, g: bytes)
    requires v.Variant? && i < |cases|
    decreases cases, 2
  {
    FormU(32, i, f) && v.discriminant == cases[i].name && FormOption(cases[i].ty, v.payload, g)
  }

  ghost predicate FormOption(ty: Option<Type>, v: Option<Val>, s: bytes)
    decreases ty, 1
  {
    match ty
    case None => v.None? && s == []
    case Some(t) => v.Some? && Form(t, v.value, s)
  }

  ghost predicate FormList(elem: Type, vs: seq<Val>, s: bytes)
    decreases elem, 1, |vs|
  {
    if vs == [] then s == []
    else exists f, g | s == f + g :: Form(elem, vs[0], f) && FormList(elem, vs[1..], g)
  }

  ghost predicate FormRecord(fields: seq<Field>, vs: seq<Member>, s: bytes)
    decreases fields, 1
  {
    if fields == [] || vs == [] then fields == [] && vs == [] && s == []
    else
      && vs[0].name == fields[0].name
      && exists f, g | s == f + g :: Form(fields[0].ty, vs[0].val, f) && FormRecord(fields[1..], vs[1..], g)
  }

  ghost predicate FormTuple(types: seq<Type>, vs: seq<Val>, s: bytes)
    decreases types, 1
  {
    if types == [] || vs == [] then types == [] && vs == [] && s == []
    else exists f, g | s == f + g :: Form(types[0], vs[0], f) && FormTuple(types[1..], vs[1..], g)
  }

  ghost predicate FormLeaf(ty: Type, v: Val, s: bytes)
    requires Leaf(ty)
  {
    match ty
    case Bool => v.Bool? && s == [if v.flag then 1 else 0]
    case S8 => v.S8? && |s| == 1 && (s[0] - v.s8) % 256 == 0
    case U8 => v.U8? && s == [v.u8]
    case S16 => v.S16? && FormS(16, v.s16, s)
    case U16 => v.U16? && FormU(16, v.u16, s)
    case S32 => v.S32? && FormS(32, v.s32, s)
    case U32 => v.U32? && FormU(32, v.u32, s)
    case S64 => v.S64? && FormS(64, v.s64, s)
    case U64 => v.U64? && FormU(64, v.u64, s)
    case Float32 => v.Float32? && LittleEndian(v.f32, 4, s)
    case Float64 => v.Float64? && LittleEndian(v.f64, 8, s)
    case Char => v.Char? && CharForm(v.scalar, s)
    case Str => v.Str? && NameForm(v.text, s)
    case Enum(names) => v.Enum? && exists i | 0 <= i < |names| :: v.name == names[i] && FormU(32, i, s)
    case Flags(names) => v.Flags? && |s| == FlagBytes(|names|) && v.listed == Marked(names, s)
    case Map(_, _) | Own | Borrow | Future | Stream | ErrorContext => false
  }

  predicate LittleEndian(n: nat, size: nat, s: bytes) {
    |s| == size && forall i | 0 <= i < size :: s[i] == n / Pow2(8 * i) % 256
  }

  function FlagBytes(n: nat): (k: nat)
    ensures n <= 8 * k
  {
    if n == 0 then 1 else (n + 7) / 8
  }

  /** The names whose bit is set, in order: name `i` has bit `i % 8` of byte `i / 8`. */
  function Marked(names: seq<string>, s: bytes): seq<string>
    requires |names| <= 8 * |s|
  {
    if names == [] then []
    else
      var last := |names| - 1;
      Marked(names[..last], s) + if s[last / 8] / Pow2(last % 8) % 2 == 1 then [names[last]] else []
  }

  // Every form is read, and only forms are

  lemma {:induction false} FormRead(ty: Type, v: Val, f: bytes, rest: bytes)
    requires Form(ty, v, f)
    ensures Dec(ty, f + rest) == Got(v, |f|)
    decreases ty, 0
  {
    if Leaf(ty) {
      LeafFormRead(ty, v, f, rest);
    } else if ty.List? {
      CountedFormRead(ty.elem, v.elems, f, rest);
    } else if ty.Record? {
      RecordFormRead(ty.fields, v.members, f, rest);
    } else if ty.Tuple? {
      TupleFormRead(ty.types, v.items, f, rest);
    } else if ty.Variant? {
      VariantFormRead(ty.cases, v, f, rest);
    } else {
      CutFront(f, 1, rest);
      assert (f + rest)[0] == f[0];
      if ty.Opt? {
        if v.opt.Some? { FormRead(ty.some, v.opt.value, f[1..], rest); }
      } else if v.ResOk? {
        OptionFormRead(ty.ok, v.ok, f[1..], rest);
      } else {
        OptionFormRead(ty.err, v.err, f[1..], rest);
      }
    }
  }

  /** What follows the first `k` bytes of a form and of the stream it begins. */
  lemma CutFront(f: bytes, k: nat, rest: bytes)
    requires k <= |f|
    ensures (f + rest)[k..] == f[k..] + rest
  {
  }

  /** A stream that begins with `f` and then `g`. */
  lemma Behind(f: bytes, g: bytes, rest: bytes)
    ensures f + g + rest == f + (g + rest) && (f + g + rest)[|f|..] == g + rest
  {
  }

  lemma {:induction false} CountedFormRead(elem: Type, vs: seq<Val>, s: bytes, rest: bytes)
    requires CountedForm(elem, vs, s)
    ensures Dec(Type.List(elem), s + rest) == Got(Val.List(vs), |s|)
    decreases elem, 3
  {
    var f, g :| s == f + g && FormU(32, |vs|, f) && FormList(elem, vs, g);
    UnsignedFormRead(32, |vs|, f, g + rest);
    ListFormRead(elem, vs, g, rest);
    CountedFormStep(elem, vs, f, g, rest);
  }

  lemma {:induction false} CountedFormStep(elem: Type, vs: seq<Val>, f: bytes, g: bytes, rest: bytes)
    requires ReadU(32, f + (g + rest)) == Got(|vs|, |f|) && DecList(elem, |vs|, g + rest) == Got(vs, |g|)
    ensures Dec(Type.List(elem), f + g + rest) == Got(Val.List(vs), |f + g|)
  {
    Behind(f, g, rest);
  }

  lemma {:induction false} OptionFormRead(ty: Option<Type>, v: Option<Val>, f: bytes, rest: bytes)
    requires FormOption(ty, v, f)
    ensures DecArm(ty, f + rest) == Got(v, |f|)
    decreases ty, 1
  {
    if ty.Some? { FormRead(ty.value, v.value, f, rest); }
  }

  lemma {:induction false} VariantFormRead(cases: seq<Case>, v: Val, s: bytes, rest: bytes)
    requires v.Variant? && Form(Type.Variant(cases), v, s)
    ensures DecVariant(cases, s + rest) == Got(v, |s|)
    decreases cases, 1
  {
    var i, f, g :| 0 <= i < |cases| && s == f + g && CaseForm(cases, v, i, f, g);
    UnsignedFormRead(32, i, f, g + rest);
    OptionFormRead(cases[i].ty, v.payload, g, rest);
    Behind(f, g, rest);
  }

  lemma {:induction false} ListFormRead(elem: Type, vs: seq<Val>, s: bytes, rest: bytes)
    requires FormList(elem, vs, s)
    ensures DecList(elem, |vs|, s + rest) == Got(vs, |s|)
    decreases elem, 1, |vs|
  {
    if vs != [] {
      var f, g :| s == f + g && Form(elem, vs[0], f) && FormList(elem, vs[1..], g);
      FormRead(elem, vs[0], f, g + rest);
      ListFormRead(elem, vs[1..], g, rest);
      ListFormStep(elem, vs, f, g, rest);
    }
  }

  lemma ListFormStep(elem: Type, vs: seq<Val>, f: bytes, g: bytes, rest: bytes)
    requires vs != [] && Dec(elem, f + (g + rest)) == Got(vs[0], |f|)
    requires DecList(elem, |vs[1..]|, g + rest) == Got(vs[1..], |g|)
    ensures DecList(elem, |vs|, f + g + rest) == Got(vs, |f + g|)
  {
    Behind(f, g, rest);
    DecListCons(elem, vs, f + g + rest, |f|, g + rest, |f + g|);
  }

  lemma DecListCons(elem: Type, vs: seq<Val>, s: bytes, k: nat, rest: bytes, n: nat)
    requires vs != [] && k <= n && k <= |s| && rest == s[k..]
    requires Dec(elem, s) == Got(vs[0], k) && DecList(elem, |vs[1..]|, rest) == Got(vs[1..], n - k)
    ensures DecList(elem, |vs|, s) == Got(vs, n)
  {
    DecListUnfolds(elem, |vs|, s);
    assert |vs[1..]| == |vs| - 1 && [vs[0]] + vs[1..] == vs;
  }

  /** The error of the first element is that of the list. */
  lemma ListFailsAtOnce(elem: Type, n: nat, s: bytes, e: ReadError)
    requires n > 0 && Dec(elem, s) == Fail(e)
    ensures DecList(elem, n, s) == Fail(e)
  {
    DecListUnfolds(elem, n, s);
  }

  /** Behind an element that is read, the error of the others is that of the list. */
  lemma ListFailsBehind(elem: Type, n: nat, s: bytes, e: ReadError, here: Read<Val>, rest: bytes)
    requires n > 0 && here == Dec(elem, s) && here.Got? && rest == s[here.used..] && DecList(elem, n - 1, rest) == Fail(e)
    ensures DecList(elem, n, s) == Fail(e)
  {
    DecListUnfolds(elem, n, s);
  }

  lemma {:induction false} RecordFormRead(fields: seq<Field>, vs: seq<Member>, s: bytes, rest: bytes)
    requires FormRecord(fields, vs, s)
    ensures DecRecord(fields, s + rest) == Got(vs, |s|)
    decreases fields, 1
  {
    if fields != [] {
      var f, g :| s == f + g && Form(fields[0].ty, vs[0].val, f) && FormRecord(fields[1..], vs[1..], g);
      FormRead(fields[0].ty, vs[0].val, f, g + rest);
      RecordFormRead(fields[1..], vs[1..], g, rest);
      Behind(f, g, rest);
      assert [vs[0]] + vs[1..] == vs;
    }
  }

  lemma {:induction false} TupleFormRead(types: seq<Type>, vs: seq<Val>, s: bytes, rest: bytes)
    requires FormTuple(types, vs, s)
    ensures DecTuple(types, s + rest) == Got(vs, |s|)
    decreases types, 1
  {
    if types != [] {
      var f, g :| s == f + g && Form(types[0], vs[0], f) && FormTuple(types[1..], vs[1..], g);
      FormRead(types[0], vs[0], f, g + rest);
      TupleFormRead(types[1..], vs[1..], g, rest);
      Behind(f, g, rest);
      assert [vs[0]] + vs[1..] == vs;
    }
  }

  lemma LeafFormRead(ty: Type, v: Val, f: bytes, rest: bytes)
    requires Leaf(ty) && FormLeaf(ty, v, f)
    ensures DecLeaf(ty, f + rest) == Got(v, |f|)
  {
    if ty.Flags? {
      FlagsFormRead(ty.flags, v, f, rest);
    } else if ty.Enum? {
      var i :| 0 <= i < |ty.names| && v.name == ty.names[i] && FormU(32, i, f);
      UnsignedFormRead(32, i, f, rest);
    } else if ty.Bool? || ty.S8? || ty.U8? {
      ByteFormRead(ty, v, f, rest);
    } else if ty.Float32? || ty.Float64? {
      LittleEndianRead(if ty.Float32? then v.f32 else v.f64, if ty.Float32? then 4 else 8, f, rest);
    } else if ty.Char? {
      CharFormExactly(v.scalar, f);
      CharRoundTrip(v.scalar, rest);
    } else if ty.Str? {
      NameFormRead(v.text, f, rest);
    } else {
      NumberFormRead(ty, v, f, rest);
    }
  }

  lemma FlagsFormRead(names: seq<string>, v: Val, f: bytes, rest: bytes)
    requires FormLeaf(Type.Flags(names), v, f)
    ensures DecLeaf(Type.Flags(names), f + rest) == Got(v, |f|)
  {
    assert (f + rest)[..|f|] == f;
    SelectMarked(names, f, 0);
    assert Marked(names[..0], f) + Select(names, f, 0) == Select(names, f, 0);
  }

  lemma ByteFormRead(ty: Type, v: Val, f: bytes, rest: bytes)
    requires (ty.Bool? || ty.S8? || ty.U8?) && FormLeaf(ty, v, f)
    ensures DecLeaf(ty, f + rest) == Got(v, |f|)
  {
    assert (f + rest)[0] == f[0];
  }

  lemma NumberFormRead(ty: Type, v: Val, f: bytes, rest: bytes)
    requires ty.S16? || ty.U16? || ty.S32? || ty.U32? || ty.S64? || ty.U64?
    requires FormLeaf(ty, v, f)
    ensures DecLeaf(ty, f + rest) == Got(v, |f|)
  {
    match ty
    case S16 => SignedFormRead(16, v.s16, f, rest);
    case U16 => UnsignedFormRead(16, v.u16, f, rest);
    case S32 => SignedFormRead(32, v.s32, f, rest);
    case U32 => UnsignedFormRead(32, v.u32, f, rest);
    case S64 => SignedFormRead(64, v.s64, f, rest);
    case U64 => UnsignedFormRead(64, v.u64, f, rest);
  }

  lemma LittleEndianBytes(n: nat, size: nat, s: bytes)
    ensures LittleEndian(n, size, s) <==> s == LeBytes(n, size)
  {
    forall i | 0 <= i < size ensures LeBytes(n, size)[i] == n / Pow2(8 * i) % 256 {
      LeByteIsDigit(n, size, i);
    }
  }

  lemma LittleEndianRead(n: nat, size: nat, f: bytes, rest: bytes)
    requires (size == 4 || size == 8) && n < (if size == 4 then TWO_32 else TWO_64) && LittleEndian(n, size, f)
    ensures ReadFloat(size, f + rest) == Got(if size == 4 then Val.Float32(n) else Val.Float64(n), |f|)
  {
    LittleEndianBytes(n, size, f);
    Pow2Values();
    LeBytesRoundTrip(n, size);
    assert (f + rest)[..size] == f;
  }

  lemma {:induction false} SelectMarked(names: seq<string>, s: bytes, i: nat)
    requires |names| <= 8 * |s| && i <= |names|
    ensures Marked(names, s) == Marked(names[..i], s) + Select(names, s, i)
    decreases |names| - i
  {
    if i < |names| {
      SelectMarked(names, s, i + 1);
      BitIsDigit(s[i / 8], i % 8);
      assert names[..i + 1][..i] == names[..i];
    } else {
      assert names[..i] == names;
    }
  }

  lemma {:induction false} ReadForm(ty: Type, s: bytes)
    requires Dec(ty, s).Got?
    ensures var r := Dec(ty, s); Form(ty, r.value, s[..r.used])
    decreases ty, 1
  {
    var r := Dec(ty, s);
    if Leaf(ty) {
      LeafReadForm(ty, s);
    } else if ty.List? {
      CountedReadForm(ty.elem, s);
    } else if ty.Record? {
      RecordReadForm(ty.fields, s);
    } else if ty.Tuple? {
      TupleReadForm(ty.types, s);
    } else if ty.Variant? {
      VariantReadForm(ty.cases, s);
    } else if ty.Opt? {
      CutPrefix(s, 1, r.used);
      if r.value.opt.Some? { ReadForm(ty.some, s[1..]); }
    } else {
      ResultReadForm(ty, s);
    }
  }

  lemma {:induction false} ResultReadForm(ty: Type, s: bytes)
    requires ty.Res? && Dec(ty, s).Got?
    ensures var r := Dec(ty, s); Form(ty, r.value, s[..r.used])
    decreases ty, 0
  {
    CutPrefix(s, 1, Dec(ty, s).used);
    OptionReadForm(if s[0] == 1 then ty.err else ty.ok, s[1..]);
  }

  /** What follows the first `k` of the first `n` bytes. */
  lemma CutPrefix(s: bytes, k: nat, n: nat)
    requires k <= n <= |s|
    ensures s[..n][..k] == s[..k] && s[..n][k..] == s[k..][..n - k]
  {
  }

  lemma {:induction false} OptionReadForm(ty: Option<Type>, s: bytes)
    requires DecArm(ty, s).Got?
    ensures var r := DecArm(ty, s); FormOption(ty, r.value, s[..r.used])
    decreases ty, 1
  {
    if ty.Some? { ReadForm(ty.value, s); }
  }

  /** The first `k` bytes and the `m` behind them. */
  lemma Prefixes(s: bytes, k: nat, m: nat)
    requires k + m <= |s|
    ensures s[..k + m] == s[..k] + s[k..][..m]
  {
  }

  lemma {:induction false} CountedReadForm(elem: Type, s: bytes)
    requires Dec(Type.List(elem), s).Got?
    ensures var r := Dec(Type.List(elem), s); Form(Type.List(elem), r.value, s[..r.used])
    decreases elem, 3
  {
    var count := ReadU(32, s);
    var rest := s[count.used..];
    var more := DecList(elem, count.value, rest);
    UnsignedReadForm(32, s);
    ListReadForm(elem, count.value, rest);
    Prefixes(s, count.used, more.used);
  }

  lemma {:induction false} VariantReadForm(cases: seq<Case>, s: bytes)
    requires DecVariant(cases, s).Got?
    ensures var r := DecVariant(cases, s); Form(Type.Variant(cases), r.value, s[..r.used])
    decreases cases, 1
  {
    var r, index := DecVariant(cases, s), ReadU(32, s);
    var rest := s[index.used..];
    UnsignedReadForm(32, s);
    OptionReadForm(cases[index.value].ty, rest);
    var more := DecArm(cases[index.value].ty, rest);
    Prefixes(s, index.used, more.used);
    CaseIsForm(cases, r.value, index.value, s[..index.used], rest[..more.used]);
  }

  lemma CaseIsForm(cases: seq<Case>, v: Val, i: nat, f: bytes, g: bytes)
    requires v.Variant? && i < |cases|
    ensures CaseForm(cases, v, i, f, g) ==> Form(Type.Variant(cases), v, f + g)
  {
  }

  /** The bytes a list is read from, if it is read, are a form of it. */
  ghost predicate ListFormed(elem: Type, r: Read<seq<Val>>, s: bytes) {
    r.Got? && r.used <= |s| ==> FormList(elem, r.value, s[..r.used])
  }

  lemma {:induction false} ListReadForm(elem: Type, n: nat, s: bytes)
    requires DecList(elem, n, s).Got?
    ensures ListFormed(elem, DecList(elem, n, s), s)
    decreases elem, 2, n
  {
    if n > 0 {
      var here, more, rest := ListParts(elem, n, s, DecList(elem, n, s));
      ReadForm(elem, s);
      ListReadForm(elem, n - 1, rest);
      JoinedFormed(elem, here, more, s, rest);
    } else {
      NoElements(elem, s);
    }
  }

  lemma {:induction false} NoElements(elem: Type, s: bytes)
    ensures DecList(elem, 0, s) == Got([], 0) && FormList(elem, [], []) && s[..0] == []
  {
  }

  lemma JoinedFormed(elem: Type, here: Read<Val>, more: Read<seq<Val>>, s: bytes, rest: bytes)
    requires here.Got? && more.Got? && here.used + more.used <= |s| && rest == s[here.used..]
    ensures Form(elem, here.value, s[..here.used]) && ListFormed(elem, more, rest) ==>
              ListFormed(elem, Got([here.value] + more.value, here.used + more.used), s)
  {
    Prefixes(s, here.used, more.used);
    FormListCons(elem, here.value, more.value, s[..here.used], rest[..more.used]);
  }

  lemma FormListCons(elem: Type, v: Val, vs: seq<Val>, f: bytes, g: bytes)
    ensures Form(elem, v, f) && FormList(elem, vs, g) ==> FormList(elem, [v] + vs, f + g)
  {
    assert ([v] + vs)[1..] == vs;
  }

  lemma {:induction false} RecordReadForm(fields: seq<Field>, s: bytes)
    requires DecRecord(fields, s).Got?
    ensures var r := DecRecord(fields, s); FormRecord(fields, r.value, s[..r.used])
    decreases fields, 1
  {
    if fields != [] {
      var here := Dec(fields[0].ty, s);
      var rest := s[here.used..];
      var more := DecRecord(fields[1..], rest);
      ReadForm(fields[0].ty, s);
      RecordReadForm(fields[1..], rest);
      FormRecordCons(fields, here.value, more.value, s[..here.used], rest[..more.used]);
      Prefixes(s, here.used, more.used);
    }
  }

  lemma FormRecordCons(fields: seq<Field>, v: Val, vs: seq<Member>, f: bytes, g: bytes)
    requires fields != []
    ensures Form(fields[0].ty, v, f) && FormRecord(fields[1..], vs, g) ==>
              FormRecord(fields, [Member(fields[0].name, v)] + vs, f + g)
  {
    assert ([Member(fields[0].name, v)] + vs)[1..] == vs;
  }

  lemma {:induction false} TupleReadForm(types: seq<Type>, s: bytes)
    requires DecTuple(types, s).Got?
    ensures var r := DecTuple(types, s); FormTuple(types, r.value, s[..r.used])
    decreases types, 1
  {
    if types != [] {
      var here := Dec(types[0], s);
      var rest := s[here.used..];
      var more := DecTuple(types[1..], rest);
      ReadForm(types[0], s);
      TupleReadForm(types[1..], rest);
      FormTupleCons(types, here.value, more.value, s[..here.used], rest[..more.used]);
      Prefixes(s, here.used, more.used);
    }
  }

  lemma FormTupleCons(types: seq<Type>, v: Val, vs: seq<Val>, f: bytes, g: bytes)
    requires types != []
    ensures Form(types[0], v, f) && FormTuple(types[1..], vs, g) ==> FormTuple(types, [v] + vs, f + g)
  {
    assert ([v] + vs)[1..] == vs;
  }

  lemma LeafReadForm(ty: Type, s: bytes)
    requires Leaf(ty) && DecLeaf(ty, s).Got?
    ensures var r := DecLeaf(ty, s); FormLeaf(ty, r.value, s[..r.used])
  {
    var f := s[..DecLeaf(ty, s).used];
    if ty.Flags? {
      SelectMarked(ty.flags, f, 0);
      assert Marked(ty.flags[..0], f) + Select(ty.flags, f, 0) == Select(ty.flags, f, 0);
    } else if ty.Enum? {
      UnsignedReadForm(32, s);
    } else if ty.Float32? || ty.Float64? {
      LittleEndianReadForm(if ty.Float32? then 4 else 8, s);
    } else if ty.Char? {
      CharCanonical(s);
      CharFormExactly(ReadChar(s).value, f);
    } else if ty.Str? {
      NameReadForm(s);
    } else if ty.S16? || ty.S32? || ty.S64? {
      SignedReadForm(if ty.S16? then 16 else if ty.S32? then 32 else 64, s);
    } else if ty.U16? || ty.U32? || ty.U64? {
      UnsignedReadForm(if ty.U16? then 16 else if ty.U32? then 32 else 64, s);
    }
  }

  lemma LittleEndianReadForm(size: nat, s: bytes)
    requires (size == 4 || size == 8) && |s| >= size
    ensures LittleEndian(FromLeBytes(s[..size]), size, s[..size])
  {
    FromLeBytesRoundTrip(s[..size]);
    LittleEndianBytes(FromLeBytes(s[..size]), size, s[..size]);
  }

  // What follows

  /**
   The decoder takes exactly the forms of the format: it reads `v` from the first
   `n` bytes if and only if they are a form of `v`.
   */
  lemma DecodesExactly(ty: Type, s: bytes, v: Val, n: nat)
    ensures Dec(ty, s) == Got(v, n) <==> n <= |s| && Form(ty, v, s[..n])
  {
    if Dec(ty, s) == Got(v, n) { ReadForm(ty, s); }
    if n <= |s| && Form(ty, v, s[..n]) {
      FormRead(ty, v, s[..n], s[n..]);
      assert s[..n] + s[n..] == s;
    }
  }

  /** No bytes are forms of two values, and no form begins another one. */
  lemma FormsApart(ty: Type, v: Val, f: bytes, after: bytes, w: Val, g: bytes, after': bytes)
    requires Form(ty, v, f) && Form(ty, w, g) && f + after == g + after'
    ensures v == w && f == g && after == after'
  {
    FormRead(ty, v, f, after);
    FormRead(ty, w, g, after');
    assert (f + after)[..|f|] == f && (g + after')[..|g|] == g;
    assert (f + after)[|f|..] == after && (g + after')[|g|..] == after';
  }

  /** What the encoder writes is a form of the value in canonical form. */
  lemma EncoderWritesForm(ty: Type, v: Val)
    requires Named(ty) && WellTyped(ty, v) && Enc(ty, v).err.None?
    ensures Form(ty, Canon(ty, v), Enc(ty, v).out)
  {
    var out := Enc(ty, v).out;
    ReadsBack(ty, v, []);
    assert out + [] == out && out[..|out|] == out;
    ReadForm(ty, out);
  }

  /** And the shortest there is. */
  lemma EncoderWritesShortest(ty: Type, v: Val, f: bytes)
    requires Named(ty) && Form(ty, v, f)
    ensures Enc(ty, v).err.None? && |Enc(ty, v).out| <= |f| && Form(ty, v, Enc(ty, v).out)
  {
    FormRead(ty, v, f, []);
    assert f + [] == f;
    DecodesCanonically(ty, f);
    EncoderWritesForm(ty, v);
  }

  // Refusals

  /** A stream that ends inside a value is reported as having ended, at whatever depth. */
  lemma {:induction false} CutStream(ty: Type, s: bytes, k: nat)
    requires Dec(ty, s).Got? && k < Dec(ty, s).used
    ensures Dec(ty, s[..k]) == Fail(UnexpectedEof)
    decreases ty, 1
  {
    if Leaf(ty) {
      LeafCut(ty, s, k);
    } else if ty.List? {
      var count := ReadU(32, s);
      if k < count.used {
        UnsignedCut(32, s, k);
      } else {
        HeadStays(s, k);
        ListCut(ty.elem, count.value, s[count.used..], k - count.used);
        CutPrefix(s, count.used, k);
      }
    } else if ty.Record? {
      RecordCut(ty.fields, s, k);
    } else if ty.Tuple? {
      TupleCut(ty.types, s, k);
    } else if ty.Variant? {
      VariantCut(ty.cases, s, k);
    } else if k > 0 {
      CutPrefix(s, 1, k);
      if ty.Opt? {
        CutStream(ty.some, s[1..], k - 1);
      } else {
        OptionCut(if s[0] == 1 then ty.err else ty.ok, s[1..], k - 1);
      }
    }
  }

  /** An index that lies before the cut is still read. */
  lemma HeadStays(s: bytes, k: nat)
    requires ReadU(32, s).Got? && ReadU(32, s).used <= k <= |s|
    ensures ReadU(32, s[..k]) == ReadU(32, s)
  {
    UnsignedAgrees(32, s, s[..k]);
  }

  lemma {:induction false} OptionCut(ty: Option<Type>, s: bytes, k: nat)
    requires DecArm(ty, s).Got? && k < DecArm(ty, s).used
    ensures DecArm(ty, s[..k]) == Fail(UnexpectedEof)
    decreases ty, 1
  {
    CutStream(ty.value, s, k);
  }

  lemma {:induction false} VariantCut(cases: seq<Case>, s: bytes, k: nat)
    requires DecVariant(cases, s).Got? && k < DecVariant(cases, s).used
    ensures DecVariant(cases, s[..k]) == Fail(UnexpectedEof)
    decreases cases, 1
  {
    var index := ReadU(32, s);
    if k < index.used {
      UnsignedCut(32, s, k);
    } else {
      HeadStays(s, k);
      CutPrefix(s, index.used, k);
      CutStream(cases[index.value].ty.value, s[index.used..], k - index.used);
    }
  }

  /** What is read before the cut is read as before. */
  lemma BeforeCut(ty: Type, s: bytes, k: nat)
    requires Dec(ty, s).Got? && Dec(ty, s).used <= k <= |s|
    ensures Dec(ty, s[..k]) == Dec(ty, s)
  {
    CutPrefix(s, Dec(ty, s).used, k);
    ReadsLocally(ty, s, s[..k]);
  }

  lemma {:induction false} ListCut(elem: Type, n: nat, s: bytes, k: nat)
    requires DecList(elem, n, s).Got? && k < DecList(elem, n, s).used
    ensures DecList(elem, n, s[..k]) == Fail(UnexpectedEof)
    decreases elem, 2, n
  {
    if n == 0 {
      NoElements(elem, s);
    } else {
      var here, more, rest := ListParts(elem, n, s, DecList(elem, n, s));
      if k < here.used {
        CutStream(elem, s, k);
        ListFailsAtOnce(elem, n, s[..k], UnexpectedEof);
      } else {
        ListCut(elem, n - 1, rest, k - here.used);
        CutBehind(elem, n, s, k, here, rest);
      }
    }
  }

  lemma CutBehind(elem: Type, n: nat, s: bytes, k: nat, here: Read<Val>, rest: bytes)
    requires n > 0 && here == Dec(elem, s) && here.Got? && here.used <= k <= |s| && rest == s[here.used..]
    requires DecList(elem, n - 1, rest[..k - here.used]) == Fail(UnexpectedEof)
    ensures DecList(elem, n, s[..k]) == Fail(UnexpectedEof)
  {
    BeforeCut(elem, s, k);
    CutPrefix(s, here.used, k);
    ListFailsBehind(elem, n, s[..k], UnexpectedEof, here, rest[..k - here.used]);
  }

  lemma ListParts(elem: Type, n: nat, s: bytes, r: Read<seq<Val>>)
      returns (here: Read<Val>, more: Read<seq<Val>>, rest: bytes)
    requires n > 0 && r == DecList(elem, n, s) && r.Got?
    ensures here == Dec(elem, s) && here.Got? && here.used <= |s| && rest == s[here.used..]
    ensures more == DecList(elem, n - 1, rest) && more.Got? && more.used <= |rest|
    ensures r == Got([here.value] + more.value, here.used + more.used)
  {
    here := Dec(elem, s);
    DecListUnfolds(elem, n, s);
    rest := s[here.used..];
    more := DecList(elem, n - 1, rest);
  }

  lemma {:induction false} RecordCut(fields: seq<Field>, s: bytes, k: nat)
    requires DecRecord(fields, s).Got? && k < DecRecord(fields, s).used
    ensures DecRecord(fields, s[..k]) == Fail(UnexpectedEof)
    decreases fields, 1
  {
    var here := Dec(fields[0].ty, s);
    if k < here.used {
      CutStream(fields[0].ty, s, k);
    } else {
      BeforeCut(fields[0].ty, s, k);
      CutPrefix(s, here.used, k);
      RecordCut(fields[1..], s[here.used..], k - here.used);
    }
  }

  lemma {:induction false} TupleCut(types: seq<Type>, s: bytes, k: nat)
    requires DecTuple(types, s).Got? && k < DecTuple(types, s).used
    ensures DecTuple(types, s[..k]) == Fail(UnexpectedEof)
    decreases types, 1
  {
    var here := Dec(types[0], s);
    if k < here.used {
      CutStream(types[0], s, k);
    } else {
      BeforeCut(types[0], s, k);
      CutPrefix(s, here.used, k);
      TupleCut(types[1..], s[here.used..], k - here.used);
    }
  }

  lemma LeafCut(ty: Type, s: bytes, k: nat)
    requires Leaf(ty) && DecLeaf(ty, s).Got? && k < DecLeaf(ty, s).used
    ensures DecLeaf(ty, s[..k]) == Fail(UnexpectedEof)
  {
    if ty.S16? || ty.S32? || ty.S64? {
      SignedCut(if ty.S16? then 16 else if ty.S32? then 32 else 64, s, k);
    } else if ty.U16? || ty.U32? || ty.U64? {
      UnsignedCut(if ty.U16? then 16 else if ty.U32? then 32 else 64, s, k);
    } else if ty.Enum? {
      UnsignedCut(32, s, k);
    } else if ty.Char? {
      CharCut(s, k);
    } else if ty.Str? {
      NameCut(s, k);
    }
  }

  /** An index past the cases or names is refused by its number, padded or not, whatever follows. */
  lemma UnknownIndexRefused(cases: seq<Case>, names: seq<string>, i: nat, f: bytes, rest: bytes)
    requires FormU(32, i, f)
    ensures i >= |cases| ==> Dec(Type.Variant(cases), f + rest) == Fail(UnknownDiscriminant(i))
    ensures i >= |names| ==> Dec(Type.Enum(names), f + rest) == Fail(UnknownDiscriminant(i))
  {
    UnsignedFormRead(32, i, f, rest);
  }

  /** A status byte above one is malformed. */
  lemma {:induction false} StatusRefused(ty: Type, s: bytes)
    requires (ty.Bool? || ty.Opt? || ty.Res?) && s != [] && s[0] > 1
    ensures Dec(ty, s) == Fail(InvalidData)
  {
  }

  lemma {:induction false} UnsupportedRefused(ty: Type, s: bytes)
    requires Leaf(ty) && !SupportedLeaf(ty)
    ensures Dec(ty, s) == Fail(Unsupported)
  {
  }

  /** The first field that fails gives the error of the record. */
  lemma {:induction false} RecordFails(fields: seq<Field>, i: nat, vs: seq<Member>, s: bytes, rest: bytes, e: ReadError)
    requires i < |fields| && FormRecord(fields[..i], vs, s) && Dec(fields[i].ty, rest) == Fail(e)
    ensures DecRecord(fields, s + rest) == Fail(e)
    decreases i
  {
    if i == 0 {
      assert s + rest == rest;
    } else {
      var front := fields[..i];
      var f, g :| s == f + g && Form(front[0].ty, vs[0].val, f) && FormRecord(front[1..], vs[1..], g);
      FormRead(front[0].ty, vs[0].val, f, g + rest);
      Behind(f, g, rest);
      assert front[1..] == fields[1..][..i - 1];
      RecordFails(fields[1..], i - 1, vs[1..], g, rest, e);
    }
  }

  /** The first item that fails gives the error of the tuple. */
  lemma {:induction false} TupleFails(types: seq<Type>, i: nat, vs: seq<Val>, s: bytes, rest: bytes, e: ReadError)
    requires i < |types| && FormTuple(types[..i], vs, s) && Dec(types[i], rest) == Fail(e)
    ensures DecTuple(types, s + rest) == Fail(e)
    decreases i
  {
    if i == 0 {
      assert s + rest == rest;
    } else {
      var front := types[..i];
      var f, g :| s == f + g && Form(front[0], vs[0], f) && FormTuple(front[1..], vs[1..], g);
      FormRead(front[0], vs[0], f, g + rest);
      Behind(f, g, rest);
      assert front[1..] == types[1..][..i - 1];
      TupleFails(types[1..], i - 1, vs[1..], g, rest, e);
    }
  }

  /** The first element that fails gives the error of the list. */
  lemma {:induction false} ListFails(elem: Type, n: nat, vs: seq<Val>, s: bytes, rest: bytes, e: ReadError)
    requires |vs| < n && FormList(elem, vs, s) && Dec(elem, rest) == Fail(e)
    ensures DecList(elem, n, s + rest) == Fail(e)
    decreases |vs|
  {
    if vs == [] {
      assert s + rest == rest;
      ListFailsAtOnce(elem, n, rest, e);
    } else {
      var f, g :| s == f + g && Form(elem, vs[0], f) && FormList(elem, vs[1..], g);
      FormRead(elem, vs[0], f, g + rest);
      ListFails(elem, n - 1, vs[1..], g, rest, e);
      ListFailsStep(elem, n, f, g, rest, e);
    }
  }

  lemma ListFailsStep(elem: Type, n: nat, f: bytes, g: bytes, rest: bytes, e: ReadError)
    requires n > 0 && DecList(elem, n - 1, g + rest) == Fail(e)
    requires var here := Dec(elem, f + (g + rest)); here.Got? && here.used == |f|
    ensures DecList(elem, n, f + g + rest) == Fail(e)
  {
    Behind(f, g, rest);
    ListFailsBehind(elem, n, f + g + rest, e, Dec(elem, f + (g + rest)), g + rest);
  }
}
