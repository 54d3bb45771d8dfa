/** Component-model types and values as finite trees. */
module Values {
  import opened Wrappers
  import opened Bits
  import opened Utf8

  datatype Type =
    | Bool | S8 | U8 | S16 | U16 | S32 | U32 | S64 | U64
    | Float32 | Float64 | Char | Str
    | List(elem: Type)
    | Record(fields: seq<Field>)
    | Tuple(types: seq<Type>)
    | Variant(cases: seq<Case>)
    | Enum(names: seq<string>)
    | Opt(some: Type)
    | Res(ok: Option<Type>, err: Option<Type>)
    | Flags(flags: seq<string>)
    | Map(key: Type, entry: Type)
    | Own | Borrow | Future | Stream | ErrorContext

  datatype Field = Field(name: string, ty: Type)

  datatype Case = Case(name: string, ty: Option<Type>)

  /** Floats are their bit patterns; strings are sequences of scalar values. */
  datatype Val =
    | Bool(flag: bool)
    | S8(s8: i8) | U8(u8: u8) | S16(s16: i16) | U16(u16: u16)
    | S32(s32: i32) | U32(u32: u32) | S64(s64: i64) | U64(u64: u64)
    | Float32(f32: u32) | Float64(f64: u64)
    | Char(scalar: char) | Str(text: string)
    | List(elems: seq<Val>)
    | Record(members: seq<Member>)
    | Tuple(items: seq<Val>)
    | Variant(discriminant: string, payload: Option<Val>)
    | Enum(name: string)
    | Opt(opt: Option<Val>)
    | ResOk(ok: Option<Val>)
    | ResErr(err: Option<Val>)
    | Flags(listed: seq<string>)
    | Map(entries: seq<(Val, Val)>)
    | Resource(handle: nat) | Future | Stream | ErrorContext

  /** One named member of a record value. */
  datatype Member = Member(name: string, val: Val)

  /** Types whose encoding contains no other value. */
  predicate Leaf(ty: Type) {
    !(ty.List? || ty.Record? || ty.Tuple? || ty.Variant? || ty.Opt? || ty.Res?)
  }

  /** The index of the first occurrence of `d`. */
  function FindName(names: seq<string>, d: string): (r: Option<nat>)
    ensures r.Some? ==> r.value < |names| && names[r.value] == d && d !in names[..r.value]
    ensures r.None? ==> d !in names
  {
    if names == [] then None
    else if names[0] == d then Some(0)
    else match FindName(names[1..], d)
      case None => None
      case Some(i) => Some(i + 1)
  }

  function CaseNames(cases: seq<Case>): (names: seq<string>)
    ensures |names| == |cases|
  {
    seq(|cases|, i requires 0 <= i < |cases| => cases[i].name)
  }

  function FieldNames(fields: seq<Field>): (names: seq<string>)
    ensures |names| == |fields|
  {
    seq(|fields|, i requires 0 <= i < |fields| => fields[i].name)
  }

  function MemberNames(members: seq<Member>): (names: seq<string>)
    ensures |names| == |members|
  {
    seq(|members|, i requires 0 <= i < |members| => members[i].name)
  }

  lemma FindDistinct(names: seq<string>, i: nat)
    requires Distinct(names) && i < |names|
    ensures FindName(names, names[i]) == Some(i)
  {
    assert names[i] in names;
    var r := FindName(names, names[i]).value;
  }

  /** The values of a type: same shape, same names, and lengths that fit the `u32` length of the canonical ABI. */
  ghost predicate WellTyped(ty: Type, v: Val) {
    if ty.Map? then
      && v.Map?
      && forall i | 0 <= i < |v.entries| :: WellTyped(ty.key, v.entries[i].0) && WellTyped(ty.entry, v.entries[i].1)
    else if Leaf(ty) then WellTypedLeaf(ty, v)
    else match ty
      case List(elem) =>
        && v.List?
        && |v.elems| < TWO_32
        && forall i | 0 <= i < |v.elems| :: WellTyped(elem, v.elems[i])
      case Record(fields) =>
        && v.Record?
        && |v.members| == |fields|
        && forall i | 0 <= i < |fields| :: v.members[i].name == fields[i].name && WellTyped(fields[i].ty, v.members[i].val)
      case Tuple(types) =>
        && v.Tuple?
        && |v.items| == |types|
        && forall i | 0 <= i < |types| :: WellTyped(types[i], v.items[i])
      case Variant(cases) =>
        && v.Variant?
        && var found := FindName(CaseNames(cases), v.discriminant);
        && found.Some?
        && WellTypedOption(cases[found.value].ty, v.payload)
      case Opt(some) => v.Opt? && (v.opt.Some? ==> WellTyped(some, v.opt.value))
      case Res(ok, err) => (v.ResOk? && WellTypedOption(ok, v.ok)) || (v.ResErr? && WellTypedOption(err, v.err))
  }

  predicate WellTypedLeaf(ty: Type, v: Val)
    requires Leaf(ty)
  {
    match ty
    case Bool => v.Bool?
    case S8 => v.S8?
    case U8 => v.U8?
    case S16 => v.S16?
    case U16 => v.U16?
    case S32 => v.S32?
    case U32 => v.U32?
    case S64 => v.S64?
    case U64 => v.U64?
    case Float32 => v.Float32?
    case Float64 => v.Float64?
    case Char => v.Char?
    case Str => v.Str? && |WriteUtf8(v.text)| < TWO_32
    case Enum(names) => v.Enum? && v.name in names
    case Flags(names) => v.Flags? && forall f | f in v.listed :: f in names
    case Map(_, _) => v.Map?
    case Own => v.Resource?
    case Borrow => v.Resource?
    case Future => v.Future?
    case Stream => v.Stream?
    case ErrorContext => v.ErrorContext?
  }

  ghost predicate WellTypedOption(ty: Option<Type>, v: Option<Val>) {
    ty.Some? == v.Some? && (ty.Some? ==> WellTyped(ty.value, v.value))
  }

  /** The type is one the component model admits: distinct case and flag names, and case counts that fit `u32`. */
  ghost predicate Named(ty: Type) {
    if Leaf(ty) then NamedLeaf(ty)
    else match ty
      case List(elem) => Named(elem)
      case Record(fields) => forall i | 0 <= i < |fields| :: Named(fields[i].ty)
      case Tuple(types) => forall i | 0 <= i < |types| :: Named(types[i])
      case Variant(cases) =>
        && |cases| < TWO_32
        && Distinct(CaseNames(cases))
        && forall i | 0 <= i < |cases| :: cases[i].ty.Some? ==> Named(cases[i].ty.value)
      case Opt(some) => Named(some)
      case Res(ok, err) => (ok.Some? ==> Named(ok.value)) && (err.Some? ==> Named(err.value))
  }

  predicate NamedLeaf(ty: Type)
    requires Leaf(ty)
  {
    && (ty.Enum? ==> |ty.names| < TWO_32)
    && (ty.Flags? ==> Distinct(ty.flags))
  }

  /** No maps, resources or asynchronous handles anywhere in the type. */
  ghost predicate Supported(ty: Type) {
    if Leaf(ty) then SupportedLeaf(ty)
    else match ty
      case List(elem) => Supported(elem)
      case Record(fields) => forall i | 0 <= i < |fields| :: Supported(fields[i].ty)
      case Tuple(types) => forall i | 0 <= i < |types| :: Supported(types[i])
      case Variant(cases) => forall i | 0 <= i < |cases| :: cases[i].ty.Some? ==> Supported(cases[i].ty.value)
      case Opt(some) => Supported(some)
      case Res(ok, err) => (ok.Some? ==> Supported(ok.value)) && (err.Some? ==> Supported(err.value))
  }

  predicate SupportedLeaf(ty: Type) {
    !(ty.Map? || ty.Own? || ty.Borrow? || ty.Future? || ty.Stream? || ty.ErrorContext?)
  }
}
