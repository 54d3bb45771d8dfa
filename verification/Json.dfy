/**
 The JSON bridge of the browser runtime: `val_to_json` lifts a value for the
 page, `json_to_val` lowers what the page sends back against a type. Floats are
 not part of this model.
 */
module Json {
  import opened Wrappers
  import opened Bits
  import opened Values

  /** A parsed document. An object is a map, so a repeated key keeps its last value. */
  datatype Json =
    | Null
    | Boolean(b: bool)
    | Integer(i: int)          // a number the parser keeps as a 64-bit integer
    | Decimal(d: real)         // any other number
    | Text(s: string)
    | Array(items: seq<Json>)
    | Object(entries: map<string, Json>)

  datatype LowerError =
    | Expected(kind: string)
    | NotOneCharacter
    | MissingField(name: string)
    | WrongArity(expected: nat, got: nat)
    | UnsupportedType

  // Numbers

  /** `as i64` / `as u64` on a float: truncate toward zero, then saturate. */
  function Truncate(d: real): int {
    if d >= 0.0 then d.Floor else -((-d).Floor)
  }

  function Clamp(n: int, low: int, high: int): (r: int)
    requires low <= high
    ensures low <= r <= high
    ensures low <= n <= high ==> r == n
  {
    if n < low then low else if n > high then high else n
  }

  const I64_MIN: int := -0x8000_0000_0000_0000
  const I64_MAX: int := 0x7fff_ffff_ffff_ffff
  const U64_MAX: int := 0xffff_ffff_ffff_ffff

  /** `as_i64()`, or else the saturated float; `None` when it is not a number. */
  function AsI64(v: Json): (r: Option<i64>) {
    match v
    case Integer(i) => Some(Clamp(i, I64_MIN, I64_MAX))
    case Decimal(d) => Some(Clamp(Truncate(d), I64_MIN, I64_MAX))
    case _ => None
  }

  function AsU64(v: Json): (r: Option<u64>) {
    match v
    case Integer(i) => Some(Clamp(i, 0, U64_MAX))
    case Decimal(d) => Some(Clamp(Truncate(d), 0, U64_MAX))
    case _ => None
  }

  /** `as u8`, `as u16`, `as u32`: keep the low bits. */
  function WrapU(n: int, modulus: int): (r: int)
    requires modulus > 0
    ensures 0 <= r < modulus
    ensures 0 <= n < modulus ==> r == n
  {
    n % modulus
  }

  /** `as i8`, `as i16`, `as i32`: keep the low bits and read them as two's complement. */
  function WrapS(n: int, half: int): (r: int)
    requires half in {0x80, 0x8000, 0x8000_0000}
    ensures -half <= r < half
    ensures -half <= n < half ==> r == n
  {
    if half == 0x80 then (n + 0x80) % TWO_8 - 0x80
    else if half == 0x8000 then (n + 0x8000) % TWO_16 - 0x8000
    else (n + 0x8000_0000) % TWO_32 - 0x8000_0000
  }

  /**
   What this model takes from elsewhere: the debug text of the kinds of value
   without a JSON form of their own, and the conversions of floats.
   */
  datatype External = External(
    debug: Val -> string,
    liftFloat: Val -> Json,
    lowerFloat: (Type, Json) -> Result<Val, LowerError>)

  // Lifting

  /** `val_to_json`. */
  function ValToJson(v: Val, ext: External): Json {
    if v.List? then Array(AllToJson(v.elems, ext))
    else if v.Tuple? then Array(AllToJson(v.items, ext))
    else if v.Record? then Object(MembersToJson(v.members, ext))
    else if v.Opt? then
      if v.opt.None? then Null else ValToJson(v.opt.value, ext)
    else ScalarToJson(v, ext)
  }

  function AllToJson(vs: seq<Val>, ext: External): seq<Json> {
    if vs == [] then [] else [ValToJson(vs[0], ext)] + AllToJson(vs[1..], ext)
  }

  /** Collecting pairs into an object: of two members with one name the later replaces the earlier. */
  function MembersToJson(vs: seq<Member>, ext: External): map<string, Json> {
    if vs == [] then map[] else map[vs[0].name := ValToJson(vs[0].val, ext)] + MembersToJson(vs[1..], ext)
  }

  function ScalarToJson(v: Val, ext: External): Json {
    match v
    case Bool(b) => Boolean(b)
    case S8(n) => Integer(n)
    case U8(n) => Integer(n)
    case S16(n) => Integer(n)
    case U16(n) => Integer(n)
    case S32(n) => Integer(n)
    case U32(n) => Integer(n)
    case S64(n) => Integer(n)
    case U64(n) => Integer(n)
    case Float32(_) => ext.liftFloat(v)
    case Float64(_) => ext.liftFloat(v)
    case Char(c) => Text([c])
    case Str(s) => Text(s)
    case Resource(_) => Object(map["$resource" := Boolean(true)])
    case _ => Text(ext.debug(v))
  }

  // Lowering

  /** `json_to_val`. */
  function JsonToVal(ty: Type, j: Json, ext: External): Result<Val, LowerError>
    decreases ty, 0
  {
    if ty.List? then
      if !j.Array? then Err(Expected("array for list"))
      else match AllToVal(ty.elem, j.items, ext)
        case Err(e) => Err(e)
        case Ok(vs) => Ok(Val.List(vs))
    else if ty.Record? then
      if !j.Object? then Err(Expected("object for record"))
      else match FieldsToVal(ty.fields, j.entries, ext)
        case Err(e) => Err(e)
        case Ok(vs) => Ok(Val.Record(vs))
    else if ty.Tuple? then
      if !j.Array? then Err(Expected("array for tuple"))
      else if |ty.types| != |j.items| then Err(WrongArity(|ty.types|, |j.items|))
      else match ItemsToVal(ty.types, j.items, ext)
        case Err(e) => Err(e)
        case Ok(vs) => Ok(Val.Tuple(vs))
    else if ty.Opt? then
      if j.Null? then Ok(Val.Opt(None))
      else match JsonToVal(ty.some, j, ext)
        case Err(e) => Err(e)
        case Ok(v) => Ok(Val.Opt(Some(v)))
    else if Leaf(ty) then JsonToScalar(ty, j, ext)
    else Err(UnsupportedType)
  }

  /** The first failure ends the list. */
  function AllToVal(elem: Type, items: seq<Json>, ext: External): Result<seq<Val>, LowerError>
    decreases elem, 1, |items|
  {
    if items == [] then Ok([])
    else match JsonToVal(elem, items[0], ext)
      case Err(e) => Err(e)
      case Ok(v) =>
        match AllToVal(elem, items[1..], ext)
        case Err(e) => Err(e)
        case Ok(vs) => Ok([v] + vs)
  }

  /** Every declared field is looked up by name; entries nobody declared are ignored. */
  function FieldsToVal(fields: seq<Field>, entries: map<string, Json>, ext: External): Result<seq<Member>, LowerError>
    decreases fields, 1
  {
    if fields == [] then Ok([])
    else if fields[0].name !in entries then Err(MissingField(fields[0].name))
    else match JsonToVal(fields[0].ty, entries[fields[0].name], ext)
      case Err(e) => Err(e)
      case Ok(v) =>
        match FieldsToVal(fields[1..], entries, ext)
        case Err(e) => Err(e)
        case Ok(vs) => Ok([Member(fields[0].name, v)] + vs)
  }

  function ItemsToVal(types: seq<Type>, items: seq<Json>, ext: External): Result<seq<Val>, LowerError>
    decreases types, 1
  {
    if types == [] || items == [] then Ok([])
    else match JsonToVal(types[0], items[0], ext)
      case Err(e) => Err(e)
      case Ok(v) =>
        match ItemsToVal(types[1..], items[1..], ext)
        case Err(e) => Err(e)
        case Ok(vs) => Ok([v] + vs)
  }

  function SignedVal(j: Json, wrap: i64 -> Val): Result<Val, LowerError> {
    match AsI64(j)
    case None => Err(Expected("integer"))
    case Some(n) => Ok(wrap(n))
  }

  function UnsignedVal(j: Json, wrap: u64 -> Val): Result<Val, LowerError> {
    match AsU64(j)
    case None => Err(Expected("unsigned integer"))
    case Some(n) => Ok(wrap(n))
  }

  function JsonToScalar(ty: Type, j: Json, ext: External): Result<Val, LowerError>
    requires Leaf(ty)
  {
    match ty
    case Bool => if j.Boolean? then Ok(Val.Bool(j.b)) else Err(Expected("boolean"))
    case S8 => SignedVal(j, (n: i64) => Val.S8(WrapS(n, 0x80)))
    case U8 => UnsignedVal(j, (n: u64) => Val.U8(WrapU(n, TWO_8)))
    case S16 => SignedVal(j, (n: i64) => Val.S16(WrapS(n, 0x8000)))
    case U16 => UnsignedVal(j, (n: u64) => Val.U16(WrapU(n, TWO_16)))
    case S32 => SignedVal(j, (n: i64) => Val.S32(WrapS(n, 0x8000_0000)))
    case U32 => UnsignedVal(j, (n: u64) => Val.U32(WrapU(n, TWO_32)))
    case S64 => SignedVal(j, (n: i64) => Val.S64(n))
    case U64 => UnsignedVal(j, (n: u64) => Val.U64(n))
    case Float32 => ext.lowerFloat(ty, j)
    case Float64 => ext.lowerFloat(ty, j)
    case Char =>
      if !j.Text? then Err(Expected("string for char"))
      else if |j.s| == 1 then Ok(Val.Char(j.s[0])) else Err(NotOneCharacter)
    case Str => if j.Text? then Ok(Val.Str(j.s)) else Err(Expected("string"))
    case _ => Err(UnsupportedType)
  }

  /** `convert_args`: one argument per parameter left after skipping. */
  function ConvertArgs(types: seq<Type>, skip: nat, args: seq<Json>, ext: External): Result<seq<Val>, LowerError> {
    var rest := if skip <= |types| then types[skip..] else [];
    if |rest| != |args| then Err(WrongArity(|rest|, |args|)) else ItemsToVal(rest, args, ext)
  }

  // The round trip

  /** The types whose values survive the bridge: booleans, integers, characters, strings, lists, tuples, records, options. */
  ghost predicate JsonType(ty: Type) {
    if ty.List? then JsonType(ty.elem)
    else if ty.Record? then
      && Distinct(FieldNames(ty.fields))
      && forall i | 0 <= i < |ty.fields| :: JsonType(ty.fields[i].ty)
    else if ty.Tuple? then forall i | 0 <= i < |ty.types| :: JsonType(ty.types[i])
    else if ty.Opt? then JsonType(ty.some)
    else JsonScalar(ty)
  }

  predicate JsonScalar(ty: Type) {
    ty in {Type.Bool, Type.S8, Type.U8, Type.S16, Type.U16, Type.S32, Type.U32, Type.S64, Type.U64, Type.Char, Type.Str}
  }

  /** The values of such a type, of any length. */
  ghost predicate Bridged(ty: Type, v: Val)
    decreases ty
  {
    if ty.List? then v.List? && forall i | 0 <= i < |v.elems| :: Bridged(ty.elem, v.elems[i])
    else if ty.Record? then
      && v.Record?
      && |v.members| == |ty.fields|
      && forall i | 0 <= i < |ty.fields| :: v.members[i].name == ty.fields[i].name && Bridged(ty.fields[i].ty, v.members[i].val)
    else if ty.Tuple? then
      v.Tuple? && |v.items| == |ty.types| && forall i | 0 <= i < |ty.types| :: Bridged(ty.types[i], v.items[i])
    else if ty.Opt? then v.Opt? && (v.opt.Some? ==> Bridged(ty.some, v.opt.value))
    else JsonScalar(ty) && BridgedScalar(ty, v)
  }

  predicate BridgedScalar(ty: Type, v: Val)
    requires JsonScalar(ty)
  {
    match ty
    case Bool => v.Bool?
    case S8 => v.S8?
    case U8 => v.U8?
    case S16 => v.S16?
    case U16 => v.U16?
    case S32 => v.S32?
    case U32 => v.U32?
    case S64 => v.S64?
    case U64 => v.U64?
    case Char => v.Char?
    case Str => v.Str?
  }

  /** Every well-typed value of a bridged type is covered. */
  lemma {:induction false} WellTypedBridged(ty: Type, v: Val)
    requires JsonType(ty) && WellTyped(ty, v)
    ensures Bridged(ty, v)
    decreases ty
  {
    if ty.List? {
      forall i | 0 <= i < |v.elems| ensures Bridged(ty.elem, v.elems[i]) { WellTypedBridged(ty.elem, v.elems[i]); }
    } else if ty.Record? {
      forall i | 0 <= i < |ty.fields| ensures Bridged(ty.fields[i].ty, v.members[i].val) {
        WellTypedBridged(ty.fields[i].ty, v.members[i].val);
      }
    } else if ty.Tuple? {
      forall i | 0 <= i < |ty.types| ensures Bridged(ty.types[i], v.items[i]) { WellTypedBridged(ty.types[i], v.items[i]); }
    } else if ty.Opt? {
      if v.opt.Some? { WellTypedBridged(ty.some, v.opt.value); }
    }
  }

  /** `v` with every absent option directly inside an option merged into one absent option. */
  function Collapse(v: Val): Val {
    if v.List? then Val.List(CollapseAll(v.elems))
    else if v.Tuple? then Val.Tuple(CollapseAll(v.items))
    else if v.Record? then Val.Record(CollapseMembers(v.members))
    else if v.Opt? && v.opt.Some? then
      var inner := Collapse(v.opt.value);
      if inner == Val.Opt(None) then inner else Val.Opt(Some(inner))
    else v
  }

  function CollapseAll(vs: seq<Val>): (r: seq<Val>)
    ensures |r| == |vs|
  {
    if vs == [] then [] else [Collapse(vs[0])] + CollapseAll(vs[1..])
  }

  function CollapseMembers(vs: seq<Member>): (r: seq<Member>)
    ensures |r| == |vs|
  {
    if vs == [] then [] else [Member(vs[0].name, Collapse(vs[0].val))] + CollapseMembers(vs[1..])
  }

  /** Only an absent option, however deep, is lifted to null. */
  lemma {:induction false} NullIsCollapsedNone(ty: Type, v: Val, ext: External)
    requires JsonType(ty) && Bridged(ty, v)
    ensures ValToJson(v, ext) == Null <==> Collapse(v) == Val.Opt(None)
    decreases ty
  {
    if ty.Opt? && v.opt.Some? {
      NullIsCollapsedNone(ty.some, v.opt.value, ext);
    }
  }

  /** Lifting and lowering again gives back the value, up to the collapse of nested absent options. */
  lemma {:induction false} JsonRoundTrip(ty: Type, v: Val, ext: External)
    requires JsonType(ty) && Bridged(ty, v)
    ensures JsonToVal(ty, ValToJson(v, ext), ext) == Ok(Collapse(v))
    decreases ty, 0
  {
    if ty.List? {
      ListJsonRoundTrip(ty.elem, v.elems, ext);
    } else if ty.Record? {
      assert MemberNames(v.members) == FieldNames(ty.fields);
      MembersFound(v.members, ext);
      RecordJsonRoundTrip(ty.fields, v.members, MembersToJson(v.members, ext), ext);
    } else if ty.Tuple? {
      TupleJsonRoundTrip(ty.types, v.items, ext);
    } else if ty.Opt? {
      if v.opt.Some? {
        NullIsCollapsedNone(ty.some, v.opt.value, ext);
        JsonRoundTrip(ty.some, v.opt.value, ext);
      }
    } else {
      ScalarJsonRoundTrip(ty, v, ext);
    }
  }

  lemma ScalarJsonRoundTrip(ty: Type, v: Val, ext: External)
    requires JsonScalar(ty) && BridgedScalar(ty, v)
    ensures JsonToScalar(ty, ScalarToJson(v, ext), ext) == Ok(v)
  {
  }

  lemma {:induction false} ListJsonRoundTrip(elem: Type, vs: seq<Val>, ext: External)
    requires JsonType(elem) && forall i | 0 <= i < |vs| :: Bridged(elem, vs[i])
    ensures AllToVal(elem, AllToJson(vs, ext), ext) == Ok(CollapseAll(vs))
    decreases elem, 1, |vs|
  {
    if vs != [] {
      JsonRoundTrip(elem, vs[0], ext);
      ListJsonRoundTrip(elem, vs[1..], ext);
    }
  }

  lemma {:induction false} TupleJsonRoundTrip(types: seq<Type>, vs: seq<Val>, ext: External)
    requires JsonType(Type.Tuple(types)) && Bridged(Type.Tuple(types), Val.Tuple(vs))
    ensures |AllToJson(vs, ext)| == |types|
    ensures ItemsToVal(types, AllToJson(vs, ext), ext) == Ok(CollapseAll(vs))
    decreases types, 1
  {
    if types != [] {
      JsonRoundTrip(types[0], vs[0], ext);
      TupleJsonRoundTrip(types[1..], vs[1..], ext);
    }
  }

  /** Each member is found under its own name in any object that holds all of them. */
  lemma {:induction false} RecordJsonRoundTrip(fields: seq<Field>, vs: seq<Member>, entries: map<string, Json>,
                                               ext: External)
    requires JsonType(Type.Record(fields)) && Bridged(Type.Record(fields), Val.Record(vs))
    requires forall i | 0 <= i < |vs| :: vs[i].name in entries && entries[vs[i].name] == ValToJson(vs[i].val, ext)
    ensures FieldsToVal(fields, entries, ext) == Ok(CollapseMembers(vs))
    decreases fields, 1
  {
    if fields != [] {
      assert FieldNames(fields[1..]) == FieldNames(fields)[1..];
      JsonRoundTrip(fields[0].ty, vs[0].val, ext);
      RecordJsonRoundTrip(fields[1..], vs[1..], entries, ext);
    }
  }

  lemma {:induction false} MembersFound(vs: seq<Member>, ext: External)
    requires Distinct(MemberNames(vs))
    ensures forall i | 0 <= i < |vs| ::
              vs[i].name in MembersToJson(vs, ext) && MembersToJson(vs, ext)[vs[i].name] == ValToJson(vs[i].val, ext)
    ensures forall n | n in MembersToJson(vs, ext) :: exists i :: 0 <= i < |vs| && vs[i].name == n
  {
    if vs != [] {
      var tail, names := vs[1..], MemberNames(vs);
      assert MemberNames(tail) == names[1..];
      MembersFound(tail, ext);
      forall i | 0 <= i < |tail| ensures tail[i].name != vs[0].name {
        assert names[0] != names[i + 1] == tail[i].name;
      }
      assert vs[0].name !in MembersToJson(tail, ext);
      forall i | 0 <= i < |vs|
        ensures vs[i].name in MembersToJson(vs, ext) && MembersToJson(vs, ext)[vs[i].name] == ValToJson(vs[i].val, ext)
      {
        if i > 0 { assert tail[i - 1] == vs[i]; }
      }
    }
  }

  /** Nowhere does an option hold an absent option. */
  ghost predicate NoNestedNone(v: Val) {
    if v.List? then forall i | 0 <= i < |v.elems| :: NoNestedNone(v.elems[i])
    else if v.Tuple? then forall i | 0 <= i < |v.items| :: NoNestedNone(v.items[i])
    else if v.Record? then forall i | 0 <= i < |v.members| :: NoNestedNone(v.members[i].val)
    else if v.Opt? && v.opt.Some? then v.opt.value != Val.Opt(None) && NoNestedNone(v.opt.value)
    else true
  }

  /** The collapse changes nothing exactly when there is no absent option inside an option. */
  lemma {:induction false} CollapseIsIdentity(v: Val)
    ensures Collapse(v) == v <==> NoNestedNone(v)
    decreases v
  {
    if v.List? {
      CollapseAllIsIdentity(v.elems);
    } else if v.Tuple? {
      CollapseAllIsIdentity(v.items);
    } else if v.Record? {
      CollapseMembersIsIdentity(v.members);
    } else if v.Opt? && v.opt.Some? {
      CollapseIsIdentity(v.opt.value);
    }
  }

  lemma {:induction false} CollapseAllIsIdentity(vs: seq<Val>)
    ensures CollapseAll(vs) == vs <==> forall i | 0 <= i < |vs| :: NoNestedNone(vs[i])
    decreases vs
  {
    if vs != [] {
      CollapseIsIdentity(vs[0]);
      CollapseAllIsIdentity(vs[1..]);
      CollapseAllSplits(vs);
      NoNestedSplits(vs);
    }
  }

  lemma CollapseAllSplits(vs: seq<Val>)
    requires vs != []
    ensures CollapseAll(vs) == vs <==> Collapse(vs[0]) == vs[0] && CollapseAll(vs[1..]) == vs[1..]
  {
    HeadAndTail(CollapseAll(vs), vs);
    assert CollapseAll(vs)[1..] == CollapseAll(vs[1..]);
  }

  lemma HeadAndTail<T>(a: seq<T>, b: seq<T>)
    requires a != [] && b != []
    ensures a == b <==> a[0] == b[0] && a[1..] == b[1..]
  {
    assert a == [a[0]] + a[1..] && b == [b[0]] + b[1..];
  }

  lemma NoNestedSplits(vs: seq<Val>)
    requires vs != []
    ensures (forall i | 0 <= i < |vs| :: NoNestedNone(vs[i]))
       <==> NoNestedNone(vs[0]) && forall i | 0 <= i < |vs[1..]| :: NoNestedNone(vs[1..][i])
  {
    assert forall i | 0 <= i < |vs[1..]| :: vs[1..][i] == vs[i + 1];
    assert forall i | 0 < i < |vs| :: vs[i] == vs[1..][i - 1];
  }

  lemma {:induction false} CollapseMembersIsIdentity(vs: seq<Member>)
    ensures CollapseMembers(vs) == vs <==> forall i | 0 <= i < |vs| :: NoNestedNone(vs[i].val)
    decreases vs
  {
    if vs != [] {
      CollapseIsIdentity(vs[0].val);
      CollapseMembersIsIdentity(vs[1..]);
      CollapseMembersSplits(vs);
      NoNestedMembersSplits(vs);
    }
  }

  lemma CollapseMembersSplits(vs: seq<Member>)
    requires vs != []
    ensures CollapseMembers(vs) == vs <==> Collapse(vs[0].val) == vs[0].val && CollapseMembers(vs[1..]) == vs[1..]
  {
    HeadAndTail(CollapseMembers(vs), vs);
    assert CollapseMembers(vs)[0] == Member(vs[0].name, Collapse(vs[0].val));
    assert CollapseMembers(vs)[1..] == CollapseMembers(vs[1..]);
  }

  lemma NoNestedMembersSplits(vs: seq<Member>)
    requires vs != []
    ensures (forall i | 0 <= i < |vs| :: NoNestedNone(vs[i].val))
       <==> NoNestedNone(vs[0].val) && forall i | 0 <= i < |vs[1..]| :: NoNestedNone(vs[1..][i].val)
  {
    assert forall i | 0 <= i < |vs[1..]| :: vs[1..][i] == vs[i + 1];
    assert forall i | 0 < i < |vs| :: vs[i] == vs[1..][i - 1];
  }

  /** The bridge gives a value back unchanged if and only if no option in it holds an absent option. */
  lemma JsonIdentity(ty: Type, v: Val, ext: External)
    requires JsonType(ty) && WellTyped(ty, v)
    ensures JsonToVal(ty, ValToJson(v, ext), ext) == Ok(v) <==> NoNestedNone(v)
  {
    WellTypedBridged(ty, v);
    JsonRoundTrip(ty, v, ext);
    CollapseIsIdentity(v);
  }

  /** Whatever the page sends, a value lowered from it has the type asked for, with no nested absent option. */
  lemma {:induction false} LoweredIsBridged(ty: Type, j: Json, ext: External)
    requires JsonType(ty) && JsonToVal(ty, j, ext).Ok?
    ensures var v := JsonToVal(ty, j, ext).value;
            Bridged(ty, v) && NoNestedNone(v) && (v == Val.Opt(None) ==> j == Null)
    decreases ty, 0
  {
    if ty.List? {
      ListLoweredIsBridged(ty.elem, j.items, ext);
    } else if ty.Record? {
      RecordLoweredIsBridged(ty.fields, j.entries, ext);
    } else if ty.Tuple? {
      TupleLoweredIsBridged(ty.types, j.items, ext);
    } else if ty.Opt? {
      if !j.Null? { LoweredIsBridged(ty.some, j, ext); }
    } else {
      ScalarLoweredIsBridged(ty, j, ext);
    }
  }

  lemma ScalarLoweredIsBridged(ty: Type, j: Json, ext: External)
    requires JsonScalar(ty) && JsonToScalar(ty, j, ext).Ok?
    ensures BridgedScalar(ty, JsonToScalar(ty, j, ext).value)
  {
  }

  lemma {:induction false} ListLoweredIsBridged(elem: Type, items: seq<Json>, ext: External)
    requires JsonType(elem) && AllToVal(elem, items, ext).Ok?
    ensures var vs := AllToVal(elem, items, ext).value;
            |vs| == |items| && forall i | 0 <= i < |vs| :: Bridged(elem, vs[i]) && NoNestedNone(vs[i])
    decreases elem, 1, |items|
  {
    if items != [] {
      LoweredIsBridged(elem, items[0], ext);
      ListLoweredIsBridged(elem, items[1..], ext);
    }
  }

  lemma {:induction false} RecordLoweredIsBridged(fields: seq<Field>, entries: map<string, Json>, ext: External)
    requires forall i | 0 <= i < |fields| :: JsonType(fields[i].ty)
    requires FieldsToVal(fields, entries, ext).Ok?
    ensures var vs := FieldsToVal(fields, entries, ext).value;
            && |vs| == |fields|
            && forall i | 0 <= i < |fields| ::
                 vs[i].name == fields[i].name && Bridged(fields[i].ty, vs[i].val) && NoNestedNone(vs[i].val)
    decreases fields, 1
  {
    if fields != [] {
      LoweredIsBridged(fields[0].ty, entries[fields[0].name], ext);
      RecordLoweredIsBridged(fields[1..], entries, ext);
    }
  }

  lemma {:induction false} TupleLoweredIsBridged(types: seq<Type>, items: seq<Json>, ext: External)
    requires JsonType(Type.Tuple(types)) && |items| == |types| && ItemsToVal(types, items, ext).Ok?
    ensures var vs := ItemsToVal(types, items, ext).value;
            Bridged(Type.Tuple(types), Val.Tuple(vs)) && forall i | 0 <= i < |vs| :: NoNestedNone(vs[i])
    decreases types, 1
  {
    if types != [] {
      LoweredIsBridged(types[0], items[0], ext);
      TupleLoweredIsBridged(types[1..], items[1..], ext);
    }
  }

  /** What has been lowered once goes round unchanged: extra entries, fractions and large numbers are gone for good. */
  lemma LoweringIsIdempotent(ty: Type, j: Json, ext: External)
    requires JsonType(ty) && JsonToVal(ty, j, ext).Ok?
    ensures var v := JsonToVal(ty, j, ext).value; JsonToVal(ty, ValToJson(v, ext), ext) == Ok(v)
  {
    LoweredIsBridged(ty, j, ext);
    var v := JsonToVal(ty, j, ext).value;
    JsonRoundTrip(ty, v, ext);
    CollapseIsIdentity(v);
  }

  /** The arguments of a call that were lifted from well-typed values are lowered to those values, collapsed. */
  lemma ArgumentsArrive(types: seq<Type>, skip: nat, args: seq<Val>, ext: External)
    requires skip <= |types| && |args| == |types| - skip
    requires forall i | 0 <= i < |args| :: JsonType(types[skip + i]) && WellTyped(types[skip + i], args[i])
    ensures ConvertArgs(types, skip, AllToJson(args, ext), ext) == Ok(CollapseAll(args))
  {
    var rest := types[skip..];
    forall i | 0 <= i < |args| ensures Bridged(rest[i], args[i]) { WellTypedBridged(rest[i], args[i]); }
    TupleJsonRoundTrip(rest, args, ext);
  }
}
