/**
 What a document means at a type, as a relation written without the functions
 that lower it, and the theorems that tie them to it.
 */
module Lowering {
  import opened Wrappers
  import opened Bits
  import opened Values
  import opened Json

  // The documents that mean something

  /**
   The page may send `j` for `ty`: every declared field is there, tuples have
   their length, and scalars are of their own kind of JSON.
   */
  ghost predicate Lowerable(ty: Type, j: Json, ext: External)
    decreases ty
  {
    if ty.List? then j.Array? && forall i | 0 <= i < |j.items| :: Lowerable(ty.elem, j.items[i], ext)
    else if ty.Record? then
      && j.Object?
      && forall i | 0 <= i < |ty.fields| ::
           ty.fields[i].name in j.entries && Lowerable(ty.fields[i].ty, j.entries[ty.fields[i].name], ext)
    else if ty.Tuple? then
      j.Array? && |j.items| == |ty.types| && forall i | 0 <= i < |ty.types| :: Lowerable(ty.types[i], j.items[i], ext)
    else if ty.Opt? then j.Null? || Lowerable(ty.some, j, ext)
    else LowerableScalar(ty, j, ext)
  }

  predicate LowerableScalar(ty: Type, j: Json, ext: External) {
    match ty
    case Bool => j.Boolean?
    case S8 | S16 | S32 | S64 | U8 | U16 | U32 | U64 => j.Integer? || j.Decimal?
    case Float32 | Float64 => ext.lowerFloat(ty, j).Ok?
    case Char => j.Text? && |j.s| == 1
    case Str => j.Text?
    case _ => false
  }

  // What they mean

  ghost predicate Denotes(ty: Type, j: Json, v: Val, ext: External)
    decreases ty
  {
    if ty.List? then
      && j.Array? && v.List? && |v.elems| == |j.items|
      && forall i | 0 <= i < |j.items| :: Denotes(ty.elem, j.items[i], v.elems[i], ext)
    else if ty.Record? then
      && j.Object? && v.Record? && |v.members| == |ty.fields|
      && forall i | 0 <= i < |ty.fields| :: DenotesMember(ty.fields[i], j.entries, v.members[i], ext)
    else if ty.Tuple? then
      && j.Array? && v.Tuple? && |ty.types| == |j.items| == |v.items|
      && forall i | 0 <= i < |ty.types| :: Denotes(ty.types[i], j.items[i], v.items[i], ext)
    else if ty.Opt? then
      v.Opt? && if j.Null? then v.opt.None? else v.opt.Some? && Denotes(ty.some, j, v.opt.value, ext)
    else DenotesScalar(ty, j, v, ext)
  }

  ghost predicate DenotesMember(field: Field, entries: map<string, Json>, m: Member, ext: External)
    decreases field
  {
    field.name in entries && m.name == field.name && Denotes(field.ty, entries[field.name], m.val, ext)
  }

  ghost predicate DenotesScalar(ty: Type, j: Json, v: Val, ext: External) {
    match ty
    case Bool => j.Boolean? && v == Val.Bool(j.b)
    case S8 => v.S8? && MeansSigned(j, v.s8, TWO_8)
    case S16 => v.S16? && MeansSigned(j, v.s16, TWO_16)
    case S32 => v.S32? && MeansSigned(j, v.s32, TWO_32)
    case S64 => v.S64? && MeansSigned(j, v.s64, TWO_64)
    case U8 => v.U8? && MeansUnsigned(j, v.u8, TWO_8)
    case U16 => v.U16? && MeansUnsigned(j, v.u16, TWO_16)
    case U32 => v.U32? && MeansUnsigned(j, v.u32, TWO_32)
    case U64 => v.U64? && MeansUnsigned(j, v.u64, TWO_64)
    case Float32 | Float64 => ext.lowerFloat(ty, j) == Ok(v)
    case Char => v.Char? && j == Text([v.scalar])
    case Str => v.Str? && j == Text(v.text)
    case _ => false
  }

  /** The whole number `t` is what a JSON number is without its fraction. */
  predicate IntegerPart(j: Json, t: int) {
    match j
    case Integer(i) => t == i
    case Decimal(d) =>
      if d >= 0.0 then t as real <= d < t as real + 1.0 else t as real - 1.0 < d <= t as real
    case _ => false
  }

  /** Of the numbers from `low` to `high`, `n` is nearest to `t`. */
  predicate Nearest(t: int, low: int, high: int, n: int) {
    low <= n <= high && (t > n ==> n == high) && (t < n ==> n == low)
  }

  /** `v` has the low bits of the 64-bit signed integer nearest to the number. */
  ghost predicate MeansSigned(j: Json, v: int, modulus: int)
    requires modulus > 0
  {
    exists t, n :: IntegerPart(j, t) && Nearest(t, -0x8000_0000_0000_0000, 0x7fff_ffff_ffff_ffff, n) && (n - v) % modulus == 0
  }

  ghost predicate MeansUnsigned(j: Json, v: int, modulus: int)
    requires modulus > 0
  {
    exists t, n :: IntegerPart(j, t) && Nearest(t, 0, 0xffff_ffff_ffff_ffff, n) && (n - v) % modulus == 0
  }

  // Numbers

  lemma TruncateIsPart(d: real, t: int)
    ensures IntegerPart(Decimal(d), t) <==> t == Truncate(d)
  {
  }

  lemma ClampNearest(t: int, low: int, high: int, n: int)
    requires low <= high
    ensures Nearest(t, low, high, n) <==> n == Clamp(t, low, high)
  {
  }

  /** The number a document holds, without its fraction. */
  lemma TheIntegerPart(j: Json) returns (t: int)
    requires j.Integer? || j.Decimal?
    ensures forall u :: IntegerPart(j, u) <==> u == t
    ensures AsI64(j) == Some(Clamp(t, I64_MIN, I64_MAX)) && AsU64(j) == Some(Clamp(t, 0, U64_MAX))
  {
    t := if j.Integer? then j.i else Truncate(j.d);
    if j.Decimal? {
      forall u ensures IntegerPart(j, u) <==> u == t { TruncateIsPart(j.d, u); }
    }
  }

  lemma SignedExactly(j: Json, v: int, modulus: int)
    requires modulus > 0
    ensures MeansSigned(j, v, modulus) <==> AsI64(j).Some? && (AsI64(j).value - v) % modulus == 0
  {
    if j.Integer? || j.Decimal? {
      var t := TheIntegerPart(j);
      forall n ensures Nearest(t, I64_MIN, I64_MAX, n) <==> n == Clamp(t, I64_MIN, I64_MAX) {
        ClampNearest(t, I64_MIN, I64_MAX, n);
      }
      assert IntegerPart(j, t) && Nearest(t, I64_MIN, I64_MAX, Clamp(t, I64_MIN, I64_MAX));
    }
  }

  lemma UnsignedExactly(j: Json, v: int, modulus: int)
    requires modulus > 0
    ensures MeansUnsigned(j, v, modulus) <==> AsU64(j).Some? && (AsU64(j).value - v) % modulus == 0
  {
    if j.Integer? || j.Decimal? {
      var t := TheIntegerPart(j);
      forall n ensures Nearest(t, 0, U64_MAX, n) <==> n == Clamp(t, 0, U64_MAX) {
        ClampNearest(t, 0, U64_MAX, n);
      }
      assert IntegerPart(j, t) && Nearest(t, 0, U64_MAX, Clamp(t, 0, U64_MAX));
    }
  }

  lemma WrapUExactly(n: int, modulus: int, v: int)
    requires modulus > 0 && 0 <= v < modulus
    ensures (n - v) % modulus == 0 <==> v == WrapU(n, modulus)
  {
    var q := n / modulus;
    if (n - v) % modulus == 0 {
      Quotient(n, modulus, (n - v) / modulus, v);
    } else if v == n % modulus {
      Quotient(n - v, modulus, q, 0);
    }
  }

  lemma WrapSExactly(n: int, half: int, v: int)
    requires half in {0x80, 0x8000, 0x8000_0000} && -half <= v < half
    ensures (n - v) % (2 * half) == 0 <==> v == WrapS(n, half)
  {
    WrapUExactly(n + half, 2 * half, v + half);
  }

  lemma SignedWrapExactly(j: Json, half: int, v: int)
    requires half in {0x80, 0x8000, 0x8000_0000} && -half <= v < half
    ensures MeansSigned(j, v, 2 * half) <==> AsI64(j).Some? && v == WrapS(AsI64(j).value, half)
  {
    SignedExactly(j, v, 2 * half);
    if AsI64(j).Some? { WrapSExactly(AsI64(j).value, half, v); }
  }

  lemma UnsignedWrapExactly(j: Json, modulus: int, v: int)
    requires modulus > 0 && 0 <= v < modulus
    ensures MeansUnsigned(j, v, modulus) <==> AsU64(j).Some? && v == WrapU(AsU64(j).value, modulus)
  {
    UnsignedExactly(j, v, modulus);
    if AsU64(j).Some? { WrapUExactly(AsU64(j).value, modulus, v); }
  }

  lemma WideExactly(j: Json, v: int)
    ensures I64_MIN <= v <= I64_MAX ==> (MeansSigned(j, v, TWO_64) <==> AsI64(j) == Some(v))
    ensures 0 <= v <= U64_MAX ==> (MeansUnsigned(j, v, TWO_64) <==> AsU64(j) == Some(v))
  {
    SignedExactly(j, v, TWO_64);
    UnsignedExactly(j, v, TWO_64);
  }

  lemma SignedLowersExactly(ty: Type, j: Json, v: Val, ext: External)
    requires ty.S8? || ty.S16? || ty.S32?
    ensures JsonToScalar(ty, j, ext) == Ok(v) <==> DenotesScalar(ty, j, v, ext)
  {
    if ty.S8? {
      if v.S8? { SignedWrapExactly(j, 0x80, v.s8); }
    } else if ty.S16? {
      if v.S16? { SignedWrapExactly(j, 0x8000, v.s16); }
    } else {
      if v.S32? { SignedWrapExactly(j, 0x8000_0000, v.s32); }
    }
  }

  lemma UnsignedLowersExactly(ty: Type, j: Json, v: Val, ext: External)
    requires ty.U8? || ty.U16? || ty.U32?
    ensures JsonToScalar(ty, j, ext) == Ok(v) <==> DenotesScalar(ty, j, v, ext)
  {
    if ty.U8? {
      if v.U8? { UnsignedWrapExactly(j, TWO_8, v.u8); }
    } else if ty.U16? {
      if v.U16? { UnsignedWrapExactly(j, TWO_16, v.u16); }
    } else {
      if v.U32? { UnsignedWrapExactly(j, TWO_32, v.u32); }
    }
  }

  lemma WideLowersExactly(ty: Type, j: Json, v: Val, ext: External)
    requires ty.S64? || ty.U64?
    ensures JsonToScalar(ty, j, ext) == Ok(v) <==> DenotesScalar(ty, j, v, ext)
  {
    if v.S64? { WideExactly(j, v.s64); }
    if v.U64? { WideExactly(j, v.u64); }
  }

  lemma ScalarLowersExactly(ty: Type, j: Json, v: Val, ext: External)
    requires Leaf(ty)
    ensures JsonToScalar(ty, j, ext) == Ok(v) <==> DenotesScalar(ty, j, v, ext)
  {
    if ty.S8? || ty.S16? || ty.S32? {
      SignedLowersExactly(ty, j, v, ext);
    } else if ty.U8? || ty.U16? || ty.U32? {
      UnsignedLowersExactly(ty, j, v, ext);
    } else if ty.S64? || ty.U64? {
      WideLowersExactly(ty, j, v, ext);
    }
  }

  // Lowering is exact

  /** A document is lowered to `v` if and only if `v` is what it denotes. */
  lemma {:induction false} LowersExactly(ty: Type, j: Json, v: Val, ext: External)
    ensures JsonToVal(ty, j, ext) == Ok(v) <==> Denotes(ty, j, v, ext)
    decreases ty, 1
  {
    if ty.List? || ty.Tuple? {
      SequenceLowersExactly(ty, j, v, ext);
    } else if ty.Record? {
      ObjectLowersExactly(ty, j, v, ext);
    } else if ty.Opt? {
      OptionLowersExactly(ty, j, v, ext);
    } else if Leaf(ty) {
      ScalarLowersExactly(ty, j, v, ext);
    } else {
      NeverLowered(ty, j, v, ext);
    }
  }

  /** Variants and results cannot be sent. */
  lemma {:induction false} NeverLowered(ty: Type, j: Json, v: Val, ext: External)
    requires ty.Variant? || ty.Res?
    ensures JsonToVal(ty, j, ext) == Err(UnsupportedType) && !Denotes(ty, j, v, ext) && !Lowerable(ty, j, ext)
  {
  }

  lemma {:induction false} SequenceLowersExactly(ty: Type, j: Json, v: Val, ext: External)
    requires ty.List? || ty.Tuple?
    ensures JsonToVal(ty, j, ext) == Ok(v) <==> Denotes(ty, j, v, ext)
    decreases ty, 0
  {
    if ty.List? {
      if j.Array? && v.List? { ListLowersExactly(ty.elem, j.items, v.elems, ext); }
    } else {
      if j.Array? && v.Tuple? && |ty.types| == |j.items| { TupleLowersExactly(ty.types, j.items, v.items, ext); }
    }
  }

  lemma {:induction false} ObjectLowersExactly(ty: Type, j: Json, v: Val, ext: External)
    requires ty.Record?
    ensures JsonToVal(ty, j, ext) == Ok(v) <==> Denotes(ty, j, v, ext)
    decreases ty, 0
  {
    if j.Object? && v.Record? { RecordLowersExactly(ty.fields, j.entries, v.members, ext); }
  }

  lemma {:induction false} OptionLowersExactly(ty: Type, j: Json, v: Val, ext: External)
    requires ty.Opt?
    ensures JsonToVal(ty, j, ext) == Ok(v) <==> Denotes(ty, j, v, ext)
    decreases ty, 0
  {
    if !j.Null? && v.Opt? && v.opt.Some? { LowersExactly(ty.some, j, v.opt.value, ext); }
  }

  lemma {:induction false} ListLowersExactly(elem: Type, items: seq<Json>, vs: seq<Val>, ext: External)
    ensures AllToVal(elem, items, ext) == Ok(vs)
       <==> |vs| == |items| && forall i | 0 <= i < |items| :: Denotes(elem, items[i], vs[i], ext)
    decreases elem, 2, |items|
  {
    if items != [] && vs != [] {
      LowersExactly(elem, items[0], vs[0], ext);
      ListLowersExactly(elem, items[1..], vs[1..], ext);
      assert vs == [vs[0]] + vs[1..];
      assert forall i | 0 < i < |items| :: items[i] == items[1..][i - 1];
      assert forall i | 0 < i < |vs| :: vs[i] == vs[1..][i - 1];
    }
  }

  lemma {:induction false} RecordLowersExactly(fields: seq<Field>, entries: map<string, Json>, vs: seq<Member>,
                                               ext: External)
    ensures FieldsToVal(fields, entries, ext) == Ok(vs)
       <==> |vs| == |fields| && forall i | 0 <= i < |fields| :: DenotesMember(fields[i], entries, vs[i], ext)
    decreases fields, 1
  {
    if fields != [] && vs != [] {
      if fields[0].name in entries { LowersExactly(fields[0].ty, entries[fields[0].name], vs[0].val, ext); }
      RecordLowersExactly(fields[1..], entries, vs[1..], ext);
      assert vs == [vs[0]] + vs[1..];
      assert forall i | 0 < i < |fields| :: fields[i] == fields[1..][i - 1];
      assert forall i | 0 < i < |vs| :: vs[i] == vs[1..][i - 1];
    }
  }

  lemma {:induction false} TupleLowersExactly(types: seq<Type>, items: seq<Json>, vs: seq<Val>, ext: External)
    requires |types| == |items|
    ensures ItemsToVal(types, items, ext) == Ok(vs)
       <==> |vs| == |types| && forall i | 0 <= i < |types| :: Denotes(types[i], items[i], vs[i], ext)
    decreases types, 1
  {
    if types != [] && vs != [] {
      LowersExactly(types[0], items[0], vs[0], ext);
      TupleLowersExactly(types[1..], items[1..], vs[1..], ext);
      assert vs == [vs[0]] + vs[1..];
      assert forall i | 0 < i < |types| :: types[i] == types[1..][i - 1] && items[i] == items[1..][i - 1];
      assert forall i | 0 < i < |vs| :: vs[i] == vs[1..][i - 1];
    }
  }

  /** It is lowered at all if and only if the page may send it. */
  lemma {:induction false} LoweredWhen(ty: Type, j: Json, ext: External)
    ensures JsonToVal(ty, j, ext).Ok? <==> Lowerable(ty, j, ext)
    decreases ty, 0
  {
    if ty.List? {
      if j.Array? { ListLoweredWhen(ty.elem, j.items, ext); }
    } else if ty.Record? {
      if j.Object? { RecordLoweredWhen(ty.fields, j.entries, ext); }
    } else if ty.Tuple? {
      if j.Array? && |ty.types| == |j.items| { TupleLoweredWhen(ty.types, j.items, ext); }
    } else if ty.Opt? {
      if !j.Null? { LoweredWhen(ty.some, j, ext); }
    } else if Leaf(ty) {
      ScalarLoweredWhen(ty, j, ext);
    }
  }

  lemma ScalarLoweredWhen(ty: Type, j: Json, ext: External)
    requires Leaf(ty)
    ensures JsonToScalar(ty, j, ext).Ok? <==> LowerableScalar(ty, j, ext)
  {
  }

  lemma {:induction false} ListLoweredWhen(elem: Type, items: seq<Json>, ext: External)
    ensures AllToVal(elem, items, ext).Ok? <==> forall i | 0 <= i < |items| :: Lowerable(elem, items[i], ext)
    decreases elem, 1, |items|
  {
    if items != [] {
      LoweredWhen(elem, items[0], ext);
      ListLoweredWhen(elem, items[1..], ext);
      assert forall i | 0 < i < |items| :: items[i] == items[1..][i - 1];
    }
  }

  lemma {:induction false} RecordLoweredWhen(fields: seq<Field>, entries: map<string, Json>, ext: External)
    ensures FieldsToVal(fields, entries, ext).Ok?
       <==> forall i | 0 <= i < |fields| :: fields[i].name in entries && Lowerable(fields[i].ty, entries[fields[i].name], ext)
    decreases fields, 1
  {
    if fields != [] {
      if fields[0].name in entries { LoweredWhen(fields[0].ty, entries[fields[0].name], ext); }
      RecordLoweredWhen(fields[1..], entries, ext);
      assert forall i | 0 < i < |fields| :: fields[i] == fields[1..][i - 1];
    }
  }

  lemma {:induction false} TupleLoweredWhen(types: seq<Type>, items: seq<Json>, ext: External)
    requires |types| == |items|
    ensures ItemsToVal(types, items, ext).Ok? <==> forall i | 0 <= i < |types| :: Lowerable(types[i], items[i], ext)
    decreases types, 1
  {
    if types != [] {
      LoweredWhen(types[0], items[0], ext);
      TupleLoweredWhen(types[1..], items[1..], ext);
      assert forall i | 0 < i < |types| :: types[i] == types[1..][i - 1] && items[i] == items[1..][i - 1];
    }
  }

  // Refusals

  /** The first declared field that is missing or is refused gives the error of the record. */
  lemma {:induction false} FirstFieldRefused(fields: seq<Field>, entries: map<string, Json>, i: nat, ext: External)
    requires i < |fields| && FieldsToVal(fields[..i], entries, ext).Ok?
    ensures var name := fields[i].name;
            && (name !in entries ==> FieldsToVal(fields, entries, ext) == Err(MissingField(name)))
            && (name in entries && JsonToVal(fields[i].ty, entries[name], ext).Err? ==>
                  FieldsToVal(fields, entries, ext) == Err(JsonToVal(fields[i].ty, entries[name], ext).error))
    decreases i
  {
    if i > 0 {
      assert fields[..i][1..] == fields[1..][..i - 1];
      FirstFieldRefused(fields[1..], entries, i - 1, ext);
    }
  }

  lemma {:induction false} FirstItemRefused(types: seq<Type>, items: seq<Json>, i: nat, ext: External)
    requires i < |types| == |items| && ItemsToVal(types[..i], items[..i], ext).Ok? && JsonToVal(types[i], items[i], ext).Err?
    ensures ItemsToVal(types, items, ext) == Err(JsonToVal(types[i], items[i], ext).error)
    decreases i
  {
    if i > 0 {
      assert types[..i][1..] == types[1..][..i - 1] && items[..i][1..] == items[1..][..i - 1];
      FirstItemRefused(types[1..], items[1..], i - 1, ext);
    }
  }

  lemma {:induction false} FirstElementRefused(elem: Type, items: seq<Json>, i: nat, ext: External)
    requires i < |items| && AllToVal(elem, items[..i], ext).Ok? && JsonToVal(elem, items[i], ext).Err?
    ensures AllToVal(elem, items, ext) == Err(JsonToVal(elem, items[i], ext).error)
    decreases i
  {
    if i > 0 {
      assert items[..i][1..] == items[1..][..i - 1];
      FirstElementRefused(elem, items[1..], i - 1, ext);
    }
  }

  // Arguments

  /** The parameters that are left for the page. */
  function Remaining(types: seq<Type>, skip: nat): seq<Type> {
    if skip <= |types| then types[skip..] else []
  }

  /** The page may send these arguments: one for each parameter left, each for its own. */
  ghost predicate LowerableArguments(types: seq<Type>, skip: nat, args: seq<Json>, ext: External) {
    var rest := Remaining(types, skip);
    |args| == |rest| && forall i | 0 <= i < |rest| :: Lowerable(rest[i], args[i], ext)
  }

  ghost predicate DenoteArguments(types: seq<Type>, skip: nat, args: seq<Json>, vs: seq<Val>, ext: External) {
    var rest := Remaining(types, skip);
    |args| == |vs| == |rest| && forall i | 0 <= i < |rest| :: Denotes(rest[i], args[i], vs[i], ext)
  }

  /** Arguments convert exactly when the page may send them, and then to what they denote. */
  lemma ArgumentsExactly(types: seq<Type>, skip: nat, args: seq<Json>, ext: External)
    ensures var r := ConvertArgs(types, skip, args, ext);
            && (r.Ok? <==> LowerableArguments(types, skip, args, ext))
            && (r.Ok? ==> DenoteArguments(types, skip, args, r.value, ext))
  {
    var rest := Remaining(types, skip);
    if |args| == |rest| {
      TupleLoweredWhen(rest, args, ext);
      var r := ItemsToVal(rest, args, ext);
      if r.Ok? { TupleLowersExactly(rest, args, r.value, ext); }
    }
  }

  // Lifting

  /** What the page is shown of a value whose type survives the bridge. */
  ghost predicate Shows(v: Val, j: Json) {
    if v.List? then j.Array? && |j.items| == |v.elems| && forall i | 0 <= i < |v.elems| :: Shows(v.elems[i], j.items[i])
    else if v.Tuple? then j.Array? && |j.items| == |v.items| && forall i | 0 <= i < |v.items| :: Shows(v.items[i], j.items[i])
    else if v.Record? then
      && j.Object?
      && (forall n | n in j.entries :: exists i :: 0 <= i < |v.members| && v.members[i].name == n)
      && (forall i | 0 <= i < |v.members| ::
            v.members[i].name in j.entries && Shows(v.members[i].val, j.entries[v.members[i].name]))
    else if v.Opt? then if v.opt.None? then j.Null? else Shows(v.opt.value, j)
    else if v.Bool? then j == Boolean(v.flag)
    else if v.Char? then j == Text([v.scalar])
    else if v.Str? then j == Text(v.text)
    else j.Integer? && Number(v) == Some(j.i)
  }

  /** The number of an integer value. */
  function Number(v: Val): Option<int> {
    match v
    case S8(n) => Some(n)
    case U8(n) => Some(n)
    case S16(n) => Some(n)
    case U16(n) => Some(n)
    case S32(n) => Some(n)
    case U32(n) => Some(n)
    case S64(n) => Some(n)
    case U64(n) => Some(n)
    case _ => None
  }

  /** Every value of such a type is lifted to what shows it. */
  lemma {:induction false} LiftedShows(ty: Type, v: Val, ext: External)
    requires JsonType(ty) && Bridged(ty, v)
    ensures Shows(v, ValToJson(v, ext))
    decreases ty
  {
    if ty.List? {
      LiftedAt(v.elems, ext);
      forall i | 0 <= i < |v.elems| ensures Shows(v.elems[i], ValToJson(v.elems[i], ext)) {
        LiftedShows(ty.elem, v.elems[i], ext);
      }
    } else if ty.Tuple? {
      LiftedAt(v.items, ext);
      forall i | 0 <= i < |v.items| ensures Shows(v.items[i], ValToJson(v.items[i], ext)) {
        LiftedShows(ty.types[i], v.items[i], ext);
      }
    } else if ty.Record? {
      assert MemberNames(v.members) == FieldNames(ty.fields);
      MembersFound(v.members, ext);
      forall i | 0 <= i < |v.members| ensures Shows(v.members[i].val, ValToJson(v.members[i].val, ext)) {
        LiftedShows(ty.fields[i].ty, v.members[i].val, ext);
      }
    } else if ty.Opt? {
      if v.opt.Some? { LiftedShows(ty.some, v.opt.value, ext); }
    }
  }

  lemma {:induction false} LiftedAt(vs: seq<Val>, ext: External)
    ensures |AllToJson(vs, ext)| == |vs| && forall i | 0 <= i < |vs| :: AllToJson(vs, ext)[i] == ValToJson(vs[i], ext)
  {
    if vs != [] { LiftedAt(vs[1..], ext); }
  }
}
