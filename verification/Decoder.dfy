/** The type-directed decoder: `read_value` and the function it computes on the bytes still to come. */
module Decoder {
  import opened Wrappers
  import opened Bits
  import opened Leb128
  import opened Utf8
  import opened Values
  import opened Flags

  function Dec(ty: Type, s: bytes): (r: Read<Val>)
    ensures r.Got? ==> r.used <= |s|
    decreases ty, 0
  {
    if Leaf(ty) then DecLeaf(ty, s)
    else match ty
      case List(elem) =>
        (match ReadU(32, s)
         case Fail(e) => Fail(e)
         case Got(n, used) =>
           match DecList(elem, n, s[used..])
           case Fail(e) => Fail(e)
           case Got(vs, more) => Got(Val.List(vs), used + more))
      case Record(fields) =>
        (match DecRecord(fields, s)
         case Fail(e) => Fail(e)
         case Got(vs, used) => Got(Val.Record(vs), used))
      case Tuple(types) =>
        (match DecTuple(types, s)
         case Fail(e) => Fail(e)
         case Got(vs, used) => Got(Val.Tuple(vs), used))
      case Variant(cases) => DecVariant(cases, s)
      case Opt(some) =>
        (match ReadStatus(s)
         case Fail(e) => Fail(e)
         case Got(present, _) =>
           if !present then Got(Val.Opt(None), 1)
           else match Dec(some, s[1..])
             case Fail(e) => Fail(e)
             case Got(v, used) => Got(Val.Opt(Some(v)), 1 + used))
      case Res(ok, err) =>
        (match ReadStatus(s)
         case Fail(e) => Fail(e)
         case Got(failed, _) =>
           match DecArm(if failed then err else ok, s[1..])
           case Fail(e) => Fail(e)
           case Got(v, used) => Got(if failed then Val.ResErr(v) else Val.ResOk(v), 1 + used))
  }

  function DecVariant(cases: seq<Case>, s: bytes): (r: Read<Val>)
    ensures r.Got? ==> r.used <= |s|
    decreases cases, 1
  {
    match ReadU(32, s)
    case Fail(e) => Fail(e)
    case Got(i, used) =>
      if i >= |cases| then Fail(UnknownDiscriminant(i))
      else match cases[i].ty
        case None => Got(Val.Variant(cases[i].name, None), used)
        case Some(t) =>
          match Dec(t, s[used..])
          case Fail(e) => Fail(e)
          case Got(v, more) => Got(Val.Variant(cases[i].name, Some(v)), used + more)
  }

  function DecArm(ty: Option<Type>, s: bytes): (r: Read<Option<Val>>)
    ensures r.Got? ==> r.used <= |s|
    decreases ty, 1
  {
    match ty
    case None => Got(None, 0)
    case Some(t) =>
      match Dec(t, s)
      case Fail(e) => Fail(e)
      case Got(v, used) => Got(Some(v), used)
  }

  function DecList(elem: Type, n: nat, s: bytes): (r: Read<seq<Val>>)
    ensures r.Got? ==> r.used <= |s| && |r.value| == n
    decreases elem, 1, n
  {
    if n == 0 then Got([], 0)
    else match Dec(elem, s)
      case Fail(e) => Fail(e)
      case Got(v, used) =>
        match DecList(elem, n - 1, s[used..])
        case Fail(e) => Fail(e)
        case Got(vs, more) => Got([v] + vs, used + more)
  }

  function DecRecord(fields: seq<Field>, s: bytes): (r: Read<seq<Member>>)
    ensures r.Got? ==> r.used <= |s| && |r.value| == |fields|
    decreases fields, 1
  {
    if fields == [] then Got([], 0)
    else match Dec(fields[0].ty, s)
      case Fail(e) => Fail(e)
      case Got(v, used) =>
        match DecRecord(fields[1..], s[used..])
        case Fail(e) => Fail(e)
        case Got(vs, more) => Got([Member(fields[0].name, v)] + vs, used + more)
  }

  function DecTuple(types: seq<Type>, s: bytes): (r: Read<seq<Val>>)
    ensures r.Got? ==> r.used <= |s| && |r.value| == |types|
    decreases types, 1
  {
    if types == [] then Got([], 0)
    else match Dec(types[0], s)
      case Fail(e) => Fail(e)
      case Got(v, used) =>
        match DecTuple(types[1..], s[used..])
        case Fail(e) => Fail(e)
        case Got(vs, more) => Got([v] + vs, used + more)
  }

  /** A boolean or status byte: 0 or 1, anything else is malformed. */
  function ReadStatus(s: bytes): (r: Read<bool>)
    ensures r.Got? ==> r.used == 1 <= |s|
  {
    if s == [] then Fail(UnexpectedEof)
    else if s[0] > 1 then Fail(InvalidData)
    else Got(s[0] == 1, 1)
  }

  /** `read_exact` into a buffer of `n` bytes. */
  function ReadExact(n: nat, s: bytes): (r: Read<bytes>)
    ensures r.Got? ==> r.used == n <= |s| && |r.value| == n
  {
    if |s| < n then Fail(UnexpectedEof) else Got(s[..n], n)
  }

  /** The signed reading of a byte. */
  function Signed(b: byte): i8 {
    if b < 128 then b as int else b as int - 256
  }

  function DecLeaf(ty: Type, s: bytes): (r: Read<Val>)
    requires Leaf(ty)
    ensures r.Got? ==> r.used <= |s|
  {
    match ty
    case Bool => (match ReadStatus(s) case Fail(e) => Fail(e) case Got(b, used) => Got(Val.Bool(b), used))
    case S8 => if s == [] then Fail(UnexpectedEof) else Got(Val.S8(Signed(s[0])), 1)
    case U8 => if s == [] then Fail(UnexpectedEof) else Got(Val.U8(s[0]), 1)
    case S16 => ReadSVal(16, s)
    case U16 => ReadUVal(16, s)
    case S32 => ReadSVal(32, s)
    case U32 => ReadUVal(32, s)
    case S64 => ReadSVal(64, s)
    case U64 => ReadUVal(64, s)
    case Float32 => ReadFloat(4, s)
    case Float64 => ReadFloat(8, s)
    case Char => (match ReadChar(s) case Fail(e) => Fail(e) case Got(c, used) => Got(Val.Char(c), used))
    case Str => (match ReadName(s) case Fail(e) => Fail(e) case Got(t, used) => Got(Val.Str(t), used))
    case Enum(names) =>
      (match ReadU(32, s)
       case Fail(e) => Fail(e)
       case Got(i, used) => if i < |names| then Got(Val.Enum(names[i]), used) else Fail(UnknownDiscriminant(i)))
    case Flags(names) =>
      (match ReadExact(Capacity(|names|), s)
       case Fail(e) => Fail(e)
       case Got(buf, used) => Got(Val.Flags(Select(names, buf, 0)), used))
    case Map(_, _) | Own | Borrow | Future | Stream | ErrorContext => Fail(Unsupported)
  }

  /** Whether `n` is in the range of the unsigned (or signed) integer type of `width` bits. */
  predicate FitsU(width: nat, n: int) {
    0 <= n < if width == 16 then TWO_16 else if width == 32 then TWO_32 else TWO_64
  }

  predicate FitsS(width: nat, n: int) {
    var half := if width == 16 then TWO_16 / 2 else if width == 32 then TWO_32 / 2 else TWO_64 / 2;
    -half <= n < half
  }

  lemma ReadUFits(width: nat, s: bytes)
    requires width == 16 || width == 32 || width == 64
    requires ReadU(width, s).Got?
    ensures FitsU(width, ReadU(width, s).value)
  {
    ReadUNormalises(width, s);
    Pow2Values();
  }

  lemma ReadSFits(width: nat, s: bytes)
    requires width == 16 || width == 32 || width == 64
    requires ReadS(width, s).Got?
    ensures FitsS(width, ReadS(width, s).value)
  {
    ReadSNormalises(width, s);
    Pow2Values();
  }

  function ReadUVal(width: nat, s: bytes): (r: Read<Val>)
    requires width == 16 || width == 32 || width == 64
    ensures r.Got? ==> 1 <= r.used <= |s|
  {
    match ReadU(width, s)
    case Fail(e) => Fail(e)
    case Got(n, used) =>
      ReadUFits(width, s);
      Got(if width == 16 then Val.U16(n) else if width == 32 then Val.U32(n) else Val.U64(n), used)
  }

  function ReadSVal(width: nat, s: bytes): (r: Read<Val>)
    requires width == 16 || width == 32 || width == 64
    ensures r.Got? ==> 1 <= r.used <= |s|
  {
    match ReadS(width, s)
    case Fail(e) => Fail(e)
    case Got(n, used) =>
      ReadSFits(width, s);
      Got(if width == 16 then Val.S16(n) else if width == 32 then Val.S32(n) else Val.S64(n), used)
  }

  lemma FloatFits(b: bytes)
    requires |b| == 4 || |b| == 8
    ensures FromLeBytes(b) < if |b| == 4 then TWO_32 else TWO_64
  {
    FromLeBytesRoundTrip(b);
    Pow2Values();
  }

  function ReadFloat(size: nat, s: bytes): (r: Read<Val>)
    requires size == 4 || size == 8
    ensures r.Got? ==> r.used == size <= |s|
  {
    match ReadExact(size, s)
    case Fail(e) => Fail(e)
    case Got(b, _) =>
      FloatFits(b);
      Got(if size == 4 then Val.Float32(FromLeBytes(b)) else Val.Float64(FromLeBytes(b)), size)
  }

  /** The byte stream, as the bytes not yet consumed. */
  class Reader {
    var rest: bytes

    constructor (input: bytes)
      ensures rest == input
    {
      rest := input;
    }

    /** Moves past `n` bytes that have just been read. */
    method Advance(n: nat)
      requires n <= |rest|
      modifies this
      ensures rest == old(rest)[n..]
    {
      rest := rest[n..];
    }
  }

  /** The caller's `&mut Val`. */
  class Place {
    var val: Val

    constructor ()
      ensures val == Val.Bool(false)
    {
      val := Val.Bool(false);
    }
  }

  /** How a read of `ty` from `before` may leave the stream. */
  ghost predicate Reads<T>(spec: Read<T>, before: bytes, after: bytes, err: Option<ReadError>) {
    match spec
    case Got(_, used) => err.None? && used <= |before| && after == before[used..]
    case Fail(e) => err == Some(e)
  }

  /**
   Reads one value of type `ty` into `place`. On success the stream has moved
   past exactly the bytes `Dec` accounts for; on failure the caller's value is
   the one it had, however deep the failure happened.
   */
  method ReadValue(r: Reader, place: Place, ty: Type) returns (err: Option<ReadError>)
    modifies r, place
    ensures Reads(Dec(ty, old(r.rest)), old(r.rest), r.rest, err)
    ensures err.None? ==> place.val == Dec(ty, old(r.rest)).value
    ensures err.Some? ==> place.val == old(place.val)
    decreases ty, 0
  {
    if ty.List? {
      var n := ReadU(32, r.rest);
      if n.Fail? {
        return Some(n.error);
      }
      r.Advance(n.used);
      var vs;
      vs, err := ReadElements(r, ty.elem, n.value);
      if err.None? {
        place.val := Val.List(vs);
      }
    } else if ty.Record? {
      var vs;
      vs, err := ReadFields(r, ty.fields);
      if err.None? {
        place.val := Val.Record(vs);
      }
    } else if ty.Tuple? {
      var vs;
      vs, err := ReadItems(r, ty.types);
      if err.None? {
        place.val := Val.Tuple(vs);
      }
    } else if ty.Variant? {
      err := ReadVariant(r, place, ty.cases);
    } else if ty.Opt? {
      var status := ReadStatus(r.rest);
      if status.Fail? {
        return Some(status.error);
      }
      r.Advance(1);
      if !status.value {
        place.val := Val.Opt(None);
        return None;
      }
      var inner := new Place();
      err := ReadValue(r, inner, ty.some);
      if err.None? {
        place.val := Val.Opt(Some(inner.val));
      }
    } else if ty.Res? {
      var status := ReadStatus(r.rest);
      if status.Fail? {
        return Some(status.error);
      }
      r.Advance(1);
      var v;
      v, err := ReadArm(r, if status.value then ty.err else ty.ok);
      if err.None? {
        place.val := if status.value then Val.ResErr(v) else Val.ResOk(v);
      }
    } else {
      var leaf := DecLeaf(ty, r.rest);
      if leaf.Fail? {
        return Some(leaf.error);
      }
      r.Advance(leaf.used);
      place.val := leaf.value;
      err := None;
    }
  }

  method ReadArm(r: Reader, ty: Option<Type>) returns (v: Option<Val>, err: Option<ReadError>)
    modifies r
    ensures Reads(DecArm(ty, old(r.rest)), old(r.rest), r.rest, err)
    ensures err.None? ==> v == DecArm(ty, old(r.rest)).value
    decreases ty, 1
  {
    if ty.None? {
      return None, None;
    }
    var place := new Place();
    err := ReadValue(r, place, ty.value);
    v := Some(place.val);
  }

  method ReadVariant(r: Reader, place: Place, cases: seq<Case>) returns (err: Option<ReadError>)
    modifies r, place
    ensures Reads(DecVariant(cases, old(r.rest)), old(r.rest), r.rest, err)
    ensures err.None? ==> place.val == DecVariant(cases, old(r.rest)).value
    ensures err.Some? ==> place.val == old(place.val)
    decreases cases, 1
  {
    var index := ReadU(32, r.rest);
    if index.Fail? {
      return Some(index.error);
    }
    r.Advance(index.used);
    if index.value >= |cases| {
      return Some(UnknownDiscriminant(index.value));
    }
    var case_ := cases[index.value];
    if case_.ty.None? {
      place.val := Val.Variant(case_.name, None);
      return None;
    }
    var inner := new Place();
    err := ReadValue(r, inner, case_.ty.value);
    if err.None? {
      place.val := Val.Variant(case_.name, Some(inner.val));
    }
  }

  /** What remains to be read completes what has been read into the total. */
  ghost predicate Continues<T>(total: Read<seq<T>>, done: seq<T>, seen: nat, todo: Read<seq<T>>) {
    match todo
    case Fail(e) => total == Fail(e)
    case Got(vs, used) => total == Got(done + vs, seen + used)
  }

  lemma ContinuesStart<T>(total: Read<seq<T>>)
    ensures Continues(total, [], 0, total)
  {
    if total.Got? { assert [] + total.value == total.value; }
  }

  /** Reading one more element moves it from what remains to what is done. */
  lemma ContinuesStep<T>(total: Read<seq<T>>, done: seq<T>, seen: nat, x: T, used: nat, todo: Read<seq<T>>)
    requires todo.Fail? ==> total == Fail(todo.error)
    requires todo.Got? ==> total == Got(done + ([x] + todo.value), seen + (used + todo.used))
    ensures Continues(total, done + [x], seen + used, todo)
  {
    if todo.Got? { assert done + ([x] + todo.value) == (done + [x]) + todo.value; }
  }

  /** With nothing left to read the total is done. */
  lemma ContinuesEnd<T>(total: Read<seq<T>>, done: seq<T>, seen: nat)
    requires Continues(total, done, seen, Got([], 0))
    ensures total == Got(done, seen)
  {
    assert done + [] == done;
  }

  /** A first element in front of the rest of a list. */
  function Joined(here: Read<Val>, rest: Read<seq<Val>>): Read<seq<Val>>
    requires here.Got?
  {
    match rest
    case Fail(e) => Fail(e)
    case Got(vs, more) => Got([here.value] + vs, here.used + more)
  }

  lemma DecListUnfolds(elem: Type, n: nat, s: bytes)
    requires n > 0
    ensures var here := Dec(elem, s);
            && (here.Fail? ==> DecList(elem, n, s) == Fail(here.error))
            && (here.Got? ==> DecList(elem, n, s) == Joined(here, DecList(elem, n - 1, s[here.used..])))
  {
  }

  lemma JoinedContinues(total: Read<seq<Val>>, done: seq<Val>, seen: nat, here: Read<Val>, rest: Read<seq<Val>>)
    requires here.Got? && Continues(total, done, seen, Joined(here, rest))
    ensures Continues(total, done + [here.value], seen + here.used, rest)
  {
    ContinuesStep(total, done, seen, here.value, here.used, rest);
  }

  lemma ListStep(elem: Type, n: nat, s: bytes, total: Read<seq<Val>>, vs: seq<Val>, past: bytes, now: bytes)
    requires n > 0 && Halfway(elem, n, s, total, vs, past)
    requires Dec(elem, s).Got? ==> |now| == |past| + Dec(elem, s).used
    ensures var here := Dec(elem, s);
            && (here.Fail? ==> total == Fail(here.error))
            && (here.Got? ==> Halfway(elem, n - 1, s[here.used..], total, vs + [here.value], now))
  {
    var here := Dec(elem, s);
    DecListUnfolds(elem, n, s);
    if here.Got? {
      JoinedContinues(total, vs, |past|, here, DecList(elem, n - 1, s[here.used..]));
    }
  }

  /** Cutting `s` moves its first bytes to those before it. */
  lemma Moved(past: bytes, s: bytes, used: nat)
    requires used <= |s|
    ensures past + s[..used] + s[used..] == past + s
  {
    assert s[..used] + s[used..] == s;
  }

  lemma RecordStep(fields: seq<Field>, s: bytes, total: Read<seq<Member>>, done: seq<Member>, seen: nat)
    requires fields != [] && Continues(total, done, seen, DecRecord(fields, s))
    ensures var here := Dec(fields[0].ty, s);
            && (here.Fail? ==> total == Fail(here.error))
            && (here.Got? ==>
                  Continues(total, done + [Member(fields[0].name, here.value)], seen + here.used,
                            DecRecord(fields[1..], s[here.used..])))
  {
    var here := Dec(fields[0].ty, s);
    if here.Got? {
      ContinuesStep(total, done, seen, Member(fields[0].name, here.value), here.used,
                    DecRecord(fields[1..], s[here.used..]));
    }
  }

  lemma TupleStep(types: seq<Type>, s: bytes, total: Read<seq<Val>>, done: seq<Val>, seen: nat)
    requires types != [] && Continues(total, done, seen, DecTuple(types, s))
    ensures var here := Dec(types[0], s);
            && (here.Fail? ==> total == Fail(here.error))
            && (here.Got? ==>
                  Continues(total, done + [here.value], seen + here.used, DecTuple(types[1..], s[here.used..])))
  {
    var here := Dec(types[0], s);
    if here.Got? { ContinuesStep(total, done, seen, here.value, here.used, DecTuple(types[1..], s[here.used..])); }
  }

  /** `rest` is what is left of `s` after its first `seen` bytes. */
  predicate Left(s: bytes, seen: nat, rest: bytes) {
    seen <= |s| && rest == s[seen..]
  }

  lemma LeftStep(s: bytes, seen: nat, rest: bytes, used: nat)
    requires Left(s, seen, rest) && used <= |rest|
    ensures Left(s, seen + used, rest[used..])
  {
  }

  /** One element, field or item, read into a place of its own. */
  method ReadNext(r: Reader, ty: Type) returns (v: Val, err: Option<ReadError>)
    modifies r
    ensures Reads(Dec(ty, old(r.rest)), old(r.rest), r.rest, err)
    ensures err.None? ==> v == Dec(ty, old(r.rest)).value
    decreases ty, 1
  {
    var place := new Place();
    err := ReadValue(r, place, ty);
    v := place.val;
  }

  /** With `vs` read from the bytes `past`, `left` elements are still to come, and reading them completes the total. */
  ghost predicate Halfway(elem: Type, left: nat, r: bytes, total: Read<seq<Val>>, vs: seq<Val>, past: bytes) {
    Continues(total, vs, |past|, DecList(elem, left, r))
  }

  /** One iteration: the next element moves the list on, or its error is that of the list. */
  method ReadElement(r: Reader, elem: Type, left: nat, ghost total: Read<seq<Val>>, ghost vs: seq<Val>, ghost past: bytes)
      returns (v: Val, err: Option<ReadError>, ghost now: bytes)
    requires left > 0 && Halfway(elem, left, r.rest, total, vs, past)
    modifies r
    ensures err.Some? ==> total == Fail(err.value)
    ensures err.None? ==> now + r.rest == past + old(r.rest) && Halfway(elem, left - 1, r.rest, total, vs + [v], now)
    decreases elem, 2
  {
    ghost var here := Dec(elem, r.rest);
    now := past;
    if here.Got? {
      now := past + r.rest[..here.used];
      Moved(past, r.rest, here.used);
    }
    ListStep(elem, left, r.rest, total, vs, past, now);
    v, err := ReadNext(r, elem);
  }

  method ReadElements(r: Reader, elem: Type, n: nat) returns (vs: seq<Val>, err: Option<ReadError>)
    modifies r
    ensures Reads(DecList(elem, n, old(r.rest)), old(r.rest), r.rest, err)
    ensures err.None? ==> vs == DecList(elem, n, old(r.rest)).value
    decreases elem, 3
  {
    vs := [];
    ghost var all, total, past: bytes := r.rest, DecList(elem, n, r.rest), [];
    ContinuesStart(total);
    var left := n;
    while left > 0
      invariant past + r.rest == all
      invariant Halfway(elem, left, r.rest, total, vs, past)
    {
      var v: Val;
      v, err, past := ReadElement(r, elem, left, total, vs, past);
      if err.Some? {
        return;
      }
      vs := vs + [v];
      left := left - 1;
    }
    ContinuesEnd(total, vs, |past|);
    err := None;
  }

  method ReadFields(r: Reader, fields: seq<Field>) returns (vs: seq<Member>, err: Option<ReadError>)
    modifies r
    ensures Reads(DecRecord(fields, old(r.rest)), old(r.rest), r.rest, err)
    ensures err.None? ==> vs == DecRecord(fields, old(r.rest)).value
    decreases fields, 2
  {
    vs := [];
    ghost var total, seen: nat := DecRecord(fields, r.rest), 0;
    ContinuesStart(total);
    for i := 0 to |fields|
      invariant Left(old(r.rest), seen, r.rest)
      invariant Continues(total, vs, seen, DecRecord(fields[i..], r.rest))
    {
      RecordStep(fields[i..], r.rest, total, vs, seen);
      assert fields[i..][1..] == fields[i + 1..];
      ghost var here, before := Dec(fields[i].ty, r.rest), r.rest;
      var v: Val;
      v, err := ReadNext(r, fields[i].ty);
      if err.Some? {
        return;
      }
      LeftStep(old(r.rest), seen, before, here.used);
      vs := vs + [Member(fields[i].name, v)];
      seen := seen + here.used;
    }
    ContinuesEnd(total, vs, seen);
    err := None;
  }

  method ReadItems(r: Reader, types: seq<Type>) returns (vs: seq<Val>, err: Option<ReadError>)
    modifies r
    ensures Reads(DecTuple(types, old(r.rest)), old(r.rest), r.rest, err)
    ensures err.None? ==> vs == DecTuple(types, old(r.rest)).value
    decreases types, 2
  {
    vs := [];
    ghost var total, seen: nat := DecTuple(types, r.rest), 0;
    ContinuesStart(total);
    for i := 0 to |types|
      invariant Left(old(r.rest), seen, r.rest)
      invariant Continues(total, vs, seen, DecTuple(types[i..], r.rest))
    {
      TupleStep(types[i..], r.rest, total, vs, seen);
      assert types[i..][1..] == types[i + 1..];
      ghost var here, before := Dec(types[i], r.rest), r.rest;
      var v: Val;
      v, err := ReadNext(r, types[i]);
      if err.Some? {
        return;
      }
      LeftStep(old(r.rest), seen, before, here.used);
      vs := vs + [v];
      seen := seen + here.used;
    }
    ContinuesEnd(total, vs, seen);
    err := None;
  }
}
