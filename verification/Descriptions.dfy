/** What the page is told about a contract, and how that relates to what `call` accepts. */
module Descriptions {
  import opened Wrappers
  import opened Bits
  import opened Values
  import opened Json
  import opened MethodIdentity
  import opened Contracts
  import opened ContractRuns

  /** A function as the page sees it: its name, the label it is shown under, and its parameters with their kinds. */
  datatype Entry = Entry(name: string, shownAs: string, params: seq<(string, string)>)

  datatype Description = Description(constructors: seq<Entry>, methods: seq<Entry>, storage: Option<seq<(string, string)>>)

  /** `kind_str`. */
  function Kind(ty: Type): string {
    match ty
    case Bool => "bool"
    case S8 => "s8"
    case U8 => "u8"
    case S16 => "s16"
    case U16 => "u16"
    case S32 => "s32"
    case U32 => "u32"
    case S64 => "s64"
    case U64 => "u64"
    case Float32 => "f32"
    case Float64 => "f64"
    case Char => "char"
    case Str => "string"
    case _ => "json"
  }

  function Kinds(fields: seq<Field>): seq<(string, string)> {
    if fields == [] then [] else [(fields[0].name, Kind(fields[0].ty))] + Kinds(fields[1..])
  }

  /** `func_json`: the first `skip` parameters are not the page's to enter. */
  function EntryOf(f: Func, skip: nat): Entry {
    Entry(f.name, LastSegment(f.name), Kinds(if skip <= |f.params| then f.params[skip..] else []))
  }

  function Constructors(funcs: seq<Func>): seq<Entry> {
    if funcs == [] then []
    else
      var rest := Constructors(funcs[1..]);
      if IsConstructor(funcs[0].name) && funcs[0].mints then [EntryOf(funcs[0], 0)] + rest else rest
  }

  function Methods(funcs: seq<Func>): seq<Entry> {
    if funcs == [] then []
    else
      var rest := Methods(funcs[1..]);
      if IsMethod(funcs[0].name) && funcs[0].receiver then [EntryOf(funcs[0], 1)] + rest else rest
  }

  function DescribeInstance(utxo: UtxoExport): Description {
    Description(Constructors(utxo.funcs), Methods(utxo.funcs),
                if utxo.storage.None? then None else Some(Kinds(utxo.storage.value)))
  }

  /** `describe`: the instances among `names` that own a `utxo`. */
  function Describe(c: Component, names: seq<string>): seq<(string, Description)> {
    if names == [] then []
    else
      var rest := Describe(c, names[1..]);
      if names[0] in c.instances then [(names[0], DescribeInstance(c.instances[names[0]]))] + rest else rest
  }

  lemma {:induction false} KindsLength(fields: seq<Field>)
    ensures |Kinds(fields)| == |fields|
  {
    if fields != [] { KindsLength(fields[1..]); }
  }

  /** Every described constructor is a function of the instance, and every valid constructor is described. */
  lemma {:induction false} ConstructorsExactly(funcs: seq<Func>, e: Entry)
    ensures e in Constructors(funcs)
       <==> exists f | f in funcs :: IsConstructor(f.name) && f.mints && e == EntryOf(f, 0)
  {
    if funcs != [] { ConstructorsExactly(funcs[1..], e); }
  }

  lemma {:induction false} MethodsExactly(funcs: seq<Func>, e: Entry)
    ensures e in Methods(funcs) <==> exists f | f in funcs :: IsMethod(f.name) && f.receiver && e == EntryOf(f, 1)
  {
    if funcs != [] { MethodsExactly(funcs[1..], e); }
  }

  /** With distinct names a function is found under its own. */
  lemma {:induction false} FindsItself(funcs: seq<Func>, f: Func)
    requires Distinct(FuncNames(funcs)) && f in funcs
    ensures FindFunc(funcs, f.name) == Some(f)
  {
    var names := FuncNames(funcs);
    var i :| 0 <= i < |funcs| && funcs[i] == f;
    if i > 0 {
      assert names[0] != names[i];
      assert FuncNames(funcs[1..]) == names[1..] && funcs[1..][i - 1] == f;
      FindsItself(funcs[1..], f);
    }
  }

  /** The function behind a described constructor. */
  lemma ConstructorFunc(funcs: seq<Func>, e: Entry) returns (f: Func)
    requires Distinct(FuncNames(funcs)) && e in Constructors(funcs)
    ensures FindFunc(funcs, e.name) == Some(f)
    ensures IsConstructor(e.name) && f.mints && |e.params| == |f.params|
  {
    ConstructorsExactly(funcs, e);
    f :| f in funcs && IsConstructor(f.name) && f.mints && e == EntryOf(f, 0);
    FindsItself(funcs, f);
    KindsLength(f.params[0..]);
  }

  /** The function behind a described method. */
  lemma MethodFunc(funcs: seq<Func>, e: Entry) returns (f: Func)
    requires Distinct(FuncNames(funcs)) && e in Methods(funcs)
    ensures FindFunc(funcs, e.name) == Some(f)
    ensures IsMethod(e.name) && f.receiver && |e.params| == if f.params == [] then 0 else |f.params| - 1
  {
    MethodsExactly(funcs, e);
    f :| f in funcs && IsMethod(f.name) && f.receiver && e == EntryOf(f, 1);
    FindsItself(funcs, f);
    KindsLength(if f.params == [] then [] else f.params[1..]);
  }

  lemma PrefixesDiffer(name: string)
    ensures !(IsConstructor(name) && IsMethod(name))
  {
    assert IsConstructor(name) ==> name[1] == 's';
    assert IsMethod(name) ==> name[1] == 'm';
  }

  /**
   The described constructors are those `call` can mint from: with nothing in
   flight and arguments that convert, a constructor's name is described exactly
   when the call is let through.
   */
  lemma ConstructorsMint(c: Component, s: State, instance: string, name: string, args: seq<Json>)
    requires s.flight.None? && instance in c.instances && IsConstructor(name)
    requires Distinct(FuncNames(c.instances[instance].funcs))
    requires var found := FindFunc(c.instances[instance].funcs, name);
             found.Some? ==> ConvertArgs(ParamTypes(found.value.params), 0, args, c.ext).Ok?
    ensures (exists e | e in Constructors(c.instances[instance].funcs) :: e.name == name)
       <==> AdmitCall(c, s, instance, name, args).Ok? && AdmitCall(c, s, instance, name, args).value.Minting?
  {
    var funcs := c.instances[instance].funcs;
    if e :| e in Constructors(funcs) && e.name == name {
      var f := ConstructorFunc(funcs, e);
    } else {
      var found := FindFunc(funcs, name);
      if found.Some? && found.value.mints {
        ConstructorsExactly(funcs, EntryOf(found.value, 0));
      }
    }
  }

  /** A described function takes as many arguments as it shows parameters: any other number is refused with both. */
  lemma DescribedArity(c: Component, s: State, instance: string, e: Entry, args: seq<Json>)
    requires s.flight.None? && instance in c.instances && Distinct(FuncNames(c.instances[instance].funcs))
    ensures e in Constructors(c.instances[instance].funcs) && |args| != |e.params| ==>
              AdmitCall(c, s, instance, e.name, args) == Err(BadArguments(WrongArity(|e.params|, |args|)))
    ensures e in Methods(c.instances[instance].funcs) && HandleId(args).Some? && |args| - 1 != |e.params| ==>
              AdmitCall(c, s, instance, e.name, args) == Err(BadArguments(WrongArity(|e.params|, |args| - 1)))
  {
    var funcs := c.instances[instance].funcs;
    PrefixesDiffer(e.name);
    if e in Constructors(funcs) { var f := ConstructorFunc(funcs, e); }
    if e in Methods(funcs) { var f := MethodFunc(funcs, e); }
  }

  /** The listed names are the described methods the store has declared. */
  lemma {:induction false} ListedAreDescribed(funcs: seq<Func>, implemented: set<MethodHash>, sha: bytes -> Digest,
                                             name: string)
    ensures name in Listed(funcs, implemented, sha)
       <==> HostHash(name, sha) in implemented && exists e | e in Methods(funcs) :: e.name == name
  {
    if funcs != [] {
      var rest := Methods(funcs[1..]);
      ListedAreDescribed(funcs[1..], implemented, sha, name);
      if exists e | e in rest :: e.name == name {
        var e :| e in rest && e.name == name;
        assert e in Methods(funcs);
      }
      if IsMethod(funcs[0].name) && funcs[0].receiver {
        assert Methods(funcs)[0].name == funcs[0].name && Methods(funcs)[0] in Methods(funcs);
      }
    }
  }

  // What an entry shows

  /** The kinds the page has fields for; everything else is entered as JSON. */
  predicate HasKind(ty: Type) {
    JsonScalar(ty) || ty.Float32? || ty.Float64?
  }

  /** The type a kind stands for. */
  function TypeOfKind(kind: string): Option<Type> {
    if kind == "bool" then Some(Type.Bool)
    else if kind == "s8" then Some(Type.S8)
    else if kind == "u8" then Some(Type.U8)
    else if kind == "s16" then Some(Type.S16)
    else if kind == "u16" then Some(Type.U16)
    else if kind == "s32" then Some(Type.S32)
    else if kind == "u32" then Some(Type.U32)
    else if kind == "s64" then Some(Type.S64)
    else if kind == "u64" then Some(Type.U64)
    else if kind == "f32" then Some(Type.Float32)
    else if kind == "f64" then Some(Type.Float64)
    else if kind == "char" then Some(Type.Char)
    else if kind == "string" then Some(Type.Str)
    else None
  }

  /** A kind determines the type it was shown for, unless that is one entered as JSON. */
  lemma KindDetermines(ty: Type)
    ensures TypeOfKind(Kind(ty)) == if HasKind(ty) then Some(ty) else None
    ensures Kind(ty) == "json" <==> !HasKind(ty)
  {
  }

  lemma {:induction false} KindsAt(fields: seq<Field>, i: nat)
    requires i < |fields|
    ensures |Kinds(fields)| == |fields| && Kinds(fields)[i] == (fields[i].name, Kind(fields[i].ty))
  {
    KindsLength(fields);
    if i > 0 { KindsAt(fields[1..], i - 1); }
  }

  /** An entry shows the parameters behind the skipped ones, in order, under their own names. */
  lemma EntryShows(f: Func, skip: nat, i: nat)
    requires skip + i < |f.params|
    ensures var e, p := EntryOf(f, skip), f.params[skip + i];
            e.name == f.name && |e.params| == |f.params| - skip && e.params[i] == (p.name, Kind(p.ty))
  {
    KindsAt(f.params[skip..], i);
  }

  /** Its label is what follows the last dot of the name. */
  lemma {:induction false} LabelExactly(name: string) returns (before: string)
    ensures name == before + LastSegment(name) && '.' !in LastSegment(name)
    ensures before == "" || before[|before| - 1] == '.'
    decreases |name|
  {
    if name == "" {
      before := "";
    } else {
      var last := |name| - 1;
      if name[last] == '.' {
        before := name;
      } else {
        before := LabelExactly(name[..last]);
        assert name == name[..last] + [name[last]];
      }
    }
  }

  // Order

  /** Exports are described in order, each by itself. */
  lemma {:induction false} DescribedInOrder(c: Component, a: seq<string>, b: seq<string>)
    ensures Describe(c, a + b) == Describe(c, a) + Describe(c, b)
  {
    if a == [] {
      assert a + b == b;
    } else {
      assert (a + b)[1..] == a[1..] + b;
      DescribedInOrder(c, a[1..], b);
    }
  }

  /** An export is described exactly when it owns a `utxo`, and then as its own functions and storage are. */
  lemma DescribedAlone(c: Component, name: string)
    ensures Describe(c, [name]) == if name in c.instances then [(name, DescribeInstance(c.instances[name]))] else []
    ensures name in c.instances && c.instances[name].storage.Some? ==>
              var d, fields := DescribeInstance(c.instances[name]), c.instances[name].storage.value;
              && d.storage.Some? && |d.storage.value| == |fields|
              && forall i | 0 <= i < |fields| :: d.storage.value[i] == (fields[i].name, Kind(fields[i].ty))
  {
    assert [name][1..] == [];
    if name in c.instances && c.instances[name].storage.Some? {
      var fields := c.instances[name].storage.value;
      KindsLength(fields);
      forall i | 0 <= i < |fields| ensures Kinds(fields)[i] == (fields[i].name, Kind(fields[i].ty)) { KindsAt(fields, i); }
    }
  }

  /** So are the functions of an instance. */
  lemma {:induction false} ConstructorsInOrder(a: seq<Func>, b: seq<Func>)
    ensures Constructors(a + b) == Constructors(a) + Constructors(b)
  {
    if a == [] {
      assert a + b == b;
    } else {
      assert (a + b)[1..] == a[1..] + b;
      ConstructorsInOrder(a[1..], b);
    }
  }

  lemma {:induction false} MethodsInOrder(a: seq<Func>, b: seq<Func>)
    ensures Methods(a + b) == Methods(a) + Methods(b)
  {
    if a == [] {
      assert a + b == b;
    } else {
      assert (a + b)[1..] == a[1..] + b;
      MethodsInOrder(a[1..], b);
    }
  }

  /** And the names that are listed. */
  lemma {:induction false} ListedInOrder(a: seq<Func>, b: seq<Func>, implemented: set<MethodHash>, sha: bytes -> Digest)
    ensures Listed(a + b, implemented, sha) == Listed(a, implemented, sha) + Listed(b, implemented, sha)
  {
    if a == [] {
      assert a + b == b;
    } else {
      assert (a + b)[1..] == a[1..] + b;
      ListedInOrder(a[1..], b, implemented, sha);
    }
  }
}
