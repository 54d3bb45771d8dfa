/**
 The browser runtime's contract table as a step relation: the page's requests,
 what the guest does while one of them is in flight, and the event buffer they
 share. The runtime holds the contract mutably borrowed for the whole of a
 request that runs the guest, so every other request meanwhile fails.
 */
module Contracts {
  import opened Wrappers
  import opened Bits
  import opened Values
  import opened Json
  import opened MethodIdentity

  // The component, as its types describe it

  /**
   An exported function. `receiver`: its first parameter borrows the instance's
   `utxo`; `mints`: it returns just an owned one.
   */
  datatype Func = Func(name: string, params: seq<Field>, receiver: bool, mints: bool)

  /** An exported instance that owns a `utxo`; `storage` has the fields of its storage record. */
  datatype UtxoExport = UtxoExport(funcs: seq<Func>, storage: Option<seq<Field>>)

  /** Everything fixed for a loaded contract. */
  datatype Component = Component(
    exports: seq<string>,                // the exported instances in their order
    instances: map<string, UtxoExport>,  // those of them that own a `utxo`
    sha: bytes -> Digest,
    ext: External)

  function FuncNames(funcs: seq<Func>): (names: seq<string>)
    ensures |names| == |funcs|
  {
    seq(|funcs|, i requires 0 <= i < |funcs| => funcs[i].name)
  }

  function ParamTypes(params: seq<Field>): (types: seq<Type>)
    ensures |types| == |params|
  {
    seq(|params|, i requires 0 <= i < |params| => params[i].ty)
  }

  function FindFunc(funcs: seq<Func>, name: string): (r: Option<Func>)
    ensures r.Some? ==> r.value in funcs && r.value.name == name
    ensures r.None? ==> forall f | f in funcs :: f.name != name
  {
    if funcs == [] then None
    else if funcs[0].name == name then Some(funcs[0])
    else FindFunc(funcs[1..], name)
  }

  // The contract

  datatype Cardano = Cardano(blockHeight: i64, currentSlot: i64)

  datatype Event = Event(instance: string, name: string, params: seq<Json>)

  /** One instantiation of the guest; stores are numbered in the order they are made. */
  datatype Store = Store(number: nat, cardano: Cardano, implemented: set<MethodHash>)

  datatype Handle = Handle(origin: UtxoExport, store: Store)

  /** The request the guest is running for, and the values handed to it. */
  datatype Flight =
    | Minting(handle: Handle, given: seq<Val>)
    | Calling(id: u32, given: seq<Val>)
    | Reading(id: u32)
    | Dropping(store: Store)  // its handle has left the table already

  datatype Declaration = Declaration(store: nat, hash: MethodHash)

  datatype Invocation = Invocation(id: u32, store: nat, instance: string, func: string)

  datatype State = State(
    handles: map<u32, Handle>,
    nextId: u32,
    cardano: Cardano,
    events: seq<Event>,
    flight: Option<Flight>,
    // history: stores made, ids issued and dropped, what stores declared, and which methods were run on them
    stores: nat,
    minted: seq<u32>,
    dropped: set<u32>,
    declared: set<Declaration>,
    invoked: seq<Invocation>,
    // history: every event in the order of emission, and the batches handed to the page
    emitted: seq<Event>,
    drained: seq<seq<Event>>)

  function Initial(): State {
    State(map[], 0, Cardano(0, 0), [], None, 0, [], {}, {}, [], [], [])
  }

  datatype Refusal =
    | Busy
    | UnknownInstance
    | NoSuchFunction
    | NotAConstructor
    | NotAMethod
    | NoHandleArgument
    | BadArguments(reason: LowerError)
    | NoStorage
    | UnknownHandle
    | NotDeclared

  /** `handle_id`: the id under `$handle` in the first argument, cut to 32 bits. */
  function HandleId(args: seq<Json>): Option<u32> {
    if args != [] && args[0].Object? && "$handle" in args[0].entries then
      match args[0].entries["$handle"]
      case Integer(i) => if 0 <= i <= U64_MAX then Some(i % TWO_32) else None
      case _ => None
    else None
  }

  predicate IsConstructor(func: string) {
    "[static]" <= func
  }

  /** A fresh store takes the contract's ledger context as it is now, and has declared nothing. */
  function FreshStore(s: State): Store {
    Store(s.stores, s.cardano, {})
  }

  /** What `call` does up to the point where the guest runs. */
  function AdmitCall(c: Component, s: State, instance: string, func: string, args: seq<Json>): Result<Flight, Refusal> {
    if s.flight.Some? then Err(Busy)
    else if instance !in c.instances then Err(UnknownInstance)
    else match FindFunc(c.instances[instance].funcs, func)
      case None => Err(NoSuchFunction)
      case Some(f) =>
        if IsConstructor(func) then
          if !f.mints then Err(NotAConstructor)
          else match ConvertArgs(ParamTypes(f.params), 0, args, c.ext)
            case Err(e) => Err(BadArguments(e))
            case Ok(vs) => Ok(Minting(Handle(c.instances[instance], FreshStore(s)), vs))
        else if !f.receiver then Err(NotAMethod)
        else match HandleId(args)
          case None => Err(NoHandleArgument)
          case Some(id) =>
            match ConvertArgs(ParamTypes(f.params), 1, args[1..], c.ext)
            case Err(e) => Err(BadArguments(e))
            case Ok(vs) =>
              if id !in s.handles then Err(UnknownHandle)
              else if HostHash(func, c.sha) !in s.handles[id].store.implemented then Err(NotDeclared)
              else Ok(Calling(id, vs))
  }

  /** The same for `load_utxo`. */
  function AdmitLoad(c: Component, s: State, instance: string, doc: Json): Result<Flight, Refusal> {
    if s.flight.Some? then Err(Busy)
    else if instance !in c.instances then Err(UnknownInstance)
    else match c.instances[instance].storage
      case None => Err(NoStorage)
      case Some(fields) =>
        match JsonToVal(Type.Record(fields), doc, c.ext)
        case Err(e) => Err(BadArguments(e))
        case Ok(v) => Ok(Minting(Handle(c.instances[instance], FreshStore(s)), [v]))
  }

  /** The same for `storage_get`. */
  function AdmitGet(s: State, id: u32): Result<Flight, Refusal> {
    if s.flight.Some? then Err(Busy)
    else if id !in s.handles then Err(UnknownHandle)
    else if s.handles[id].origin.storage.None? then Err(NoStorage)
    else Ok(Reading(id))
  }

  /** The same for `drop_resource`. */
  function AdmitDrop(s: State, id: u32): Result<Flight, Refusal> {
    if s.flight.Some? then Err(Busy)
    else if id !in s.handles then Err(UnknownHandle)
    else Ok(Dropping(s.handles[id].store))
  }

  datatype Step =
    // requests of the page
    | Call(instance: string, func: string, args: seq<Json>)
    | Load(instance: string, doc: Json)
    | Get(id: u32)
    | Drop(id: u32)
    | SetCardano(cardano: Cardano)
    | Drain
    // the guest, while a request is in flight
    | Declare(hash: MethodHash)
    | Emit(instance: string, name: string, params: seq<Val>)
    | Finish(ok: bool)

  /** The page may ask for anything at any time; the guest acts only when it is run. */
  predicate Enabled(s: State, step: Step) {
    match step
    case Declare(_) => InFlight(s)
    case Emit(_, _, _) => InFlight(s)
    case Finish(_) => InFlight(s)
    case _ => true
  }

  predicate InFlight(s: State) {
    s.flight.Some? && (s.flight.value.Calling? || s.flight.value.Reading? ==> s.flight.value.id in s.handles)
  }

  function Apply(c: Component, s: State, step: Step): State
    requires Enabled(s, step)
  {
    match step
    case Call(instance, func, args) => StartCall(s, AdmitCall(c, s, instance, func, args), instance, func)
    case Load(instance, doc) => StartMint(s, AdmitLoad(c, s, instance, doc))
    case Get(id) => StartGet(s, AdmitGet(s, id))
    case Drop(id) => StartDrop(s, AdmitDrop(s, id), id)
    case SetCardano(now) => if s.flight.Some? then s else s.(cardano := now)
    case Drain => DrainEvents(s)
    case Declare(h) => DeclareMethod(s, h)
    case Emit(instance, name, params) => EmitEvent(s, Event(instance, name, AllToJson(params, c.ext)))
    case Finish(ok) => FinishFlight(s, ok)
  }

  function StartMint(s: State, r: Result<Flight, Refusal>): State {
    if r.Err? then s else s.(flight := Some(r.value), stores := s.stores + 1)
  }

  function StartCall(s: State, r: Result<Flight, Refusal>, instance: string, func: string): State
    requires r.Ok? && r.value.Calling? ==> r.value.id in s.handles
  {
    if r.Ok? && r.value.Calling? then
      var id := r.value.id;
      s.(flight := Some(r.value), invoked := s.invoked + [Invocation(id, s.handles[id].store.number, instance, func)])
    else StartMint(s, r)
  }

  function StartGet(s: State, r: Result<Flight, Refusal>): State {
    if r.Err? then s else s.(flight := Some(r.value))
  }

  /** The handle leaves the table before its destructor runs. */
  function StartDrop(s: State, r: Result<Flight, Refusal>, id: u32): State {
    if r.Err? then s else s.(flight := Some(r.value), handles := s.handles - {id}, dropped := s.dropped + {id})
  }

  /** What the worker ships with a response: the buffer, or nothing when the contract is borrowed. */
  function DrainEvents(s: State): State {
    if s.flight.Some? then s.(drained := s.drained + [[]])
    else s.(drained := s.drained + [s.events], events := [])
  }

  /** The store the guest is running in. */
  function Current(s: State): Store
    requires InFlight(s)
  {
    match s.flight.value
    case Minting(h, _) => h.store
    case Calling(id, _) => s.handles[id].store
    case Reading(id) => s.handles[id].store
    case Dropping(store) => store
  }

  /** `s` with `store` in place of the one the guest is running in. */
  function WithCurrent(s: State, store: Store): State
    requires InFlight(s)
  {
    match s.flight.value
    case Minting(h, vs) => s.(flight := Some(Minting(h.(store := store), vs)))
    case Calling(id, _) => s.(handles := s.handles[id := s.handles[id].(store := store)])
    case Reading(id) => s.(handles := s.handles[id := s.handles[id].(store := store)])
    case Dropping(_) => s.(flight := Some(Dropping(store)))
  }

  function DeclareMethod(s: State, h: MethodHash): State
    requires InFlight(s)
  {
    var store := Current(s);
    WithCurrent(s, store.(implemented := store.implemented + {h})).(
      declared := s.declared + {Declaration(store.number, h)})
  }

  function EmitEvent(s: State, e: Event): State {
    s.(events := s.events + [e], emitted := s.emitted + [e])
  }

  /** Only a mint that succeeded issues an id; the counter wraps around. */
  function FinishFlight(s: State, ok: bool): State
    requires s.flight.Some?
  {
    if s.flight.value.Minting? && ok then
      s.(flight := None,
         handles := s.handles[s.nextId := s.flight.value.handle],
         nextId := (s.nextId + 1) % TWO_32,
         minted := s.minted + [s.nextId])
    else s.(flight := None)
  }

  /** The state after a sequence of steps, if the guest acts only when it may. */
  function Exec(c: Component, s: State, steps: seq<Step>): Option<State> {
    if steps == [] then Some(s)
    else match Exec(c, s, steps[..|steps| - 1])
      case None => None
      case Some(t) => if Enabled(t, steps[|steps| - 1]) then Some(Apply(c, t, steps[|steps| - 1])) else None
  }

  // Listing

  predicate IsMethod(func: string) {
    "[method]" <= func
  }

  /** `implemented_methods`: the valid methods of the handle's own export that its store has declared, in export order. */
  function Listed(funcs: seq<Func>, implemented: set<MethodHash>, sha: bytes -> Digest): seq<string> {
    if funcs == [] then []
    else
      var rest := Listed(funcs[1..], implemented, sha);
      if IsMethod(funcs[0].name) && funcs[0].receiver && HostHash(funcs[0].name, sha) in implemented
      then [funcs[0].name] + rest else rest
  }
}
